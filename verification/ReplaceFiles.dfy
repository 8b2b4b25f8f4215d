/** The batch: plan every file, check that nothing changed, write the files one by one, and
    undo the writes in reverse if one of them fails. Paths are numbers, in the order of their
    resolved names, and stand for different files. */
module ReplaceFiles {
  import opened Bytes
  import opened Options
  import opened ReplaceRules

  type Path = nat
  type Content = seq<byte>

  datatype Node = File(content: Content, mode: nat) | Directory

  type Files = map<Path, Node>

  /** What a decoder says of a text besides its characters. */
  datatype Decoded = Decoded(text: Text, mark: Content, encoding: string, newline: Newline)

  /** A text codec: decoding fails on bytes of another encoding, encoding on characters that the
      encoding lacks. */
  datatype Codec = Codec(decode: (Content, Option<string>) -> Option<Decoded>, encode: (Decoded, Text) -> Option<Content>)

  /** One operation of the request; the revision of a file is its content. */
  datatype Operation = Operation(path: Path, rules: seq<Rule>, expected: Option<Content>, encoding: Option<string>)

  datatype Entry = Entry(rules: seq<Rule>, expected: Option<Content>, encoding: Option<string>)

  datatype Plan = Plan(path: Path, before: Content, after: Content, mode: nat, replacements: nat)

  datatype Refusal =
    | InvalidArguments
    | FileNotFound(path: Path)
    | NotAFile(path: Path)
    | RevisionConflict(path: Path)
    | EncodingError(path: Path)
    | NotEncodable(path: Path)
    | RuleError(path: Path, index: nat, outcome: RuleOutcome)
    | Unreadable(path: Path)

  datatype Outcome = Success(plans: seq<Plan>, total: nat) | Refused(why: Refusal) | WriteFailed(rolledBack: bool)

  // ----- planning -----

  /** What one file's rules give: each rule sees the text the previous one left and what is
      left of the budget. */
  datatype Applied = Applied(text: Text, replacements: nat) | Stopped(index: nat, outcome: RuleOutcome)

  function ApplyRules(engine: Engine, rules: seq<Rule>, text: Text, newline: Newline, budget: nat): (r: Applied)
    ensures r.Applied? ==> r.replacements <= budget
    ensures r.Stopped? ==> r.index < |rules| && !r.outcome.Changed?
  {
    if rules == [] then Applied(text, 0)
    else
      var n := |rules| - 1;
      var sofar := ApplyRules(engine, rules[..n], text, newline, budget);
      if sofar.Stopped? then sofar
      else
        var last := RuleResult(engine, rules[n], sofar.text, newline, budget - sofar.replacements);
        if last.Changed? then Applied(last.text, sofar.replacements + last.replacements) else Stopped(n, last)
  }

  datatype Planned = Ready(plan: Plan) | Failed(why: Refusal)

  function PlanFile(codec: Codec, engine: Engine, files: Files, path: Path, entry: Entry, budget: nat): (r: Planned)
    ensures r.Ready? ==> r.plan.path == path && r.plan.replacements <= budget
    ensures r.Ready? ==> path in files && files[path] == File(r.plan.before, r.plan.mode)
    ensures r.Failed? ==> !r.why.Unreadable?
  {
    if path !in files then Failed(FileNotFound(path))
    else if files[path].Directory? then Failed(NotAFile(path))
    else
      var raw := files[path].content;
      if entry.expected.Some? && entry.expected.value != raw then Failed(RevisionConflict(path))
      else
        var decoded := codec.decode(raw, entry.encoding);
        if decoded.None? then Failed(EncodingError(path))
        else
          var applied := ApplyRules(engine, entry.rules, decoded.value.text, decoded.value.newline, budget);
          if applied.Stopped? then Failed(RuleError(path, applied.index, applied.outcome))
          else
            var after := codec.encode(decoded.value, applied.text);
            if after.None? then Failed(NotEncodable(path))
            else Ready(Plan(path, raw, after.value, files[path].mode, applied.replacements))
  }

  datatype PlannedAll = AllReady(plans: seq<Plan>, total: nat) | SomeFailed(why: Refusal)

  /** How one path is planned with what is left of the limit. */
  type Planner = (Path, nat) -> Planned

  /** A planner never takes more than it is given. */
  ghost predicate KeepsWithin(plan: Planner) {
    forall path: Path, budget: nat :: plan(path, budget).Ready? ==> plan(path, budget).plan.replacements <= budget
  }

  function PlanEach(plan: Planner, paths: seq<Path>, limit: nat): (r: PlannedAll)
    requires KeepsWithin(plan)
    ensures r.AllReady? ==> |r.plans| == |paths| && r.total <= limit
  {
    if paths == [] then AllReady([], 0)
    else
      var n := |paths| - 1;
      var sofar := PlanEach(plan, paths[..n], limit);
      if sofar.SomeFailed? then sofar
      else
        var last := plan(paths[n], limit - sofar.total);
        if last.Failed? then SomeFailed(last.why)
        else AllReady(sofar.plans + [last.plan], sofar.total + last.plan.replacements)
  }

  function PlannerFor(codec: Codec, engine: Engine, files: Files, entries: map<Path, Entry>): (r: Planner)
    ensures KeepsWithin(r)
  {
    (path: Path, budget: nat) =>
      if path in entries then PlanFile(codec, engine, files, path, entries[path], budget) else Failed(FileNotFound(path))
  }

  function PlanAll(codec: Codec, engine: Engine, files: Files, paths: seq<Path>, entries: map<Path, Entry>,
          limit: nat): (r: PlannedAll)
    requires forall k :: 0 <= k < |paths| ==> paths[k] in entries
    ensures r.AllReady? ==> |r.plans| == |paths| && r.total <= limit
  {
    PlanEach(PlannerFor(codec, engine, files, entries), paths, limit)
  }

  function Total(plans: seq<Plan>): nat {
    if plans == [] then 0 else Total(plans[..|plans| - 1]) + plans[|plans| - 1].replacements
  }

  /** The plans of a batch cover its paths in order, each with the bytes its file held, and the
      total is the sum of what the files take. */
  lemma {:induction false} PlansCoverPaths(codec: Codec, engine: Engine, files: Files, paths: seq<Path>,
          entries: map<Path, Entry>, limit: nat)
    requires forall k :: 0 <= k < |paths| ==> paths[k] in entries
    requires PlanAll(codec, engine, files, paths, entries, limit).AllReady?
    ensures var r := PlanAll(codec, engine, files, paths, entries, limit);
      && r.total == Total(r.plans) <= limit
      && forall k :: 0 <= k < |paths| ==>
           && r.plans[k].path == paths[k] && paths[k] in files
           && files[paths[k]] == File(r.plans[k].before, r.plans[k].mode)
    decreases |paths|
  {
    if paths != [] {
      var n := |paths| - 1;
      PlansCoverPaths(codec, engine, files, paths[..n], entries, limit);
      var sofar := PlanAll(codec, engine, files, paths[..n], entries, limit);
      var r := PlanAll(codec, engine, files, paths, entries, limit);
      assert r.plans[..n] == sofar.plans;
    }
  }

  // ----- the file system -----

  /** How a write ends: before or after it took effect, well, or with other bytes on disk. */
  datatype WriteEvent = Done | FailsBefore | FailsAfter | Corrupts(content: Content)

  function Write(files: Files, path: Path, content: Content, mode: nat, e: WriteEvent): Files {
    match e
    case Done => files[path := File(content, mode)]
    case FailsBefore => files
    case FailsAfter => files[path := File(content, mode)]
    case Corrupts(other) => files[path := File(other, mode)]
  }

  /** A write and the check of what it left that follows it. */
  predicate WriteVerified(content: Content, e: WriteEvent) {
    e.Done? || (e.Corrupts? && e.content == content)
  }

  class FileSystem {
    var files: Files

    /** The write raises when it fails; a corrupted one is noticed when the file is read back. */
    method WriteAndVerify(path: Path, content: Content, mode: nat, e: WriteEvent) returns (ok: bool)
      modifies this
      ensures files == Write(old(files), path, content, mode, e)
      ensures ok == WriteVerified(content, e)
      ensures ok ==> files == old(files)[path := File(content, mode)]
      ensures path in old(files) ==> files.Keys == old(files).Keys
      ensures forall q :: q != path ==> (q in files <==> q in old(files)) && (q in files ==> files[q] == old(files)[q])
    {
      match e {
        case FailsBefore => return false;
        case FailsAfter =>
          files := files[path := File(content, mode)];
          return false;
        case Done =>
          files := files[path := File(content, mode)];
        case Corrupts(other) =>
          files := files[path := File(other, mode)];
      }
      ok := files[path].content == content;
    }

    /** What others did to the files while the batch was planned. */
    method Interfere(others: Files)
      modifies this
      ensures files == others
    {
      files := others;
    }
  }

  // ----- grouping -----

  /** The rules given for a path, in the order of the operations. */
  function RulesFor(operations: seq<Operation>, path: Path): seq<Rule> {
    if operations == [] then []
    else
      var last := operations[|operations| - 1];
      RulesFor(operations[..|operations| - 1], path) + if last.path == path then last.rules else []
  }

  /** Operations on one path must agree on the expected revision and the encoding. */
  ghost predicate Agree(operations: seq<Operation>) {
    && (forall i :: 0 <= i < |operations| ==> operations[i].rules != [])
    && (forall i, j :: 0 <= i < |operations| && 0 <= j < |operations| && operations[i].path == operations[j].path ==>
          operations[i].expected == operations[j].expected && operations[i].encoding == operations[j].encoding)
  }

  /** The operation went into its path's entry. */
  ghost predicate IsGrouped(o: Operation, grouped: map<Path, Entry>) {
    o.path in grouped && grouped[o.path].expected == o.expected && grouped[o.path].encoding == o.encoding
  }

  ghost predicate Mentions(operations: seq<Operation>, path: Path) {
    exists i :: 0 <= i < |operations| && operations[i].path == path
  }

  ghost predicate IsGrouping(operations: seq<Operation>, grouped: map<Path, Entry>) {
    && (forall i :: 0 <= i < |operations| ==> IsGrouped(operations[i], grouped))
    && (forall p :: p in grouped ==> grouped[p].rules == RulesFor(operations, p) && Mentions(operations, p))
  }

  lemma {:induction false} NoRulesElsewhere(operations: seq<Operation>, path: Path)
    requires forall i :: 0 <= i < |operations| ==> operations[i].path != path
    ensures RulesFor(operations, path) == []
    decreases |operations|
  {
    if operations != [] {
      NoRulesElsewhere(operations[..|operations| - 1], path);
    }
  }

  /** The entry of an operation's path with the operation added to it. */
  function WithOperation(grouped: map<Path, Entry>, o: Operation): Entry {
    Entry((if o.path in grouped then grouped[o.path].rules else []) + o.rules, o.expected, o.encoding)
  }

  lemma RulesOneMore(operations: seq<Operation>, o: Operation, grouped: map<Path, Entry>, p: Path)
    requires IsGrouping(operations, grouped)
    requires p in grouped || p == o.path
    ensures Mentions(operations + [o], p)
    ensures RulesFor(operations + [o], p) == grouped[o.path := WithOperation(grouped, o)][p].rules
  {
    var more := operations + [o];
    assert more[..|operations|] == operations && more[|operations|] == o;
    if p in grouped {
      assert Mentions(operations, p);
      var k :| 0 <= k < |operations| && operations[k].path == p;
      assert more[k].path == p;
    } else {
      forall k | 0 <= k < |operations| ensures operations[k].path != p {
        assert IsGrouped(operations[k], grouped);
      }
      NoRulesElsewhere(operations, p);
    }
  }

  lemma GroupOneMore(operations: seq<Operation>, o: Operation, grouped: map<Path, Entry>)
    requires IsGrouping(operations, grouped)
    requires o.path in grouped ==> grouped[o.path].expected == o.expected && grouped[o.path].encoding == o.encoding
    ensures IsGrouping(operations + [o], grouped[o.path := WithOperation(grouped, o)])
  {
    var more, after := operations + [o], grouped[o.path := WithOperation(grouped, o)];
    forall k | 0 <= k < |more| ensures IsGrouped(more[k], after) {
      assert k < |operations| ==> IsGrouped(operations[k], grouped) && more[k] == operations[k];
    }
    forall p | p in after ensures after[p].rules == RulesFor(more, p) && Mentions(more, p) {
      RulesOneMore(operations, o, grouped, p);
    }
  }

  /** Add one operation to the entries; None when it has no rules or disagrees. */
  method AddOperation(grouped: map<Path, Entry>, o: Operation) returns (r: Option<map<Path, Entry>>)
    ensures r.Some? <==> CanAdd(grouped, o)
    ensures r.Some? ==> r.value == grouped[o.path := WithOperation(grouped, o)]
  {
    if o.rules == [] {
      return None;
    }
    if o.path in grouped && (grouped[o.path].encoding != o.encoding || grouped[o.path].expected != o.expected) {
      return None;
    }
    var rules := if o.path in grouped then grouped[o.path].rules else [];
    r := Some(grouped[o.path := Entry(rules + o.rules, o.expected, o.encoding)]);
  }

  predicate CanAdd(grouped: map<Path, Entry>, o: Operation) {
    o.rules != [] && (o.path in grouped ==> grouped[o.path].expected == o.expected && grouped[o.path].encoding == o.encoding)
  }

  /** The first i operations are grouped. */
  ghost predicate GroupedUpTo(operations: seq<Operation>, i: nat, grouped: map<Path, Entry>)
    requires i <= |operations|
  {
    IsGrouping(operations[..i], grouped) && forall k :: 0 <= k < i ==> operations[k].rules != []
  }

  lemma GroupedOneMore(operations: seq<Operation>, i: nat, grouped: map<Path, Entry>)
    requires i < |operations| && GroupedUpTo(operations, i, grouped)
    ensures CanAdd(grouped, operations[i]) ==>
      GroupedUpTo(operations, i + 1, grouped[operations[i].path := WithOperation(grouped, operations[i])])
    ensures !CanAdd(grouped, operations[i]) ==> !Agree(operations)
  {
    var o := operations[i];
    if CanAdd(grouped, o) {
      GroupOneMore(operations[..i], o, grouped);
      assert operations[..i + 1] == operations[..i] + [o];
    } else if o.rules != [] {
      Disagreement(operations, i, grouped);
    }
  }

  lemma AllGrouped(operations: seq<Operation>, grouped: map<Path, Entry>)
    requires GroupedUpTo(operations, |operations|, grouped)
    ensures Agree(operations) && IsGrouping(operations, grouped)
  {
    assert operations[..|operations|] == operations;
    GroupingAgrees(operations, grouped);
  }

  /** One entry per path, or None when an operation has no rules or two of them disagree. */
  method Group(operations: seq<Operation>) returns (r: Option<map<Path, Entry>>)
    ensures r.Some? <==> Agree(operations)
    ensures r.Some? ==> IsGrouping(operations, r.value)
  {
    var grouped: map<Path, Entry> := map[];
    var i := 0;
    while i < |operations|
      invariant 0 <= i <= |operations| && GroupedUpTo(operations, i, grouped)
    {
      GroupedOneMore(operations, i, grouped);
      var more := AddOperation(grouped, operations[i]);
      if more.None? {
        return None;
      }
      grouped := more.value;
      i := i + 1;
    }
    AllGrouped(operations, grouped);
    r := Some(grouped);
  }

  lemma Disagreement(operations: seq<Operation>, i: nat, grouped: map<Path, Entry>)
    requires i < |operations| && IsGrouping(operations[..i], grouped) && operations[i].path in grouped
    requires var e := grouped[operations[i].path]; e.encoding != operations[i].encoding || e.expected != operations[i].expected
    ensures !Agree(operations)
  {
    var done := operations[..i];
    assert Mentions(done, operations[i].path);
    var k :| 0 <= k < |done| && done[k].path == operations[i].path;
    assert IsGrouped(done[k], grouped) && operations[k] == done[k];
  }

  lemma GroupingAgrees(operations: seq<Operation>, grouped: map<Path, Entry>)
    requires IsGrouping(operations, grouped)
    requires forall k :: 0 <= k < |operations| ==> operations[k].rules != []
    ensures Agree(operations)
  {
    forall i, j | 0 <= i < |operations| && 0 <= j < |operations| && operations[i].path == operations[j].path
      ensures operations[i].expected == operations[j].expected && operations[i].encoding == operations[j].encoding
    {
      assert IsGrouped(operations[i], grouped) && IsGrouped(operations[j], grouped);
    }
  }

  ghost predicate Ascending(paths: seq<Path>) {
    forall i, j :: 0 <= i < j < |paths| ==> paths[i] < paths[j]
  }

  /** The grouped paths in order. */
  method OrderedPaths(grouped: map<Path, Entry>) returns (paths: seq<Path>)
    ensures Ascending(paths)
    ensures forall p :: p in paths <==> p in grouped
  {
    paths := [];
    var todo := grouped.Keys;
    while todo != {}
      invariant todo <= grouped.Keys
      invariant Ascending(paths)
      invariant forall p :: p in paths <==> p in grouped && p !in todo
      invariant forall p, q :: p in paths && q in todo ==> p < q
    {
      var least := Least(todo);
      forall k | 0 <= k < |paths| ensures paths[k] < least {
        assert paths[k] in paths;
      }
      paths := paths + [least];
      todo := todo - {least};
    }
  }

  method Least(s: set<Path>) returns (least: Path)
    requires s != {}
    ensures least in s && forall p :: p in s ==> least <= p
  {
    least :| least in s;
    var todo := s - {least};
    while todo != {}
      invariant todo <= s && least in s && least !in todo
      invariant forall p :: p in s && p !in todo ==> least <= p
      decreases todo
    {
      var p :| p in todo;
      todo := todo - {p};
      if p < least {
        least := p;
      }
    }
  }

  // ----- the planning loops -----

  /** One more rule on the text that the rules before it left. */
  method ApplyNext(engine: Engine, rules: seq<Rule>, i: nat, sofar: Applied, newline: Newline, budget: nat,
          ghost text: Text)
      returns (r: Applied)
    requires i < |rules| && sofar.Applied? && sofar == ApplyRules(engine, rules[..i], text, newline, budget)
    ensures r == ApplyRules(engine, rules[..i + 1], text, newline, budget)
  {
    ApplyOneMore(engine, rules, i, text, newline, budget);
    var outcome := ApplyRule(engine, rules[i], sofar.text, newline, budget - sofar.replacements);
    r := if outcome.Changed? then Applied(outcome.text, sofar.replacements + outcome.replacements) else Stopped(i, outcome);
  }

  method ApplyAllRules(engine: Engine, rules: seq<Rule>, text: Text, newline: Newline, budget: nat) returns (r: Applied)
    ensures r == ApplyRules(engine, rules, text, newline, budget)
  {
    r := Applied(text, 0);
    var i := 0;
    while i < |rules|
      invariant 0 <= i <= |rules|
      invariant r.Applied? && r == ApplyRules(engine, rules[..i], text, newline, budget)
    {
      r := ApplyNext(engine, rules, i, r, newline, budget, text);
      i := i + 1;
      if r.Stopped? {
        StopsAt(engine, rules, i, text, newline, budget);
        return;
      }
    }
    assert rules[..i] == rules;
  }

  lemma ApplyOneMore(engine: Engine, rules: seq<Rule>, i: nat, text: Text, newline: Newline, budget: nat)
    requires i < |rules| && ApplyRules(engine, rules[..i], text, newline, budget).Applied?
    ensures var was := ApplyRules(engine, rules[..i], text, newline, budget);
      var last := RuleResult(engine, rules[i], was.text, newline, budget - was.replacements);
      ApplyRules(engine, rules[..i + 1], text, newline, budget)
        == if last.Changed? then Applied(last.text, was.replacements + last.replacements) else Stopped(i, last)
  {
    assert rules[..i + 1][..i] == rules[..i];
  }

  lemma {:induction false} StopsAt(engine: Engine, rules: seq<Rule>, i: nat, text: Text, newline: Newline, budget: nat)
    requires i <= |rules| && ApplyRules(engine, rules[..i], text, newline, budget).Stopped?
    ensures ApplyRules(engine, rules, text, newline, budget) == ApplyRules(engine, rules[..i], text, newline, budget)
    decreases |rules|
  {
    if i == |rules| {
      assert rules[..i] == rules;
    } else {
      var n := |rules| - 1;
      assert rules[..n][..i] == rules[..i];
      StopsAt(engine, rules[..n], i, text, newline, budget);
    }
  }

  method PlanOne(codec: Codec, engine: Engine, files: Files, path: Path, entry: Entry, budget: nat) returns (r: Planned)
    ensures r == PlanFile(codec, engine, files, path, entry, budget)
  {
    if path !in files {
      return Failed(FileNotFound(path));
    }
    if files[path].Directory? {
      return Failed(NotAFile(path));
    }
    var raw := files[path].content;
    if entry.expected.Some? && entry.expected.value != raw {
      return Failed(RevisionConflict(path));
    }
    var decoded := codec.decode(raw, entry.encoding);
    if decoded.None? {
      return Failed(EncodingError(path));
    }
    var applied := ApplyAllRules(engine, entry.rules, decoded.value.text, decoded.value.newline, budget);
    if applied.Stopped? {
      return Failed(RuleError(path, applied.index, applied.outcome));
    }
    var after := codec.encode(decoded.value, applied.text);
    if after.None? {
      return Failed(NotEncodable(path));
    }
    r := Ready(Plan(path, raw, after.value, files[path].mode, applied.replacements));
  }

  /** One more file, with what the files before it left of the limit. */
  method PlanNext(codec: Codec, engine: Engine, files: Files, paths: seq<Path>, i: nat, sofar: PlannedAll,
        entries: map<Path, Entry>, limit: nat)
      returns (r: PlannedAll)
    requires forall k :: 0 <= k < |paths| ==> paths[k] in entries
    requires i < |paths| && sofar.AllReady? && sofar == PlanAll(codec, engine, files, paths[..i], entries, limit)
    ensures r == PlanAll(codec, engine, files, paths[..i + 1], entries, limit)
  {
    var one := PlanOne(codec, engine, files, paths[i], entries[paths[i]], limit - sofar.total);
    PlanOneMore(codec, engine, files, paths, i, entries, limit, sofar, one);
    r := if one.Ready? then AllReady(sofar.plans + [one.plan], sofar.total + one.plan.replacements) else SomeFailed(one.why);
  }

  method PlanFiles(codec: Codec, engine: Engine, files: Files, paths: seq<Path>, entries: map<Path, Entry>, limit: nat)
      returns (r: PlannedAll)
    requires forall k :: 0 <= k < |paths| ==> paths[k] in entries
    ensures r == PlanAll(codec, engine, files, paths, entries, limit)
  {
    r := AllReady([], 0);
    var i := 0;
    while i < |paths|
      invariant 0 <= i <= |paths|
      invariant r.AllReady? && r == PlanAll(codec, engine, files, paths[..i], entries, limit)
    {
      r := PlanNext(codec, engine, files, paths, i, r, entries, limit);
      i := i + 1;
      if r.SomeFailed? {
        FailsAt(codec, engine, files, paths, i, entries, limit);
        return;
      }
    }
    assert paths[..i] == paths;
  }

  lemma PlanOneMore(codec: Codec, engine: Engine, files: Files, paths: seq<Path>, i: nat, entries: map<Path, Entry>,
        limit: nat, sofar: PlannedAll, one: Planned)
    requires forall k :: 0 <= k < |paths| ==> paths[k] in entries
    requires i < |paths| && sofar == PlanAll(codec, engine, files, paths[..i], entries, limit) && sofar.AllReady?
    requires one == PlanFile(codec, engine, files, paths[i], entries[paths[i]], limit - sofar.total)
    ensures PlanAll(codec, engine, files, paths[..i + 1], entries, limit)
      == if one.Ready? then AllReady(sofar.plans + [one.plan], sofar.total + one.plan.replacements) else SomeFailed(one.why)
  {
    assert paths[..i + 1][..i] == paths[..i];
  }

  lemma {:induction false} FailsAt(codec: Codec, engine: Engine, files: Files, paths: seq<Path>, i: nat,
          entries: map<Path, Entry>, limit: nat)
    requires forall k :: 0 <= k < |paths| ==> paths[k] in entries
    requires i <= |paths| && PlanAll(codec, engine, files, paths[..i], entries, limit).SomeFailed?
    ensures PlanAll(codec, engine, files, paths, entries, limit) == PlanAll(codec, engine, files, paths[..i], entries, limit)
    decreases |paths|
  {
    if i == |paths| {
      assert paths[..i] == paths;
    } else {
      var n := |paths| - 1;
      assert paths[..n][..i] == paths[..i];
      FailsAt(codec, engine, files, paths[..n], i, entries, limit);
    }
  }

  // ----- commit and rollback -----

  ghost predicate DistinctPaths(plans: seq<Plan>) {
    forall i, j :: 0 <= i < j < |plans| ==> plans[i].path != plans[j].path
  }

  ghost predicate IsPlanned(plans: seq<Plan>, path: Path) {
    exists k :: 0 <= k < |plans| && plans[k].path == path
  }

  /** Outside the planned paths nothing differs. */
  ghost predicate SameElsewhere(a: Files, b: Files, plans: seq<Plan>) {
    a.Keys == b.Keys && forall q :: q in a && !IsPlanned(plans, q) ==> a[q] == b[q]
  }

  ghost predicate HoldsContent(files: Files, path: Path, content: Content) {
    path in files && files[path].File? && files[path].content == content
  }

  /** Every planned file still holds the bytes it was planned from. */
  ghost predicate StillBefore(files: Files, plans: seq<Plan>) {
    forall k :: 0 <= k < |plans| ==> HoldsContent(files, plans[k].path, plans[k].before)
  }

  /** Every planned file holds its planned bytes. */
  ghost predicate AllAfter(files: Files, plans: seq<Plan>) {
    forall k :: 0 <= k < |plans| ==> HoldsContent(files, plans[k].path, plans[k].after)
  }

  /** Every one of these files has the bytes and the permissions it was planned from. */
  ghost predicate AllBack(files: Files, plans: seq<Plan>) {
    forall k :: 0 <= k < |plans| ==> plans[k].path in files && files[plans[k].path] == File(plans[k].before, plans[k].mode)
  }

  method Recheck(files: Files, plans: seq<Plan>) returns (r: Option<Refusal>)
    ensures r.None? <==> StillBefore(files, plans)
    ensures r.Some? ==> r.value.Unreadable? || r.value.RevisionConflict?
  {
    var i := 0;
    while i < |plans|
      invariant 0 <= i <= |plans|
      invariant forall k :: 0 <= k < i ==> HoldsContent(files, plans[k].path, plans[k].before)
    {
      var path := plans[i].path;
      if path !in files || files[path].Directory? {
        return Some(Unreadable(path));
      }
      if files[path].content != plans[i].before {
        return Some(RevisionConflict(path));
      }
      i := i + 1;
    }
    r := None;
  }

  /** The undos from this one on all succeed. */
  ghost predicate AllUndone(attempted: seq<Plan>, events: nat -> WriteEvent, i: nat) {
    forall k: nat :: i <= k < |attempted| ==> WriteVerified(attempted[k].before, events(k))
  }

  /** Undo in reverse; every file is tried even after an undo failed. */
  method Rollback(fs: FileSystem, attempted: seq<Plan>, events: nat -> WriteEvent) returns (ok: bool)
    requires DistinctPaths(attempted)
    requires forall k :: 0 <= k < |attempted| ==> attempted[k].path in fs.files
    modifies fs
    ensures SameElsewhere(fs.files, old(fs.files), attempted)
    ensures ok ==> AllBack(fs.files, attempted)
    ensures ok <==> AllUndone(attempted, events, 0)
  {
    ok := true;
    var i := |attempted|;
    while i > 0
      invariant 0 <= i <= |attempted|
      invariant SameElsewhere(fs.files, old(fs.files), attempted)
      invariant ok ==> AllBack(fs.files, attempted[i..])
      invariant ok <==> AllUndone(attempted, events, i)
    {
      i := i - 1;
      ghost var was := fs.files;
      var plan := attempted[i];
      assert IsPlanned(attempted, plan.path);
      var good := fs.WriteAndVerify(plan.path, plan.before, plan.mode, events(i));
      if !good {
        ok := false;
      }
      if ok {
        OneMoreBack(was, fs.files, attempted, i);
      }
    }
    assert attempted[0..] == attempted;
  }

  lemma OneMoreBack(was: Files, now: Files, attempted: seq<Plan>, i: nat)
    requires i < |attempted| && DistinctPaths(attempted) && AllBack(was, attempted[i + 1..])
    requires now == was[attempted[i].path := File(attempted[i].before, attempted[i].mode)]
    ensures AllBack(now, attempted[i..])
  {
    var rest := attempted[i..];
    forall k | 0 <= k < |rest| ensures rest[k].path in now && now[rest[k].path] == File(rest[k].before, rest[k].mode) {
      if k > 0 {
        assert rest[k] == attempted[i + 1..][k - 1];
        assert attempted[i].path != attempted[i + k].path;
      }
    }
  }

  /** The plans that change their file. */
  function Changing(plans: seq<Plan>): seq<Plan> {
    if plans == [] then []
    else
      var last := plans[|plans| - 1];
      Changing(plans[..|plans| - 1]) + if last.before == last.after then [] else [last]
  }

  lemma {:induction false} ChangingArePlans(plans: seq<Plan>)
    ensures forall k :: 0 <= k < |Changing(plans)| ==> Changing(plans)[k] in plans
    ensures DistinctPaths(plans) ==> DistinctPaths(Changing(plans))
    decreases |plans|
  {
    if plans != [] {
      var n := |plans| - 1;
      ChangingArePlans(plans[..n]);
      var first, all := Changing(plans[..n]), Changing(plans);
      forall k | 0 <= k < |first| ensures first[k] in plans && (DistinctPaths(plans) ==> first[k].path != plans[n].path) {
        var j :| 0 <= j < n && plans[..n][j] == first[k];
        assert plans[j] == first[k];
      }
      if DistinctPaths(plans) {
        assert DistinctPaths(plans[..n]);
      }
    }
  }

  /** How far a commit is: the first i plans are on disk, the rest untouched. */
  ghost predicate CommittedTo(files: Files, start: Files, plans: seq<Plan>, i: nat)
    requires i <= |plans|
  {
    && AllAfter(files, plans[..i])
    && SameElsewhere(files, start, Changing(plans[..i]))
  }

  lemma NothingCommitted(start: Files, plans: seq<Plan>)
    ensures CommittedTo(start, start, plans, 0)
  {
  }

  lemma ChangingOneMore(plans: seq<Plan>, i: nat)
    requires i < |plans|
    ensures plans[i].before == plans[i].after ==> Changing(plans[..i + 1]) == Changing(plans[..i])
    ensures plans[i].before != plans[i].after ==> Changing(plans[..i + 1]) == Changing(plans[..i]) + [plans[i]]
  {
    assert plans[..i + 1][..i] == plans[..i];
  }

  lemma SkipPlan(files: Files, start: Files, plans: seq<Plan>, i: nat)
    requires i < |plans| && CommittedTo(files, start, plans, i) && StillBefore(start, plans) && DistinctPaths(plans)
    requires plans[i].before == plans[i].after
    ensures CommittedTo(files, start, plans, i + 1)
  {
    ChangingOneMore(plans, i);
    NotYetPlanned(plans, i);
    assert HoldsContent(start, plans[i].path, plans[i].before);
    forall k | 0 <= k < i + 1 ensures HoldsContent(files, plans[k].path, plans[k].after) {
      assert k < i ==> plans[..i][k] == plans[k];
    }
  }

  lemma NotYetPlanned(plans: seq<Plan>, i: nat)
    requires i < |plans| && DistinctPaths(plans)
    ensures !IsPlanned(Changing(plans[..i]), plans[i].path)
  {
    ChangingArePlans(plans[..i]);
    var first := Changing(plans[..i]);
    forall k | 0 <= k < |first| ensures first[k].path != plans[i].path {
      var j :| 0 <= j < i && plans[..i][j] == first[k];
      assert plans[j].path != plans[i].path;
    }
  }

  lemma WrotePlan(was: Files, now: Files, start: Files, plans: seq<Plan>, i: nat)
    requires i < |plans| && CommittedTo(was, start, plans, i) && DistinctPaths(plans)
    requires plans[i].before != plans[i].after
    requires now.Keys == was.Keys && forall q :: q in was && q != plans[i].path ==> now[q] == was[q]
    ensures SameElsewhere(now, start, Changing(plans[..i + 1]))
    ensures HoldsContent(now, plans[i].path, plans[i].after) ==> CommittedTo(now, start, plans, i + 1)
  {
    ChangingOneMore(plans, i);
    var first, all := Changing(plans[..i]), Changing(plans[..i + 1]);
    forall q | q in now && !IsPlanned(all, q) ensures now[q] == start[q] {
      assert all[|first|] == plans[i];
      forall k | 0 <= k < |first| ensures first[k].path != q {
        assert all[k] == first[k];
      }
    }
    if HoldsContent(now, plans[i].path, plans[i].after) {
      forall k | 0 <= k < i + 1 ensures HoldsContent(now, plans[k].path, plans[k].after) {
        if k < i {
          assert plans[..i][k] == plans[k];
          assert HoldsContent(was, plans[k].path, plans[k].after);
        }
      }
    }
  }

  /** One changed file of a commit: written, then read back. */
  method CommitOne(fs: FileSystem, plans: seq<Plan>, i: nat, e: WriteEvent, ghost start: Files) returns (ok: bool)
    requires i < |plans| && DistinctPaths(plans) && StillBefore(start, plans)
    requires CommittedTo(fs.files, start, plans, i) && plans[i].before != plans[i].after
    modifies fs
    ensures SameElsewhere(fs.files, start, Changing(plans[..i + 1]))
    ensures ok ==> CommittedTo(fs.files, start, plans, i + 1)
    ensures ok == WriteVerified(plans[i].after, e)
  {
    ghost var was := fs.files;
    assert HoldsContent(start, plans[i].path, plans[i].before);
    ok := fs.WriteAndVerify(plans[i].path, plans[i].after, plans[i].mode, e);
    WrotePlan(was, fs.files, start, plans, i);
  }

  /** One more plan of a commit: skipped if it changes nothing, attempted otherwise. */
  method CommitNext(fs: FileSystem, plans: seq<Plan>, i: nat, attempted: seq<Plan>, e: WriteEvent, ghost start: Files)
      returns (ok: bool, more: seq<Plan>)
    requires i < |plans| && DistinctPaths(plans) && StillBefore(start, plans)
    requires CommittedTo(fs.files, start, plans, i) && attempted == Changing(plans[..i])
    modifies fs
    ensures more == Changing(plans[..i + 1]) && SameElsewhere(fs.files, start, more)
    ensures ok ==> CommittedTo(fs.files, start, plans, i + 1)
    ensures ok <==> plans[i].before == plans[i].after || WriteVerified(plans[i].after, e)
    ensures !ok ==> more != []
  {
    ChangingOneMore(plans, i);
    if plans[i].before == plans[i].after {
      SkipPlan(fs.files, start, plans, i);
      return true, attempted;
    }
    more := attempted + [plans[i]];
    ok := CommitOne(fs, plans, i, e, start);
  }

  /** The first i plans that change their file are all written well. */
  ghost predicate AllWritten(plans: seq<Plan>, events: nat -> WriteEvent, i: nat) {
    forall k: nat :: k < i && k < |plans| && plans[k].before != plans[k].after ==> WriteVerified(plans[k].after, events(k))
  }

  /** Write the changed files in order until one fails; attempted includes the failing one. */
  method Commit(fs: FileSystem, plans: seq<Plan>, events: nat -> WriteEvent) returns (ok: bool, attempted: seq<Plan>)
    requires DistinctPaths(plans) && StillBefore(fs.files, plans)
    modifies fs
    ensures DistinctPaths(attempted) && SameElsewhere(fs.files, old(fs.files), attempted)
    ensures forall k :: 0 <= k < |attempted| ==> attempted[k] in plans
    ensures ok ==> CommittedTo(fs.files, old(fs.files), plans, |plans|)
    ensures ok <==> AllWritten(plans, events, |plans|)
    ensures !ok ==> attempted != []
  {
    ghost var start := fs.files;
    ok, attempted := true, [];
    var i := 0;
    NothingCommitted(start, plans);
    while i < |plans| && ok
      invariant 0 <= i <= |plans|
      invariant attempted == Changing(plans[..i]) && SameElsewhere(fs.files, start, attempted)
      invariant ok ==> CommittedTo(fs.files, start, plans, i)
      invariant (ok <==> AllWritten(plans, events, i)) && (!ok ==> attempted != [])
    {
      ok, attempted := CommitNext(fs, plans, i, attempted, events(i), start);
      i := i + 1;
    }
    AttemptedArePlans(plans, i);
  }

  lemma AttemptedArePlans(plans: seq<Plan>, i: nat)
    requires i <= |plans| && DistinctPaths(plans)
    ensures DistinctPaths(Changing(plans[..i]))
    ensures forall k :: 0 <= k < |Changing(plans[..i])| ==> Changing(plans[..i])[k] in plans
  {
    assert DistinctPaths(plans[..i]);
    ChangingArePlans(plans[..i]);
    forall k | 0 <= k < |Changing(plans[..i])| ensures Changing(plans[..i])[k] in plans {
      assert Changing(plans[..i])[k] in plans[..i];
    }
  }

  // ----- the whole batch -----

  /** Every changed file was put back: what differs at all is permissions that somebody else
      changed while the batch was planned. */
  ghost predicate Restored(files: Files, before: Files) {
    && files.Keys == before.Keys
    && forall q :: q in files ==>
         files[q] == before[q] || (files[q].File? && before[q].File? && files[q].content == before[q].content)
  }

  lemma BackIsRestored(files: Files, before: Files, plans: seq<Plan>, attempted: seq<Plan>)
    requires SameElsewhere(files, before, attempted) && AllBack(files, attempted)
    requires StillBefore(before, plans) && forall k :: 0 <= k < |attempted| ==> attempted[k] in plans
    ensures Restored(files, before)
    ensures AllBack(before, plans) ==> files == before
  {
    forall q | q in files
      ensures files[q] == before[q] || (files[q].File? && before[q].File? && files[q].content == before[q].content)
      ensures AllBack(before, plans) ==> files[q] == before[q]
    {
      if IsPlanned(attempted, q) {
        var k :| 0 <= k < |attempted| && attempted[k].path == q;
        var j :| 0 <= j < |plans| && plans[j] == attempted[k];
        assert HoldsContent(before, plans[j].path, plans[j].before);
      }
    }
  }

  /** What a successful batch leaves: every planned file holds its planned bytes, and nothing
      outside the plans differs. */
  ghost predicate Committed(files: Files, before: Files, plans: seq<Plan>) {
    AllAfter(files, plans) && SameElsewhere(files, before, plans)
  }

  lemma CommittedAtEnd(files: Files, before: Files, plans: seq<Plan>)
    requires CommittedTo(files, before, plans, |plans|)
    ensures Committed(files, before, plans)
  {
    assert plans[..|plans|] == plans;
    ChangingArePlans(plans);
    forall q | q in files && !IsPlanned(plans, q) ensures files[q] == before[q] {
      forall k | 0 <= k < |Changing(plans)| ensures Changing(plans)[k].path != q {
        assert Changing(plans)[k] in plans;
      }
    }
  }

  lemma SubsetElsewhere(files: Files, before: Files, plans: seq<Plan>, attempted: seq<Plan>)
    requires SameElsewhere(files, before, attempted) && forall k :: 0 <= k < |attempted| ==> attempted[k] in plans
    ensures SameElsewhere(files, before, plans)
  {
    forall q | q in files && !IsPlanned(plans, q) ensures files[q] == before[q] {
      forall k | 0 <= k < |attempted| ensures attempted[k].path != q {
        assert attempted[k] in plans;
      }
    }
  }

  /** Write all planned files or put them all back. */
  method CommitOrRollBack(fs: FileSystem, plans: seq<Plan>, writes: nat -> WriteEvent, undos: nat -> WriteEvent)
      returns (committed: bool, rolledBack: bool)
    requires DistinctPaths(plans) && StillBefore(fs.files, plans)
    modifies fs
    ensures committed ==> Committed(fs.files, old(fs.files), plans)
    ensures !committed && rolledBack ==> Restored(fs.files, old(fs.files))
    ensures !committed && rolledBack && AllBack(old(fs.files), plans) ==> fs.files == old(fs.files)
    ensures SameElsewhere(fs.files, old(fs.files), plans)
    ensures committed <==> AllWritten(plans, writes, |plans|)
    ensures (forall k: nat :: undos(k).Done?) ==> committed || rolledBack
  {
    ghost var start := fs.files;
    var attempted;
    committed, attempted := Commit(fs, plans, writes);
    rolledBack := false;
    if committed {
      CommittedAtEnd(fs.files, start, plans);
      return;
    }
    AttemptedExist(start, fs.files, plans, attempted);
    ghost var failed := fs.files;
    rolledBack := Rollback(fs, attempted, undos);
    ElsewhereTwice(fs.files, failed, start, attempted);
    SubsetElsewhere(fs.files, start, plans, attempted);
    if rolledBack {
      BackIsRestored(fs.files, start, plans, attempted);
    }
  }

  lemma AttemptedExist(start: Files, files: Files, plans: seq<Plan>, attempted: seq<Plan>)
    requires StillBefore(start, plans) && files.Keys == start.Keys
    requires forall k :: 0 <= k < |attempted| ==> attempted[k] in plans
    ensures forall k :: 0 <= k < |attempted| ==> attempted[k].path in files
  {
    forall k | 0 <= k < |attempted| ensures attempted[k].path in files {
      var j :| 0 <= j < |plans| && plans[j] == attempted[k];
      assert HoldsContent(start, plans[j].path, plans[j].before);
    }
  }

  lemma ElsewhereTwice(a: Files, b: Files, c: Files, plans: seq<Plan>)
    requires SameElsewhere(a, b, plans) && SameElsewhere(b, c, plans)
    ensures SameElsewhere(a, c, plans)
  {
  }

  /** What rules do to a text, and how many replacements they make, with no budget in sight. */
  function Transformed(engine: Engine, rules: seq<Rule>, text: Text, newline: Newline): (Text, nat) {
    if rules == [] then (text, 0)
    else
      var last := rules[|rules| - 1];
      var sofar := Transformed(engine, rules[..|rules| - 1], text, newline);
      if WellTyped(last) then (Replaced(engine, last, sofar.0, newline), sofar.1 + Wanted(engine, last, sofar.0)) else sofar
  }

  /** The budget decides whether the rules are applied, never what they give. */
  lemma {:induction false} AppliedIsTransformed(engine: Engine, rules: seq<Rule>, text: Text, newline: Newline,
          budget: nat)
    requires ApplyRules(engine, rules, text, newline, budget).Applied?
    ensures var r := ApplyRules(engine, rules, text, newline, budget);
      (r.text, r.replacements) == Transformed(engine, rules, text, newline)
    decreases |rules|
  {
    if rules != [] {
      AppliedIsTransformed(engine, rules[..|rules| - 1], text, newline, budget);
    }
  }

  /** The plan is what the request says about one file: its revision was the expected one, and
      its new bytes encode the decoded text transformed by all its rules in order. */
  ghost predicate PlanIsRight(codec: Codec, engine: Engine, operations: seq<Operation>, plan: Plan) {
    exists i :: 0 <= i < |operations| && operations[i].path == plan.path
      && (operations[i].expected.None? || operations[i].expected.value == plan.before)
      && TransformsTo(codec, engine, RulesFor(operations, plan.path), operations[i].encoding, plan)
  }

  ghost predicate TransformsTo(codec: Codec, engine: Engine, rules: seq<Rule>, encoding: Option<string>, plan: Plan) {
    var decoded := codec.decode(plan.before, encoding);
    && decoded.Some?
    && var after := Transformed(engine, rules, decoded.value.text, decoded.value.newline);
    codec.encode(decoded.value, after.0) == Some(plan.after) && plan.replacements == after.1
  }

  lemma PlanFileIsRight(codec: Codec, engine: Engine, files: Files, path: Path, entry: Entry, budget: nat)
    requires PlanFile(codec, engine, files, path, entry, budget).Ready?
    ensures var plan := PlanFile(codec, engine, files, path, entry, budget).plan;
      && TransformsTo(codec, engine, entry.rules, entry.encoding, plan)
      && (entry.expected.None? || entry.expected.value == plan.before)
  {
    var decoded := codec.decode(files[path].content, entry.encoding);
    AppliedIsTransformed(engine, entry.rules, decoded.value.text, decoded.value.newline, budget);
  }

  /** The request is answered for exactly its paths, each as it says. */
  ghost predicate PlansAreRight(codec: Codec, engine: Engine, operations: seq<Operation>, plans: seq<Plan>) {
    && DistinctPaths(plans)
    && (forall p :: IsPlanned(plans, p) <==> Mentions(operations, p))
    && (forall k :: 0 <= k < |plans| ==> PlanIsRight(codec, engine, operations, plans[k]))
  }

  lemma {:induction false} PlanAllIsRight(codec: Codec, engine: Engine, files: Files, paths: seq<Path>,
          entries: map<Path, Entry>, limit: nat, k: nat)
    requires forall k :: 0 <= k < |paths| ==> paths[k] in entries
    requires PlanAll(codec, engine, files, paths, entries, limit).AllReady? && k < |paths|
    ensures var plan := PlanAll(codec, engine, files, paths, entries, limit).plans[k];
      && plan.path == paths[k]
      && TransformsTo(codec, engine, entries[paths[k]].rules, entries[paths[k]].encoding, plan)
      && (entries[paths[k]].expected.None? || entries[paths[k]].expected.value == plan.before)
    decreases |paths|
  {
    var n := |paths| - 1;
    if k < n {
      PlanAllIsRight(codec, engine, files, paths[..n], entries, limit, k);
    } else {
      var sofar := PlanAll(codec, engine, files, paths[..n], entries, limit);
      PlanFileIsRight(codec, engine, files, paths[n], entries[paths[n]], limit - sofar.total);
    }
  }

  lemma PlansFollowRequest(codec: Codec, engine: Engine, files: Files, operations: seq<Operation>,
          grouped: map<Path, Entry>, paths: seq<Path>, limit: nat)
    requires IsGrouping(operations, grouped) && Ascending(paths) && (forall p :: p in paths <==> p in grouped)
    requires forall k :: 0 <= k < |paths| ==> paths[k] in grouped
    requires PlanAll(codec, engine, files, paths, grouped, limit).AllReady?
    ensures PlansAreRight(codec, engine, operations, PlanAll(codec, engine, files, paths, grouped, limit).plans)
  {
    var plans := PlanAll(codec, engine, files, paths, grouped, limit).plans;
    PlansCoverPaths(codec, engine, files, paths, grouped, limit);
    forall p ensures IsPlanned(plans, p) <==> Mentions(operations, p) {
      PathsAreMentioned(operations, grouped, paths, p);
      if p in paths {
        var k :| 0 <= k < |paths| && paths[k] == p;
        assert plans[k].path == p;
      }
    }
    forall k | 0 <= k < |plans| ensures PlanIsRight(codec, engine, operations, plans[k]) {
      PlanAllIsRight(codec, engine, files, paths, grouped, limit, k);
      assert Mentions(operations, paths[k]);
      var i :| 0 <= i < |operations| && operations[i].path == paths[k];
      assert IsGrouped(operations[i], grouped);
    }
  }

  lemma PathsAreMentioned(operations: seq<Operation>, grouped: map<Path, Entry>, paths: seq<Path>, p: Path)
    requires IsGrouping(operations, grouped) && (forall p :: p in paths <==> p in grouped)
    ensures p in paths <==> Mentions(operations, p)
  {
    if Mentions(operations, p) {
      var i :| 0 <= i < |operations| && operations[i].path == p;
      assert IsGrouped(operations[i], grouped);
    }
  }

  // ----- what the request needs of the limit -----

  /** What the request says about one path. */
  function EntryFor(operations: seq<Operation>, path: Path): Entry {
    if operations == [] then Entry([], None, None)
    else
      var last := operations[|operations| - 1];
      if last.path == path then Entry(RulesFor(operations, path), last.expected, last.encoding)
      else EntryFor(operations[..|operations| - 1], path)
  }

  lemma {:induction false} EntryIsGrouped(operations: seq<Operation>, grouped: map<Path, Entry>, path: Path, n: nat)
    requires IsGrouping(operations, grouped) && n <= |operations| && Mentions(operations[..n], path)
    ensures path in grouped
    ensures EntryFor(operations[..n], path) == grouped[path].(rules := RulesFor(operations[..n], path))
  {
    var last := operations[n - 1];
    assert operations[..n][..n - 1] == operations[..n - 1];
    assert IsGrouped(last, grouped);
    if last.path != path {
      StillMentioned(operations, n, path);
      EntryIsGrouped(operations, grouped, path, n - 1);
    }
  }

  lemma StillMentioned(operations: seq<Operation>, n: nat, path: Path)
    requires 0 < n <= |operations| && Mentions(operations[..n], path) && operations[n - 1].path != path
    ensures Mentions(operations[..n - 1], path)
  {
    var i :| 0 <= i < n && operations[..n][i].path == path;
    assert operations[..n - 1][i].path == path;
  }

  lemma EntryOf(operations: seq<Operation>, grouped: map<Path, Entry>, path: Path)
    requires IsGrouping(operations, grouped) && Mentions(operations, path)
    ensures path in grouped && grouped[path] == EntryFor(operations, path)
  {
    assert operations[..|operations|] == operations;
    EntryIsGrouped(operations, grouped, path, |operations|);
  }

  /** The replacements that the rules of one path make in its file, whatever the limit. */
  function NeedOf(codec: Codec, engine: Engine, files: Files, operations: seq<Operation>, path: Path): nat {
    if path in files && files[path].File? then
      var entry := EntryFor(operations, path);
      var decoded := codec.decode(files[path].content, entry.encoding);
      if decoded.Some? then Transformed(engine, entry.rules, decoded.value.text, decoded.value.newline).1 else 0
    else 0
  }

  /** What the paths of the request before this one need together. */
  ghost function NeedBelow(codec: Codec, engine: Engine, files: Files, operations: seq<Operation>, path: Path): nat {
    if path == 0 then 0
    else
      NeedBelow(codec, engine, files, operations, path - 1)
      + if Mentions(operations, path - 1) then NeedOf(codec, engine, files, operations, path - 1) else 0
  }

  /** The first number beyond all paths of the request. */
  function Beyond(operations: seq<Operation>): (n: Path)
    ensures forall i :: 0 <= i < |operations| ==> operations[i].path < n
  {
    if operations == [] then 0
    else
      var n, last := Beyond(operations[..|operations| - 1]), operations[|operations| - 1].path + 1;
      assert forall i :: 0 <= i < |operations| - 1 ==> operations[..|operations| - 1][i] == operations[i];
      if n < last then last else n
  }

  lemma {:induction false} NeedGrows(codec: Codec, engine: Engine, files: Files, operations: seq<Operation>, p: Path, q: Path)
    requires p <= q
    ensures NeedBelow(codec, engine, files, operations, p) <= NeedBelow(codec, engine, files, operations, q)
    decreases q
  {
    if p < q {
      NeedGrows(codec, engine, files, operations, p, q - 1);
    }
  }

  lemma ReadyTakesItsNeed(codec: Codec, engine: Engine, files: Files, operations: seq<Operation>, path: Path, budget: nat)
    requires PlanFile(codec, engine, files, path, EntryFor(operations, path), budget).Ready?
    ensures PlanFile(codec, engine, files, path, EntryFor(operations, path), budget).plan.replacements
      == NeedOf(codec, engine, files, operations, path)
  {
    PlanFileIsRight(codec, engine, files, path, EntryFor(operations, path), budget);
  }

  /** The paths of the request, in order. */
  ghost predicate PathsOf(operations: seq<Operation>, grouped: map<Path, Entry>, paths: seq<Path>) {
    && IsGrouping(operations, grouped) && Ascending(paths)
    && (forall p :: p in paths <==> p in grouped)
    && forall k :: 0 <= k < |paths| ==> paths[k] in grouped
  }

  function NeedOfAll(codec: Codec, engine: Engine, files: Files, operations: seq<Operation>, paths: seq<Path>): nat {
    if paths == [] then 0
    else
      NeedOfAll(codec, engine, files, operations, paths[..|paths| - 1])
      + NeedOf(codec, engine, files, operations, paths[|paths| - 1])
  }

  /** Planned files took what they need. */
  lemma {:induction false} PlannedTakesNeed(codec: Codec, engine: Engine, files: Files, operations: seq<Operation>,
          entries: map<Path, Entry>, paths: seq<Path>, limit: nat)
    requires forall k :: 0 <= k < |paths| ==> paths[k] in entries && entries[paths[k]] == EntryFor(operations, paths[k])
    requires PlanAll(codec, engine, files, paths, entries, limit).AllReady?
    ensures PlanAll(codec, engine, files, paths, entries, limit).total == NeedOfAll(codec, engine, files, operations, paths)
    decreases |paths|
  {
    if paths != [] {
      var n := |paths| - 1;
      PlannedTakesNeed(codec, engine, files, operations, entries, paths[..n], limit);
      ReadyTakesItsNeed(codec, engine, files, operations, paths[n],
                        limit - PlanAll(codec, engine, files, paths[..n], entries, limit).total);
    }
  }

  /** These are the paths of the request below p. */
  ghost predicate ListsBelow(operations: seq<Operation>, paths: seq<Path>, p: Path) {
    Ascending(paths) && forall q: Path :: q in paths <==> q < p && Mentions(operations, q)
  }

  lemma {:induction false} NeedOfAllBelow(codec: Codec, engine: Engine, files: Files, operations: seq<Operation>,
          paths: seq<Path>, p: Path)
    requires ListsBelow(operations, paths, p)
    ensures NeedOfAll(codec, engine, files, operations, paths) == NeedBelow(codec, engine, files, operations, p)
    decreases p
  {
    if p == 0 {
      forall k | 0 <= k < |paths| ensures paths[k] in paths {
      }
    } else {
      var rest := BelowOneLess(operations, paths, p);
      NeedOfAllBelow(codec, engine, files, operations, rest, p - 1);
      NeedOfOneMore(codec, engine, files, operations, rest, p - 1);
    }
  }

  lemma NeedOfOneMore(codec: Codec, engine: Engine, files: Files, operations: seq<Operation>, paths: seq<Path>, p: Path)
    ensures NeedOfAll(codec, engine, files, operations, paths + [p])
      == NeedOfAll(codec, engine, files, operations, paths) + NeedOf(codec, engine, files, operations, p)
  {
    assert (paths + [p])[..|paths|] == paths;
  }

  lemma BelowOneLess(operations: seq<Operation>, paths: seq<Path>, p: Path) returns (rest: seq<Path>)
    requires p > 0 && ListsBelow(operations, paths, p)
    ensures ListsBelow(operations, rest, p - 1)
    ensures if Mentions(operations, p - 1) then paths == rest + [p - 1] else paths == rest
  {
    rest := paths;
    if Mentions(operations, p - 1) {
      var n := |paths| - 1;
      var k :| 0 <= k <= n && paths[k] == p - 1;
      assert paths[n] in paths;
      assert k == n;
      rest := paths[..n];
      forall q: Path ensures q in rest <==> q in paths && q != p - 1 {
        if q in paths && q != p - 1 {
          var j :| 0 <= j <= n && paths[j] == q;
          assert rest[j] == q;
        }
      }
    }
  }

  lemma FirstPathsBelow(operations: seq<Operation>, grouped: map<Path, Entry>, paths: seq<Path>, n: nat, p: Path)
    requires PathsOf(operations, grouped, paths) && n <= |paths|
    requires forall k :: 0 <= k < |paths| ==> (paths[k] < p <==> k < n)
    ensures ListsBelow(operations, paths[..n], p)
  {
    forall q: Path ensures q in paths[..n] <==> q < p && Mentions(operations, q) {
      PathsAreMentioned(operations, grouped, paths, q);
      if q in paths {
        var k :| 0 <= k < |paths| && paths[k] == q;
        assert k < n ==> paths[..n][k] == q;
      }
    }
  }

  lemma EntriesOf(operations: seq<Operation>, grouped: map<Path, Entry>, paths: seq<Path>)
    requires PathsOf(operations, grouped, paths)
    ensures forall k :: 0 <= k < |paths| ==>
      Mentions(operations, paths[k]) && paths[k] in grouped && grouped[paths[k]] == EntryFor(operations, paths[k])
  {
    forall k | 0 <= k < |paths|
      ensures Mentions(operations, paths[k]) && paths[k] in grouped && grouped[paths[k]] == EntryFor(operations, paths[k])
    {
      assert paths[k] in grouped;
      EntryOf(operations, grouped, paths[k]);
    }
  }

  /** What the first n paths took is what the paths up to there need. */
  lemma TakenIsNeeded(codec: Codec, engine: Engine, files: Files, operations: seq<Operation>,
          grouped: map<Path, Entry>, paths: seq<Path>, limit: nat, n: nat, p: Path)
    requires PathsOf(operations, grouped, paths) && n <= |paths|
    requires PlanAll(codec, engine, files, paths[..n], grouped, limit).AllReady?
    requires forall k :: 0 <= k < |paths| ==> (paths[k] < p <==> k < n)
    ensures PlanAll(codec, engine, files, paths[..n], grouped, limit).total
      == NeedBelow(codec, engine, files, operations, p)
  {
    EntriesOf(operations, grouped, paths);
    PlannedTakesNeed(codec, engine, files, operations, grouped, paths[..n], limit);
    FirstPathsBelow(operations, grouped, paths, n, p);
    NeedOfAllBelow(codec, engine, files, operations, paths[..n], p);
  }

  /** Planning stopped at this path: the paths before it took what they need, and with what is
      left of the limit the file of this path cannot be planned. */
  ghost predicate StopsAtPath(codec: Codec, engine: Engine, files: Files, operations: seq<Operation>, limit: nat,
          why: Refusal, path: Path) {
    && Mentions(operations, path)
    && NeedBelow(codec, engine, files, operations, path) <= limit
    && PlanFile(codec, engine, files, path, EntryFor(operations, path),
                limit - NeedBelow(codec, engine, files, operations, path)) == Failed(why)
  }

  /** Why planning stopped: what is wrong with one file of the request when its turn comes. */
  ghost predicate RefusalIsRight(codec: Codec, engine: Engine, files: Files, operations: seq<Operation>,
          limit: nat, why: Refusal) {
    exists path: Path :: StopsAtPath(codec, engine, files, operations, limit, why, path)
  }

  /** Planning stops at the first path that cannot be planned. */
  lemma {:induction false} FirstFailure(codec: Codec, engine: Engine, files: Files, paths: seq<Path>,
          entries: map<Path, Entry>, limit: nat)
      returns (k: nat)
    requires forall k :: 0 <= k < |paths| ==> paths[k] in entries
    requires PlanAll(codec, engine, files, paths, entries, limit).SomeFailed?
    ensures k < |paths| && PlanAll(codec, engine, files, paths[..k], entries, limit).AllReady?
    ensures PlanAll(codec, engine, files, paths[..k + 1], entries, limit) == PlanAll(codec, engine, files, paths, entries, limit)
    decreases |paths|
  {
    var n := |paths| - 1;
    assert paths[..n + 1] == paths;
    if PlanAll(codec, engine, files, paths[..n], entries, limit).AllReady? {
      k := n;
    } else {
      k := FirstFailure(codec, engine, files, paths[..n], entries, limit);
      assert paths[..n][..k] == paths[..k] && paths[..n][..k + 1] == paths[..k + 1];
      FailsAt(codec, engine, files, paths, n, entries, limit);
    }
  }

  /** The file that stops planning, after the paths before it were planned. */
  lemma FailingFile(codec: Codec, engine: Engine, files: Files, paths: seq<Path>, entries: map<Path, Entry>,
          limit: nat, r: PlannedAll)
      returns (k: nat, sofar: PlannedAll)
    requires forall k :: 0 <= k < |paths| ==> paths[k] in entries
    requires r == PlanAll(codec, engine, files, paths, entries, limit) && r.SomeFailed?
    ensures k < |paths| && sofar == PlanAll(codec, engine, files, paths[..k], entries, limit) && sofar.AllReady?
    ensures PlanFile(codec, engine, files, paths[k], entries[paths[k]], limit - sofar.total) == Failed(r.why)
  {
    k := FirstFailure(codec, engine, files, paths, entries, limit);
    sofar := PlanAll(codec, engine, files, paths[..k], entries, limit);
    PlanOneMore(codec, engine, files, paths, k, entries, limit, sofar,
                PlanFile(codec, engine, files, paths[k], entries[paths[k]], limit - sofar.total));
  }

  /** The path where planning stops, with what is left of the limit for it. */
  lemma StoppingPath(codec: Codec, engine: Engine, files: Files, operations: seq<Operation>,
          grouped: map<Path, Entry>, paths: seq<Path>, limit: nat, k: nat, sofar: PlannedAll, why: Refusal)
    requires PathsOf(operations, grouped, paths) && k < |paths|
    requires sofar == PlanAll(codec, engine, files, paths[..k], grouped, limit) && sofar.AllReady?
    requires PlanFile(codec, engine, files, paths[k], grouped[paths[k]], limit - sofar.total) == Failed(why)
    ensures RefusalIsRight(codec, engine, files, operations, limit, why)
  {
    NeedAt(codec, engine, files, operations, grouped, paths, limit, k);
    StopsThere(codec, engine, files, operations, limit, why, paths[k], sofar.total);
  }

  lemma FailureIsRight(codec: Codec, engine: Engine, files: Files, operations: seq<Operation>,
          grouped: map<Path, Entry>, paths: seq<Path>, limit: nat, r: PlannedAll)
    requires PathsOf(operations, grouped, paths)
    requires r == PlanAll(codec, engine, files, paths, grouped, limit) && r.SomeFailed?
    ensures RefusalIsRight(codec, engine, files, operations, limit, r.why)
  {
    var k, sofar := FailingFile(codec, engine, files, paths, grouped, limit, r);
    StoppingPath(codec, engine, files, operations, grouped, paths, limit, k, sofar, r.why);
  }

  lemma NeedAt(codec: Codec, engine: Engine, files: Files, operations: seq<Operation>,
          grouped: map<Path, Entry>, paths: seq<Path>, limit: nat, k: nat)
    requires PathsOf(operations, grouped, paths) && k < |paths|
    requires PlanAll(codec, engine, files, paths[..k], grouped, limit).AllReady?
    ensures Mentions(operations, paths[k]) && grouped[paths[k]] == EntryFor(operations, paths[k])
    ensures PlanAll(codec, engine, files, paths[..k], grouped, limit).total
      == NeedBelow(codec, engine, files, operations, paths[k])
  {
    EntriesOf(operations, grouped, paths);
    TakenIsNeeded(codec, engine, files, operations, grouped, paths, limit, k, paths[k]);
  }

  lemma StopsThere(codec: Codec, engine: Engine, files: Files, operations: seq<Operation>, limit: nat, why: Refusal,
          path: Path, taken: nat)
    requires Mentions(operations, path) && taken == NeedBelow(codec, engine, files, operations, path) && taken <= limit
    requires PlanFile(codec, engine, files, path, EntryFor(operations, path), limit - taken) == Failed(why)
    ensures RefusalIsRight(codec, engine, files, operations, limit, why)
  {
    assert StopsAtPath(codec, engine, files, operations, limit, why, path);
  }

  /** A planned request takes what its paths need. */
  lemma TotalIsNeed(codec: Codec, engine: Engine, files: Files, operations: seq<Operation>,
          grouped: map<Path, Entry>, paths: seq<Path>, limit: nat)
    requires PathsOf(operations, grouped, paths)
    requires PlanAll(codec, engine, files, paths, grouped, limit).AllReady?
    ensures PlanAll(codec, engine, files, paths, grouped, limit).total
      == NeedBelow(codec, engine, files, operations, Beyond(operations))
  {
    assert paths[..|paths|] == paths;
    forall k | 0 <= k < |paths| ensures paths[k] < Beyond(operations) {
      assert paths[k] in paths;
      PathsAreMentioned(operations, grouped, paths, paths[k]);
    }
    TakenIsNeeded(codec, engine, files, operations, grouped, paths, limit, |paths|, Beyond(operations));
  }

  lemma {:induction false} CountsGrow(engine: Engine, rules: seq<Rule>, n: nat, text: Text, newline: Newline)
    requires n <= |rules|
    ensures Transformed(engine, rules[..n], text, newline).1 <= Transformed(engine, rules, text, newline).1
    decreases |rules|
  {
    if n == |rules| {
      assert rules[..n] == rules;
    } else {
      var m := |rules| - 1;
      assert rules[..m][..n] == rules[..n];
      CountsGrow(engine, rules[..m], n, text, newline);
    }
  }

  predicate SaysTooMany(why: Refusal) {
    why.RuleError? && why.outcome.TooMany?
  }

  lemma TooManyForBudget(codec: Codec, engine: Engine, files: Files, operations: seq<Operation>, path: Path, budget: nat,
          why: Refusal)
    requires PlanFile(codec, engine, files, path, EntryFor(operations, path), budget) == Failed(why) && SaysTooMany(why)
    ensures NeedOf(codec, engine, files, operations, path) > budget
  {
    var entry := EntryFor(operations, path);
    var decoded := codec.decode(files[path].content, entry.encoding).value;
    StoppedMeans(engine, entry.rules, decoded.text, decoded.newline, budget);
    CountsGrow(engine, entry.rules, why.index + 1, decoded.text, decoded.newline);
  }

  /** A request is refused as too many only when its paths need more than the limit in all. */
  lemma TooManyMeansTooMany(codec: Codec, engine: Engine, files: Files, operations: seq<Operation>, limit: nat, why: Refusal)
    requires RefusalIsRight(codec, engine, files, operations, limit, why) && SaysTooMany(why)
    ensures NeedBelow(codec, engine, files, operations, Beyond(operations)) > limit
  {
    var path: Path :| StopsAtPath(codec, engine, files, operations, limit, why, path);
    TooManyForBudget(codec, engine, files, operations, path, limit - NeedBelow(codec, engine, files, operations, path), why);
    NeedGrows(codec, engine, files, operations, path + 1, Beyond(operations));
  }

  /** Rules stop for one of three reasons: a bad rule, a pattern that does not compile, or more
      replacements in all than the budget. */
  lemma {:induction false} StoppedMeans(engine: Engine, rules: seq<Rule>, text: Text, newline: Newline, budget: nat)
    requires ApplyRules(engine, rules, text, newline, budget).Stopped?
    ensures var r := ApplyRules(engine, rules, text, newline, budget);
      && (r.outcome.InvalidRule? <==> !WellTyped(rules[r.index]))
      && (r.outcome.InvalidPattern? ==> !engine.compiles(rules[r.index]))
      && (r.outcome.TooMany? ==> Transformed(engine, rules[..r.index + 1], text, newline).1 > budget)
    decreases |rules|
  {
    var n := |rules| - 1;
    var sofar := ApplyRules(engine, rules[..n], text, newline, budget);
    if sofar.Stopped? {
      StoppedMeans(engine, rules[..n], text, newline, budget);
      assert rules[..n][..sofar.index + 1] == rules[..sofar.index + 1];
    } else {
      AppliedIsTransformed(engine, rules[..n], text, newline, budget);
      assert rules[..n + 1] == rules;
    }
  }

  /** Group and plan the whole request on the files as they are. */
  method PlanRequest(codec: Codec, engine: Engine, files: Files, operations: seq<Operation>,
          limit: nat) returns (r: PlannedAll)
    ensures r.AllReady? ==> PlansAreRight(codec, engine, operations, r.plans) && r.total == Total(r.plans) <= limit
    ensures r.AllReady? ==> r.total == NeedBelow(codec, engine, files, operations, Beyond(operations))
    ensures !Agree(operations) ==> r == SomeFailed(InvalidArguments)
    ensures r.SomeFailed? && Agree(operations) ==> RefusalIsRight(codec, engine, files, operations, limit, r.why)
  {
    var grouped := Group(operations);
    if grouped.None? {
      return SomeFailed(InvalidArguments);
    }
    var paths := OrderedPaths(grouped.value);
    forall k | 0 <= k < |paths| ensures paths[k] in grouped.value {
      assert paths[k] in paths;
    }
    r := PlanFiles(codec, engine, files, paths, grouped.value, limit);
    if r.AllReady? {
      PlansCoverPaths(codec, engine, files, paths, grouped.value, limit);
      PlansFollowRequest(codec, engine, files, operations, grouped.value, paths, limit);
      TotalIsNeed(codec, engine, files, operations, grouped.value, paths, limit);
    } else {
      FailureIsRight(codec, engine, files, operations, grouped.value, paths, limit, r);
    }
  }

  /** The batch is all or nothing. On success every file of the request holds exactly what its
      rules make of the bytes it held at the recheck, and no other file differs; a dry run, a
      refusal of any kind, and a failed write that was rolled back leave the files as others left
      them; even a failed rollback touches only files of the request. The replacements never
      exceed the limit. */
  method ReplaceFiles(fs: FileSystem, operations: seq<Operation>, dryRun: bool, maxReplacements: int, codec: Codec,
                      engine: Engine, meanwhile: Files, writes: nat -> WriteEvent, undos: nat -> WriteEvent)
      returns (r: Outcome, ghost plans: seq<Plan>)
    modifies fs
    ensures r.Success? ==> r.plans == plans && r.total == Total(plans) <= maxReplacements
    ensures r.Success? ==> PlansAreRight(codec, engine, operations, plans) && StillBefore(meanwhile, plans)
    ensures r.Success? && !dryRun ==> Committed(fs.files, meanwhile, plans)
    ensures r.Success? && dryRun ==> fs.files == meanwhile
    ensures r.Refused? ==> fs.files == old(fs.files) || fs.files == meanwhile
    ensures r.WriteFailed? ==> PlansAreRight(codec, engine, operations, plans) && SameElsewhere(fs.files, meanwhile, plans)
    ensures r.WriteFailed? && r.rolledBack ==> Restored(fs.files, meanwhile)
    ensures r.WriteFailed? && r.rolledBack && AllBack(meanwhile, plans) ==> fs.files == meanwhile
    ensures r.WriteFailed? ==> !dryRun && !AllWritten(plans, writes, |plans|)
    ensures r.WriteFailed? && (forall k: nat :: undos(k).Done?) ==> r.rolledBack
    ensures r.Success? ==> r.total == NeedBelow(codec, engine, old(fs.files), operations, Beyond(operations))
    ensures r.Refused? && SaysTooMany(r.why) ==>
      NeedBelow(codec, engine, old(fs.files), operations, Beyond(operations)) > maxReplacements
    ensures r.Refused? ==>
      || (operations == [] || maxReplacements <= 0 || !Agree(operations))
      || RefusalIsRight(codec, engine, old(fs.files), operations, maxReplacements, r.why)
      || (PlansAreRight(codec, engine, operations, plans) && !StillBefore(meanwhile, plans))
  {
    plans := [];
    if operations == [] || maxReplacements <= 0 {
      return Refused(InvalidArguments), plans;
    }
    var planned := PlanRequest(codec, engine, fs.files, operations, maxReplacements);
    if planned.SomeFailed? {
      if Agree(operations) && SaysTooMany(planned.why) {
        TooManyMeansTooMany(codec, engine, fs.files, operations, maxReplacements, planned.why);
      }
      return Refused(planned.why), plans;
    }
    plans := planned.plans;
    fs.Interfere(meanwhile);
    var changed := Recheck(fs.files, planned.plans);
    if changed.Some? {
      return Refused(changed.value), plans;
    }
    if !dryRun {
      var committed, rolledBack := CommitOrRollBack(fs, planned.plans, writes, undos);
      if !committed {
        return WriteFailed(rolledBack), plans;
      }
    }
    r := Success(planned.plans, planned.total);
  }
}
