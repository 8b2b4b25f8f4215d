/** Patches with several operations: every operation is planned on the files as they are before
    the patch, and only then are the planned changes made, one after the other. A change that
    removes a path which is not there any more raises, and the changes after it are not made. */
module PatchPlan {
  import opened Bytes
  import opened Options
  import opened PatchParser
  import opened PatchHunks
  import opened PatchText
  import Utf8Units

  const NUL_WINDOW := 1024

  /** Paths are numbers; different ones stand for different files, none below another. */
  type Path = nat

  /** A file with the text it decodes to, and whether a NUL among its first bytes makes it binary. */
  datatype Node = File(text: string, binary: bool) | Folder

  type Files = map<Path, Node>

  datatype Request =
    | Add(path: Path, lines: seq<string>)
    | Delete(path: Path)
    | Update(path: Path, moveTo: Option<Path>, hunks: seq<UpdateHunk>)

  datatype Change = Remove(path: Path) | Write(path: Path, text: string, previous: Option<Path>)

  function Encoded(text: string): seq<byte> {
    Utf8Units.EncodeAll(seq(|text|, k requires 0 <= k < |text| => text[k] as int))
  }

  predicate IsBinary(raw: seq<byte>) {
    0 in raw[..if |raw| < NUL_WINDOW then |raw| else NUL_WINDOW]
  }

  /** The file that writing a text leaves. */
  function Written(text: string): Node {
    File(text, IsBinary(Encoded(text)))
  }

  datatype Refusal = PathExists | FileNotFound | NotAFile | NotText | HunkRefused | TargetExists

  datatype Planned = Ready(change: Change) | Cannot(why: Refusal)

  /** The lines that the hunks lead to, if they all apply. */
  ghost function HunksResult(lines: seq<string>, hunks: seq<UpdateHunk>): Option<seq<string>> {
    if after: seq<string> :| Reaches(lines, hunks, after) then Some(after) else None
  }

  /** The result of the hunks is what applying them gives, or none if one of them sticks. */
  lemma HunksResultIs(lines: seq<string>, hunks: seq<UpdateHunk>, r: Updated)
    requires r.Updated? ==> Reaches(lines, hunks, r.lines)
    requires r.Refused? ==> r.hunk < |hunks| && SticksAt(lines, hunks, r.hunk)
    ensures HunksResult(lines, hunks) == if r.Updated? then Some(r.lines) else None
  {
    var result := HunksResult(lines, hunks);
    if r.Updated? {
      ReachesIsUnique(lines, hunks, r.lines, result.value);
    } else {
      forall after: seq<string> ensures !Reaches(lines, hunks, after) {
        StuckReachesNothing(lines, hunks, r.hunk, after);
      }
    }
  }

  ghost function PlanRequest(files: Files, q: Request): Planned {
    match q
    case Add(path, lines) =>
      if path in files then Cannot(PathExists) else Ready(Write(path, JoinLines(lines, lines != []), None))
    case Delete(path) =>
      if path !in files then Cannot(FileNotFound)
      else if files[path].Folder? then Cannot(NotAFile)
      else if files[path].binary then Cannot(NotText)
      else Ready(Remove(path))
    case Update(path, moveTo, hunks) =>
      if path !in files then Cannot(FileNotFound)
      else if files[path].Folder? then Cannot(NotAFile)
      else if files[path].binary then Cannot(NotText)
      else
        var after := HunksResult(SplitLines(files[path].text), hunks);
        if after.None? then Cannot(HunkRefused)
        else if moveTo.Some? && moveTo.value in files && moveTo.value != path then Cannot(TargetExists)
        else
          var text := UpdatedText(files[path].text, after.value);
          if moveTo.Some? && moveTo.value != path then Ready(Write(moveTo.value, text, Some(path)))
          else Ready(Write(path, text, None))
  }

  /** The path a change removes, and the path it writes. */
  function RemovedPath(c: Change): Option<Path> {
    match c
    case Remove(path) => Some(path)
    case Write(path, _, previous) => if previous.Some? && previous.value != path then previous else None
  }

  function WrittenPath(c: Change): Option<Path> {
    if c.Write? then Some(c.path) else None
  }

  /** Making a change raises unless the file it removes is there. */
  predicate CanMake(files: Files, c: Change) {
    RemovedPath(c).Some? ==> RemovedPath(c).value in files && files[RemovedPath(c).value].File?
  }

  /** What a change leaves, whether or not its removal raises: a move writes before it removes. */
  function Made(files: Files, c: Change): Files {
    var written := if c.Write? then files[c.path := Written(c.text)] else files;
    if RemovedPath(c).Some? && CanMake(files, c) then written - {RemovedPath(c).value} else written
  }

  predicate RemovesNoFolder(files: Files, c: Change) {
    RemovedPath(c).Some? && RemovedPath(c).value in files ==> files[RemovedPath(c).value].File?
  }

  /** All operations planned on the same files. */
  ghost function PlanAll(files: Files, requests: seq<Request>): Option<seq<Change>> {
    if requests == [] then Some([])
    else
      var first, rest := PlanRequest(files, requests[0]), PlanAll(files, requests[1..]);
      if first.Ready? && rest.Some? then Some([first.change] + rest.value) else None
  }

  /** The changes made in order up to the first one that raises, and whether none does. */
  function MakeAll(files: Files, changes: seq<Change>): (Files, bool)
    decreases |changes|
  {
    if changes == [] then (files, true)
    else if !CanMake(files, changes[0]) then (Made(files, changes[0]), false)
    else MakeAll(Made(files, changes[0]), changes[1..])
  }

  datatype Outcome = Rejected | Done | Raised

  ghost function ApplyPatch(files: Files, requests: seq<Request>, apply: bool): (Files, Outcome) {
    var changes := PlanAll(files, requests);
    if changes.None? then (files, Rejected)
    else if !apply then (files, Done)
    else
      var r := MakeAll(files, changes.value);
      (r.0, if r.1 then Done else Raised)
  }

  /** What a reader of a patch expects: each operation sees what the ones before it did. */
  ghost function OneByOne(files: Files, requests: seq<Request>): Option<Files>
    decreases |requests|
  {
    if requests == [] then Some(files)
    else
      var first := PlanRequest(files, requests[0]);
      if first.Cannot? then None else OneByOne(Made(files, first.change), requests[1..])
  }

  function Touched(q: Request): set<Path> {
    {q.path} + if q.Update? && q.moveTo.Some? then {q.moveTo.value} else {}
  }

  /** No two operations of the patch touch the same path. */
  ghost predicate Separate(requests: seq<Request>) {
    forall i, j :: 0 <= i < j < |requests| ==> Touched(requests[i]) !! Touched(requests[j])
  }

  ghost predicate AgreeOn(a: Files, b: Files, paths: set<Path>) {
    forall p :: p in paths ==> (p in a <==> p in b) && (p in a ==> a[p] == b[p])
  }

  /** A plan depends only on the files the operation touches, and its change alters no others. */
  lemma PlanIsLocal(a: Files, b: Files, q: Request)
    requires AgreeOn(a, b, Touched(q))
    ensures PlanRequest(a, q) == PlanRequest(b, q)
    ensures PlanRequest(a, q).Ready? ==>
      forall p :: p !in Touched(q) ==>
        var made := Made(b, PlanRequest(a, q).change); (p in made <==> p in b) && (p in made ==> made[p] == b[p])
  {
  }

  lemma {:induction false} PlansUnchanged(a: Files, b: Files, requests: seq<Request>)
    requires forall k :: 0 <= k < |requests| ==> AgreeOn(a, b, Touched(requests[k]))
    ensures PlanAll(a, requests) == PlanAll(b, requests)
    decreases |requests|
  {
    if requests != [] {
      PlanIsLocal(a, b, requests[0]);
      PlansUnchanged(a, b, requests[1..]);
    }
  }

  /** The path an operation removes if it is planned, and the path it writes. */
  function RemovedBy(q: Request): Option<Path> {
    match q
    case Add(_, _) => None
    case Delete(path) => Some(path)
    case Update(path, moveTo, _) => if moveTo.Some? && moveTo.value != path then Some(path) else None
  }

  function WrittenBy(q: Request): Option<Path> {
    match q
    case Add(path, _) => Some(path)
    case Delete(_) => None
    case Update(path, moveTo, _) => if moveTo.Some? then moveTo else Some(path)
  }

  predicate Touches(q: Request, p: Path) {
    RemovedBy(q) == Some(p) || WrittenBy(q) == Some(p)
  }

  /** A planned operation removes and writes what its text says, and could be made at once. */
  lemma PlannedPaths(files: Files, q: Request, c: Change)
    requires PlanRequest(files, q) == Ready(c)
    ensures RemovedPath(c) == RemovedBy(q) && WrittenPath(c) == WrittenBy(q) && CanMake(files, c)
  {
  }

  /** Separate operations are applied as if one after the other, each seeing what the ones
      before it did: both ways succeed on the same patches and leave the same files. */
  lemma {:induction false} SeparateIsOneByOne(files: Files, requests: seq<Request>)
    requires Separate(requests)
    ensures OneByOne(files, requests).Some? <==> ApplyPatch(files, requests, true).1.Done?
    ensures OneByOne(files, requests).Some? ==> OneByOne(files, requests).value == ApplyPatch(files, requests, true).0
    ensures !ApplyPatch(files, requests, true).1.Raised?
    decreases |requests|
  {
    if requests != [] {
      var first := PlanRequest(files, requests[0]);
      if first.Ready? {
        var next := Made(files, first.change);
        PlannedPaths(files, requests[0], first.change);
        PlanIsLocal(files, files, requests[0]);
        forall k | 0 <= k < |requests| - 1 ensures AgreeOn(files, next, Touched(requests[1..][k])) {
          assert Touched(requests[0]) !! Touched(requests[k + 1]);
        }
        PlansUnchanged(files, next, requests[1..]);
        SeparateIsOneByOne(next, requests[1..]);
      }
    }
  }

  // ----- which operation raises -----

  /** The operation removes a path that an earlier one removed and none in between wrote. */
  ghost predicate RemovesAgain(requests: seq<Request>, j: nat) {
    && j < |requests| && RemovedBy(requests[j]).Some?
    && exists i: nat :: i < j && RemovedBy(requests[i]) == RemovedBy(requests[j])
                        && NotWritten(requests, i + 1, j, RemovedBy(requests[j]).value)
  }

  ghost predicate NotWritten(requests: seq<Request>, i: nat, j: nat, p: Path)
    requires j <= |requests|
  {
    forall k: nat :: i <= k < j ==> WrittenBy(requests[k]) != Some(p)
  }

  /** The first operation from n on that removes again, or the number of operations. */
  ghost function FirstAgain(requests: seq<Request>, n: nat): (r: nat)
    requires n <= |requests|
    ensures n <= r <= |requests|
    ensures forall k: nat :: n <= k < r ==> !RemovesAgain(requests, k)
    ensures r < |requests| ==> RemovesAgain(requests, r)
    decreases |requests| - n
  {
    if n == |requests| || RemovesAgain(requests, n) then n else FirstAgain(requests, n + 1)
  }

  /** What changes leave when none of them stops the ones after it. */
  function Left(files: Files, changes: seq<Change>): Files
    decreases |changes|
  {
    if changes == [] then files else Left(Made(files, changes[0]), changes[1..])
  }

  // ----- which operation decides what a path holds -----

  function Look(files: Files, p: Path): Option<Node> {
    if p in files then Some(files[p]) else None
  }

  predicate Alters(c: Change, p: Path) {
    RemovedPath(c) == Some(p) || WrittenPath(c) == Some(p)
  }

  /** What a change leaves at a path it alters. */
  function Effect(c: Change, p: Path): Option<Node> {
    if WrittenPath(c) == Some(p) then Some(Written(c.text)) else None
  }

  lemma {:induction false} UntouchedStays(files: Files, changes: seq<Change>, p: Path)
    requires forall k :: 0 <= k < |changes| ==> !Alters(changes[k], p)
    ensures Look(Left(files, changes), p) == Look(files, p)
    decreases |changes|
  {
    if changes != [] {
      assert !Alters(changes[0], p);
      UntouchedStays(Made(files, changes[0]), changes[1..], p);
    }
  }

  /** A path holds what the last change that alters it leaves there, whatever came before. */
  lemma {:induction false} LastChangeDecides(files: Files, changes: seq<Change>, k: nat, p: Path)
    requires k < |changes| && Alters(changes[k], p)
    requires forall j :: k < j < |changes| ==> !Alters(changes[j], p)
    requires forall j :: 0 <= j < |changes| ==> RemovesNoFolder(files, changes[j])
    ensures Look(Left(files, changes), p) == Effect(changes[k], p)
    decreases |changes|
  {
    assert RemovesNoFolder(files, changes[0]);
    if k > 0 {
      forall j | 0 < j < |changes| ensures RemovesNoFolder(Made(files, changes[0]), changes[j]) {
        assert RemovesNoFolder(files, changes[j]);
      }
      LastChangeDecides(Made(files, changes[0]), changes[1..], k - 1, p);
    } else {
      UntouchedStays(Made(files, changes[0]), changes[1..], p);
    }
  }

  /** The changes are the plans of the operations. */
  ghost predicate ArePlans(files: Files, requests: seq<Request>, changes: seq<Change>) {
    |changes| == |requests| && forall k :: 0 <= k < |requests| ==> PlanRequest(files, requests[k]) == Ready(changes[k])
  }

  lemma {:induction false} PlanAllPlans(files: Files, requests: seq<Request>)
    requires PlanAll(files, requests).Some?
    ensures ArePlans(files, requests, PlanAll(files, requests).value)
    decreases |requests|
  {
    if requests != [] {
      PlanAllPlans(files, requests[1..]);
      var rest := PlanAll(files, requests[1..]).value;
      forall k | 0 < k < |requests| ensures PlanRequest(files, requests[k]) == Ready(rest[k - 1]) {
        assert requests[1..][k - 1] == requests[k];
      }
    }
  }

  /** The last of these changes that alters the path, if any does. */
  lemma {:induction false} LastAltering(changes: seq<Change>, n: nat, p: Path) returns (last: Option<nat>)
    requires n <= |changes|
    ensures last.None? ==> forall k :: 0 <= k < n ==> !Alters(changes[k], p)
    ensures last.Some? ==> last.value < n && Alters(changes[last.value], p)
                           && forall k :: last.value < k < n ==> !Alters(changes[k], p)
    decreases n
  {
    if n == 0 {
      last := None;
    } else if Alters(changes[n - 1], p) {
      last := Some(n - 1);
    } else {
      last := LastAltering(changes, n - 1, p);
    }
  }

  lemma PlansRemoveFiles(files: Files, requests: seq<Request>, changes: seq<Change>)
    requires ArePlans(files, requests, changes)
    ensures forall j :: 0 <= j < |changes| ==> RemovesNoFolder(files, changes[j])
  {
    forall j | 0 <= j < |changes| ensures RemovesNoFolder(files, changes[j]) {
      PlannedPaths(files, requests[j], changes[j]);
    }
  }

  /** An operation raises when its turn comes exactly when it removes again. */
  lemma RaisesIff(files: Files, requests: seq<Request>, changes: seq<Change>, k: nat)
    requires ArePlans(files, requests, changes) && k < |changes|
    ensures CanMake(Left(files, changes[..k]), changes[k]) <==> !RemovesAgain(requests, k)
  {
    PlannedPaths(files, requests[k], changes[k]);
    if RemovedBy(requests[k]).Some? {
      var p := RemovedBy(requests[k]).value;
      var last := LastAltering(changes, k, p);
      if last.Some? {
        PlansRemoveFiles(files, requests, changes);
        LastChangeDecides(files, changes[..k], last.value, p);
        RemovedByLast(files, requests, changes, k, last.value, p);
      } else {
        UntouchedStays(files, changes[..k], p);
        forall i: nat | i < k ensures RemovedBy(requests[i]) != Some(p) {
          PlannedPaths(files, requests[i], changes[i]);
        }
      }
      assert Look(Left(files, changes[..k]), p).Some? ==> Left(files, changes[..k])[p] == Look(Left(files, changes[..k]), p).value;
    }
  }

  lemma RemovedByLast(files: Files, requests: seq<Request>, changes: seq<Change>, k: nat, last: nat, p: Path)
    requires ArePlans(files, requests, changes) && last < k < |changes| && RemovedBy(requests[k]) == Some(p)
    requires Alters(changes[last], p) && forall i :: last < i < k ==> !Alters(changes[i], p)
    ensures RemovesAgain(requests, k) <==> WrittenPath(changes[last]) != Some(p)
  {
    forall i | 0 <= i < k
      ensures RemovedPath(changes[i]) == RemovedBy(requests[i]) && WrittenPath(changes[i]) == WrittenBy(requests[i])
    {
      PlannedPaths(files, requests[i], changes[i]);
    }
    if WrittenPath(changes[last]) != Some(p) {
      assert NotWritten(requests, last + 1, k, p);
    } else {
      forall i: nat | i < k && RemovedBy(requests[i]) == Some(p) ensures !NotWritten(requests, i + 1, k, p) {
        assert Alters(changes[i], p);
        assert i < last && WrittenBy(requests[last]) == Some(p);
      }
    }
  }

  /** The changes before the first that raises are all made, and it stops the ones after it. */
  lemma {:induction false} MakesUpTo(files: Files, changes: seq<Change>, n: nat)
    requires n <= |changes|
    requires forall k :: 0 <= k < n ==> CanMake(Left(files, changes[..k]), changes[k])
    ensures n == |changes| ==> MakeAll(files, changes) == (Left(files, changes), true)
    ensures n < |changes| && !CanMake(Left(files, changes[..n]), changes[n]) ==>
      MakeAll(files, changes) == (Left(files, changes[..n + 1]), false)
    decreases |changes|
  {
    if changes != [] {
      var next, rest := Made(files, changes[0]), changes[1..];
      forall k | 0 <= k < |rest| ensures Left(files, changes[..k + 1]) == Left(next, rest[..k]) {
        assert changes[..k + 1][1..] == rest[..k];
      }
      assert changes[..0] == [] && rest[..|rest|] == rest && changes[..|changes|] == changes;
      if n > 0 {
        assert CanMake(Left(files, changes[..0]), changes[0]);
        forall k | 0 <= k < n - 1 ensures CanMake(Left(next, rest[..k]), rest[k]) {
          assert CanMake(Left(files, changes[..k + 1]), changes[k + 1]);
        }
        MakesUpTo(next, rest, n - 1);
        if n < |changes| {
          assert changes[..n + 1][1..] == rest[..n];
        }
      } else {
        assert changes[..1][1..] == [];
      }
    }
  }

  /** A planned patch makes all its changes exactly when no operation removes again; otherwise
      it raises at the first one that does, after it made the changes before that one. */
  lemma PatchStopsAt(files: Files, requests: seq<Request>)
    requires PlanAll(files, requests).Some?
    ensures |PlanAll(files, requests).value| == |requests|
    ensures var changes, n := PlanAll(files, requests).value, FirstAgain(requests, 0);
      ApplyPatch(files, requests, true)
      == if n == |requests| then (Left(files, changes), Done) else (Left(files, changes[..n + 1]), Raised)
  {
    var changes, n := PlanAll(files, requests).value, FirstAgain(requests, 0);
    PlanAllPlans(files, requests);
    forall k | 0 <= k < |changes| ensures CanMake(Left(files, changes[..k]), changes[k]) <==> !RemovesAgain(requests, k) {
      RaisesIff(files, requests, changes, k);
    }
    MakesUpTo(files, changes, n);
  }

  /** The number of operations whose changes are made, at least in part. */
  ghost function Reached(requests: seq<Request>): (n: nat)
    ensures n <= |requests|
  {
    var n := FirstAgain(requests, 0);
    if n < |requests| then n + 1 else n
  }

  /** In every patch that can be planned a path holds what the last operation that touches it,
      among those reached, makes of the files before the patch; what other operations did there
      is lost. A path that none of them touches stays as it was. */
  lemma LastOperationDecides(files: Files, requests: seq<Request>, p: Path)
    requires PlanAll(files, requests).Some?
    ensures var after, n := ApplyPatch(files, requests, true).0, Reached(requests);
      && (forall k: nat :: IsLastTouching(requests, n, k, p) ==>
            PlanRequest(files, requests[k]).Ready? && Look(after, p) == Effect(PlanRequest(files, requests[k]).change, p))
      && ((forall k: nat :: k < n ==> !Touches(requests[k], p)) ==> Look(after, p) == Look(files, p))
  {
    var changes, n := PlanAll(files, requests).value, Reached(requests);
    PatchStopsAt(files, requests);
    PlanAllPlans(files, requests);
    PlansRemoveFiles(files, requests, changes);
    assert changes[..|changes|] == changes;
    forall k | 0 <= k < |changes| ensures Alters(changes[k], p) <==> Touches(requests[k], p) {
      PlannedPaths(files, requests[k], changes[k]);
    }
    forall k: nat | IsLastTouching(requests, n, k, p)
      ensures PlanRequest(files, requests[k]) == Ready(changes[k])
      ensures Look(Left(files, changes[..n]), p) == Effect(changes[k], p)
    {
      LastChangeDecides(files, changes[..n], k, p);
    }
    if forall k: nat :: k < n ==> !Touches(requests[k], p) {
      UntouchedStays(files, changes[..n], p);
    }
  }

  ghost predicate IsLastTouching(requests: seq<Request>, n: nat, k: nat, p: Path)
    requires n <= |requests|
  {
    k < n && Touches(requests[k], p) && forall j: nat :: k < j < n ==> !Touches(requests[j], p)
  }

  /** Two updates of one path: if both can be planned, the file is as if there were only the
      second, so the patch does what one update after the other does exactly when the second
      gives the same text with and without the first. */
  lemma SecondUpdateWins(files: Files, path: Path, first: seq<UpdateHunk>, second: seq<UpdateHunk>)
    requires var requests := [Update(path, None, first), Update(path, None, second)]; PlanAll(files, requests).Some?
    ensures var requests := [Update(path, None, first), Update(path, None, second)];
      && ApplyPatch(files, requests, true).1.Done?
      && ApplyPatch(files, requests, true) == ApplyPatch(files, [Update(path, None, second)], true)
      && (OneByOne(files, requests) == Some(ApplyPatch(files, requests, true).0) <==>
            PlanRequest(Made(files, PlanRequest(files, requests[0]).change), requests[1]) == PlanRequest(files, requests[1]))
  {
    var one, two := Update(path, None, first), Update(path, None, second);
    var requests := [one, two];
    PlanAllPlans(files, requests);
    var a, b := PlanRequest(files, one).change, PlanRequest(files, two).change;
    assert PlanRequest(files, requests[0]) == Ready(a) && PlanRequest(files, requests[1]) == Ready(b);
    assert PlanAll(files, requests).value == [a, b];
    assert [two][1..] == [] && PlanAll(files, [two]) == Some([b] + []);
    var next := Made(files, a);
    assert [a, b][1..] == [b] && [b][1..] == [];
    assert MakeAll(files, [a, b]) == MakeAll(next, [b]) == MakeAll(Made(next, b), []) == (Made(next, b), true);
    assert MakeAll(files, [b]) == MakeAll(Made(files, b), []) == (Made(files, b), true);
    assert Made(next, b) == Made(files, b);
    SecondAfterFirst(files, requests, next, a, b);
  }

  lemma SecondAfterFirst(files: Files, requests: seq<Request>, next: Files, a: Change, b: Change)
    requires |requests| == 2 && requests[0].Update? && requests[1].Update?
    requires requests[0].moveTo == requests[1].moveTo == None && requests[0].path == requests[1].path
    requires PlanRequest(files, requests[0]) == Ready(a) && PlanRequest(files, requests[1]) == Ready(b)
    requires next == Made(files, a)
    ensures OneByOne(files, requests) == Some(Made(next, b)) <==> PlanRequest(next, requests[1]) == Ready(b)
  {
    var two := requests[1..];
    assert two[0] == requests[1] && two[1..] == [];
    var again := PlanRequest(next, requests[1]);
    if again.Ready? {
      var c := again.change;
      assert OneByOne(files, requests) == OneByOne(next, two) == OneByOne(Made(next, c), two[1..]) == Some(Made(next, c));
      assert Made(next, c)[c.path] == Written(c.text) && Made(next, b)[b.path] == Written(b.text);
    }
  }

  /** Adding one path twice: the patch is accepted and the first addition is lost, where one
      after the other the second would be refused. */
  lemma DoubleAddLosesTheFirst(path: Path, first: seq<string>, second: seq<string>)
    ensures var requests := [Add(path, first), Add(path, second)];
      && ApplyPatch(map[], requests, true) == (map[path := Written(JoinLines(second, second != []))], Done)
      && OneByOne(map[], requests).None?
  {
    var requests := [Add(path, first), Add(path, second)];
    var one, two := Write(path, JoinLines(first, first != []), None), Write(path, JoinLines(second, second != []), None);
    assert requests[1..] == [Add(path, second)] && requests[1..][1..] == [];
    assert PlanAll(map[], requests[1..]) == Some([two] + []);
    assert PlanAll(map[], requests) == Some([one] + ([two] + []));
    assert ([one] + ([two] + []))[1..] == [two] && [two][1..] == [];
    var after := Made(map[], one);
    assert MakeAll(after, [two]) == MakeAll(Made(after, two), []);
    assert Made(after, two) == map[path := Written(JoinLines(second, second != []))];
    assert OneByOne(after, requests[1..]).None?;
  }

  /** Deleting one path twice: every operation can be planned, but the second removal raises when
      the first is already made, and the addition after it is never made. */
  lemma DoubleDeleteStops(path: Path, text: string, other: Path, lines: seq<string>)
    requires path != other
    ensures var requests := [Delete(path), Delete(path), Add(other, lines)];
      ApplyPatch(map[path := File(text, false)], requests, true) == (map[], Raised)
  {
    var files: Files := map[path := File(text, false)];
    var add := Write(other, JoinLines(lines, lines != []), None);
    var requests := [Delete(path), Delete(path), Add(other, lines)];
    assert requests[1..] == [Delete(path), Add(other, lines)] && requests[1..][1..] == [Add(other, lines)];
    assert [Add(other, lines)][1..] == [];
    assert PlanAll(files, [Add(other, lines)]) == Some([add] + []);
    assert PlanAll(files, requests[1..]) == Some([Remove(path)] + ([add] + []));
    assert PlanAll(files, requests) == Some([Remove(path)] + ([Remove(path)] + ([add] + [])));
    var changes := [Remove(path), Remove(path), add];
    assert PlanAll(files, requests).value == changes && changes[1..] == [Remove(path), add];
    assert Made(files, Remove(path)) == map[];
    assert MakeAll(map[], changes[1..]) == (map[], false);
  }

  /** A refused patch, and one that is only validated, changes nothing. A patch is refused exactly
      when an operation cannot be planned, and completed exactly when all can and, unless it is
      only validated, none removes again. */
  lemma RefusedPatchChangesNothing(files: Files, requests: seq<Request>, apply: bool)
    ensures ApplyPatch(files, requests, apply).1.Rejected? || !apply ==> ApplyPatch(files, requests, apply).0 == files
    ensures ApplyPatch(files, requests, apply).1.Rejected? <==>
      exists k :: 0 <= k < |requests| && PlanRequest(files, requests[k]).Cannot?
    ensures ApplyPatch(files, requests, apply).1.Done? <==>
      && (forall k :: 0 <= k < |requests| ==> PlanRequest(files, requests[k]).Ready?)
      && (apply ==> forall k: nat :: k < |requests| ==> !RemovesAgain(requests, k))
  {
    AllReady(files, requests);
    if PlanAll(files, requests).Some? {
      PatchStopsAt(files, requests);
    }
  }

  lemma {:induction false} AllReady(files: Files, requests: seq<Request>)
    ensures PlanAll(files, requests).Some? <==> forall k :: 0 <= k < |requests| ==> PlanRequest(files, requests[k]).Ready?
    decreases |requests|
  {
    if requests != [] {
      AllReady(files, requests[1..]);
      forall k | 0 < k < |requests| ensures requests[k] == requests[1..][k - 1] {
      }
    }
  }

  // ----- the planning and applying loops -----

  /** _plan_add, _plan_delete and _plan_update. */
  method PlanOperation(files: Files, q: Request) returns (r: Planned)
    ensures r == PlanRequest(files, q)
  {
    match q {
      case Add(path, lines) =>
        if path in files {
          return Cannot(PathExists);
        }
        r := Ready(Write(path, JoinLines(lines, lines != []), None));
      case Delete(path) =>
        if path !in files {
          return Cannot(FileNotFound);
        }
        if files[path].Folder? {
          return Cannot(NotAFile);
        }
        if files[path].binary {
          return Cannot(NotText);
        }
        r := Ready(Remove(path));
      case Update(path, moveTo, hunks) =>
        r := PlanUpdate(files, path, moveTo, hunks);
    }
  }

  /** The hunks are applied before the target of a move is looked at. */
  method PlanUpdate(files: Files, path: Path, moveTo: Option<Path>, hunks: seq<UpdateHunk>) returns (r: Planned)
    ensures r == PlanRequest(files, Update(path, moveTo, hunks))
  {
    if path !in files {
      return Cannot(FileNotFound);
    }
    if files[path].Folder? {
      return Cannot(NotAFile);
    }
    if files[path].binary {
      return Cannot(NotText);
    }
    var original := files[path].text;
    var updated := ApplyHunks(SplitLines(original), hunks);
    HunksResultIs(SplitLines(original), hunks, updated);
    if updated.Refused? {
      return Cannot(HunkRefused);
    }
    var moves := moveTo.Some? && moveTo.value != path;
    if moves && moveTo.value in files {
      return Cannot(TargetExists);
    }
    var text := UpdatedText(original, updated.lines);
    r := Ready(if moves then Write(moveTo.value, text, Some(path)) else Write(path, text, None));
  }

  lemma PlanOneMore(files: Files, requests: seq<Request>, i: nat, changes: seq<Change>, one: Planned)
    requires i < |requests| && PlannedUpTo(files, requests, i, changes) && one == PlanRequest(files, requests[i])
    ensures one.Ready? ==> PlannedUpTo(files, requests, i + 1, changes + [one.change])
    ensures one.Cannot? ==> PlanAll(files, requests) == None
  {
    assert requests[i..][0] == requests[i] && requests[i..][1..] == requests[i + 1..];
    var rest := PlanAll(files, requests[i + 1..]);
    if one.Ready? && rest.Some? {
      assert changes + ([one.change] + rest.value) == changes + [one.change] + rest.value;
    }
  }

  /** The first i operations are planned; what is left decides the rest. */
  ghost predicate PlannedUpTo(files: Files, requests: seq<Request>, i: nat, changes: seq<Change>)
    requires i <= |requests|
  {
    var rest := PlanAll(files, requests[i..]);
    PlanAll(files, requests) == if rest.Some? then Some(changes + rest.value) else None
  }

  method PlanOperations(files: Files, requests: seq<Request>) returns (r: Option<seq<Change>>)
    ensures r == PlanAll(files, requests)
  {
    var changes: seq<Change> := [];
    var i := 0;
    assert requests[0..] == requests;
    assert PlanAll(files, requests).Some? ==> [] + PlanAll(files, requests).value == PlanAll(files, requests).value;
    while i < |requests|
      invariant 0 <= i <= |requests| && PlannedUpTo(files, requests, i, changes)
    {
      var one := PlanOperation(files, requests[i]);
      PlanOneMore(files, requests, i, changes, one);
      if one.Cannot? {
        return None;
      }
      changes := changes + [one.change];
      i := i + 1;
    }
    assert requests[i..] == [] && changes + [] == changes;
    r := Some(changes);
  }

  class Workspace {
    var files: Files

    /** All operations are planned first; then, unless the patch is only validated, the changes
        are made in order, up to one that raises. */
    method Apply(requests: seq<Request>, apply: bool) returns (outcome: Outcome)
      modifies this
      ensures (files, outcome) == ApplyPatch(old(files), requests, apply)
    {
      var changes := PlanOperations(files, requests);
      if changes.None? {
        return Rejected;
      }
      if apply {
        var made := MakeChanges(changes.value);
        if !made {
          return Raised;
        }
      }
      outcome := Done;
    }

    method MakeChanges(changes: seq<Change>) returns (made: bool)
      modifies this
      ensures (files, made) == MakeAll(old(files), changes)
    {
      var i := 0;
      assert changes[0..] == changes;
      while i < |changes|
        invariant 0 <= i <= |changes|
        invariant MakeAll(files, changes[i..]) == MakeAll(old(files), changes)
      {
        assert changes[i..][0] == changes[i] && changes[i..][1..] == changes[i + 1..];
        var ok := MakeChange(changes[i]);
        if !ok {
          return false;
        }
        i := i + 1;
      }
      made := true;
    }

    /** A move writes its target first and then removes its source. */
    method MakeChange(c: Change) returns (ok: bool)
      modifies this
      ensures files == Made(old(files), c) && ok == CanMake(old(files), c)
    {
      match c {
        case Remove(path) =>
          ok := Unlink(path);
        case Write(path, text, previous) =>
          files := files[path := Written(text)];
          ok := true;
          if previous.Some? && previous.value != path {
            ok := Unlink(previous.value);
          }
      }
    }

    /** Raises, and removes nothing, when there is no such file. */
    method Unlink(path: Path) returns (ok: bool)
      modifies this
      ensures ok == (path in old(files) && old(files)[path].File?)
      ensures files == if ok then old(files) - {path} else old(files)
    {
      ok := path in files && files[path].File?;
      if ok {
        files := files - {path};
      }
    }
  }
}
