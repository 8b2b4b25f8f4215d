/** The patch format of patching.py: the parsers over the lines of a patch, as functions and as
    the loops that compute them, and a canonical rendering that they read back. */
module PatchParser {
  import opened Options

  const BEGIN := "*** Begin Patch"
  const END := "*** End Patch"
  const ADD := "*** Add File: "
  const DELETE := "*** Delete File: "
  const UPDATE := "*** Update File: "
  const MOVE := "*** Move to: "
  const END_OF_FILE := "*** End of File"
  const HUNK := "@@"

  datatype DiffLine = DiffLine(kind: char, text: string)

  datatype UpdateHunk = UpdateHunk(lines: seq<DiffLine>, patchLine: nat)

  datatype Operation =
    | AddFile(path: string, lines: seq<string>)
    | DeleteFile(path: string)
    | UpdateFile(path: string, moveTo: Option<string>, hunks: seq<UpdateHunk>)

  datatype Problem = InvalidPatch | EmptyHunk(patchLine: nat) | UnanchoredHunk(patchLine: nat)

  /** What a parser read and where it stopped, or why it gave up. */
  datatype Outcome<T> = Parsed(value: T, next: nat) | Failed(why: Problem)

  predicate IsHeader(line: string) {
    ADD <= line || DELETE <= line || UPDATE <= line || line == END
  }

  predicate HasKind(line: string) {
    line != "" && (line[0] == ' ' || line[0] == '+' || line[0] == '-')
  }

  /** Put what was read before in front of what follows. */
  function After<T>(read: seq<T>, rest: Outcome<seq<T>>): Outcome<seq<T>> {
    if rest.Parsed? then Parsed(read + rest.value, rest.next) else rest
  }

  // ----- the parsers -----

  function AddLines(lines: seq<string>, i: nat): (r: Outcome<seq<string>>)
    ensures r.Parsed? && i <= |lines| ==> i <= r.next <= |lines|
    decreases |lines| - i
  {
    if i >= |lines| || IsHeader(lines[i]) then Parsed([], i)
    else if !("+" <= lines[i]) then Failed(InvalidPatch)
    else After([lines[i][1..]], AddLines(lines, i + 1))
  }

  function HunkLines(lines: seq<string>, i: nat): (r: Outcome<seq<DiffLine>>)
    ensures r.Parsed? && i <= |lines| ==> i <= r.next <= |lines| && |r.value| <= r.next - i
    decreases |lines| - i
  {
    if i >= |lines| || IsHeader(lines[i]) || HUNK <= lines[i] then Parsed([], i)
    else if lines[i] == END_OF_FILE then HunkLines(lines, i + 1)
    else if !HasKind(lines[i]) then Failed(InvalidPatch)
    else After([DiffLine(lines[i][0], lines[i][1..])], HunkLines(lines, i + 1))
  }

  predicate HasLine(ds: seq<DiffLine>, kind: char) {
    exists k :: 0 <= k < |ds| && ds[k].kind == kind
  }

  /** Why a list of diff lines is no usable hunk. */
  function HunkProblem(ds: seq<DiffLine>, patchLine: nat): Option<Problem> {
    if ds == [] then Some(InvalidPatch)
    else if !HasLine(ds, '+') && !HasLine(ds, '-') then Some(EmptyHunk(patchLine))
    else if HasLine(ds, '+') && !HasLine(ds, '-') && !HasLine(ds, ' ') then Some(UnanchoredHunk(patchLine))
    else None
  }

  function Hunk(lines: seq<string>, start: nat): (r: Outcome<UpdateHunk>)
    requires start < |lines|
    ensures r.Parsed? ==> start < r.next <= |lines|
  {
    var read := HunkLines(lines, if HUNK <= lines[start] then start + 1 else start);
    if read.Failed? then Failed(read.why)
    else
      var problem := HunkProblem(read.value, start + 1);
      if problem.Some? then Failed(problem.value) else Parsed(UpdateHunk(read.value, start + 1), read.next)
  }

  function Hunks(lines: seq<string>, i: nat): (r: Outcome<seq<UpdateHunk>>)
    ensures r.Parsed? && i <= |lines| ==> i <= r.next <= |lines|
    decreases |lines| - i
  {
    if i >= |lines| || IsHeader(lines[i]) then Parsed([], i)
    else
      var first := Hunk(lines, i);
      if first.Failed? then Failed(first.why) else After([first.value], Hunks(lines, first.next))
  }

  function AddOperation(lines: seq<string>, start: nat): (r: Outcome<Operation>)
    requires start < |lines| && ADD <= lines[start]
    ensures r.Parsed? ==> start < r.next <= |lines|
  {
    var content := AddLines(lines, start + 1);
    if content.Failed? then Failed(content.why) else Parsed(AddFile(lines[start][|ADD|..], content.value), content.next)
  }

  function UpdateOperation(lines: seq<string>, start: nat): (r: Outcome<Operation>)
    requires start < |lines| && UPDATE <= lines[start]
    ensures r.Parsed? ==> start < r.next <= |lines|
  {
    var moves := start + 1 < |lines| && MOVE <= lines[start + 1];
    var moveTo := if moves then Some(lines[start + 1][|MOVE|..]) else None;
    var hunks := Hunks(lines, if moves then start + 2 else start + 1);
    if hunks.Failed? then Failed(hunks.why)
    else if hunks.value == [] && moveTo.None? then Failed(InvalidPatch)
    else Parsed(UpdateFile(lines[start][|UPDATE|..], moveTo, hunks.value), hunks.next)
  }

  /** The operation that starts at a line. */
  function OneOperation(lines: seq<string>, i: nat): (r: Outcome<Operation>)
    requires i < |lines|
    ensures r.Parsed? ==> i < r.next <= |lines|
  {
    if ADD <= lines[i] then AddOperation(lines, i)
    else if DELETE <= lines[i] then Parsed(DeleteFile(lines[i][|DELETE|..]), i + 1)
    else if UPDATE <= lines[i] then UpdateOperation(lines, i)
    else Failed(InvalidPatch)
  }

  function Operations(lines: seq<string>, i: nat): Outcome<seq<Operation>>
    decreases |lines| - i
  {
    if i >= |lines| then Failed(InvalidPatch)
    else if lines[i] == END then Parsed([], i)
    else
      var first := OneOperation(lines, i);
      if first.Failed? then Failed(first.why) else After([first.value], Operations(lines, first.next))
  }

  function ParsePatch(lines: seq<string>): Outcome<seq<Operation>> {
    if lines == [] || lines[0] != BEGIN then Failed(InvalidPatch) else Operations(lines, 1)
  }

  // ----- the loops -----

  method ParseAddLines(lines: seq<string>, start: nat) returns (r: Outcome<seq<string>>)
    requires start <= |lines|
    ensures r == AddLines(lines, start)
  {
    var index := start;
    var content: seq<string> := [];
    AfterTwice<string>([], [], AddLines(lines, start));
    while index < |lines| && !IsHeader(lines[index])
      invariant start <= index <= |lines|
      invariant AddLines(lines, start) == After(content, AddLines(lines, index))
    {
      var line := lines[index];
      if !("+" <= line) {
        return Failed(InvalidPatch);
      }
      AfterTwice(content, [line[1..]], AddLines(lines, index + 1));
      content := content + [line[1..]];
      index := index + 1;
    }
    assert content + [] == content;
    r := Parsed(content, index);
  }

  lemma AfterTwice<T>(a: seq<T>, b: seq<T>, rest: Outcome<seq<T>>)
    ensures After(a, After(b, rest)) == After(a + b, rest)
    ensures After([], rest) == rest
  {
    if rest.Parsed? {
      assert a + (b + rest.value) == a + b + rest.value;
      assert [] + rest.value == rest.value;
    }
  }

  method ParseHunkLines(lines: seq<string>, start: nat) returns (r: Outcome<seq<DiffLine>>)
    requires start <= |lines|
    ensures r == HunkLines(lines, start)
  {
    var index := start;
    var diffLines: seq<DiffLine> := [];
    AfterTwice<DiffLine>([], [], HunkLines(lines, start));
    while index < |lines|
      invariant start <= index <= |lines|
      invariant HunkLines(lines, start) == After(diffLines, HunkLines(lines, index))
    {
      var line := lines[index];
      if IsHeader(line) || HUNK <= line {
        break;
      }
      if line == END_OF_FILE {
        index := index + 1;
        continue;
      }
      if !HasKind(line) {
        return Failed(InvalidPatch);
      }
      AfterTwice(diffLines, [DiffLine(line[0], line[1..])], HunkLines(lines, index + 1));
      diffLines := diffLines + [DiffLine(line[0], line[1..])];
      index := index + 1;
    }
    assert diffLines + [] == diffLines;
    r := Parsed(diffLines, index);
  }

  method ParseHunk(lines: seq<string>, start: nat) returns (r: Outcome<UpdateHunk>)
    requires start < |lines|
    ensures r == Hunk(lines, start)
  {
    var patchLine := start + 1;
    var index := start;
    if HUNK <= lines[index] {
      index := index + 1;
    }
    var read := ParseHunkLines(lines, index);
    if read.Failed? {
      return Failed(read.why);
    }
    var diffLines := read.value;
    if diffLines == [] {
      return Failed(InvalidPatch);
    }
    var hasAdditions, hasRemovals, hasContext := HasLine(diffLines, '+'), HasLine(diffLines, '-'), HasLine(diffLines, ' ');
    if !hasAdditions && !hasRemovals {
      return Failed(EmptyHunk(patchLine));
    }
    if hasAdditions && !hasRemovals && !hasContext {
      return Failed(UnanchoredHunk(patchLine));
    }
    r := Parsed(UpdateHunk(diffLines, patchLine), read.next);
  }

  method ParseHunks(lines: seq<string>, start: nat) returns (r: Outcome<seq<UpdateHunk>>)
    requires start <= |lines|
    ensures r == Hunks(lines, start)
  {
    var index := start;
    var hunks: seq<UpdateHunk> := [];
    AfterTwice<UpdateHunk>([], [], Hunks(lines, start));
    while index < |lines| && !IsHeader(lines[index])
      invariant start <= index <= |lines|
      invariant Hunks(lines, start) == After(hunks, Hunks(lines, index))
      decreases |lines| - index
    {
      var hunk := ParseHunk(lines, index);
      if hunk.Failed? {
        return Failed(hunk.why);
      }
      AfterTwice(hunks, [hunk.value], Hunks(lines, hunk.next));
      hunks := hunks + [hunk.value];
      index := hunk.next;
    }
    assert hunks + [] == hunks;
    r := Parsed(hunks, index);
  }

  method ParseAddFile(lines: seq<string>, start: nat) returns (r: Outcome<Operation>)
    requires start < |lines| && ADD <= lines[start]
    ensures r == AddOperation(lines, start)
  {
    var content := ParseAddLines(lines, start + 1);
    if content.Failed? {
      return Failed(content.why);
    }
    r := Parsed(AddFile(lines[start][|ADD|..], content.value), content.next);
  }

  method ParseUpdateFile(lines: seq<string>, start: nat) returns (r: Outcome<Operation>)
    requires start < |lines| && UPDATE <= lines[start]
    ensures r == UpdateOperation(lines, start)
  {
    var index := start + 1;
    var moveTo: Option<string> := None;
    if index < |lines| && MOVE <= lines[index] {
      moveTo := Some(lines[index][|MOVE|..]);
      index := index + 1;
    }
    var hunks := ParseHunks(lines, index);
    if hunks.Failed? {
      return Failed(hunks.why);
    }
    if hunks.value == [] && moveTo.None? {
      return Failed(InvalidPatch);
    }
    r := Parsed(UpdateFile(lines[start][|UPDATE|..], moveTo, hunks.value), hunks.next);
  }

  /** The whole parser; it ends on every input, because every operation moves it forward. */
  method Parse(lines: seq<string>) returns (r: Outcome<seq<Operation>>)
    ensures r == ParsePatch(lines)
  {
    if lines == [] || lines[0] != BEGIN {
      return Failed(InvalidPatch);
    }
    var operations: seq<Operation> := [];
    var index := 1;
    AfterTwice<Operation>([], [], Operations(lines, 1));
    while index < |lines|
      invariant 1 <= index <= |lines|
      invariant ParsePatch(lines) == After(operations, Operations(lines, index))
      decreases |lines| - index
    {
      var line := lines[index];
      if line == END {
        assert operations + [] == operations;
        return Parsed(operations, index);
      }
      var operation: Outcome<Operation>;
      if ADD <= line {
        operation := ParseAddFile(lines, index);
      } else if DELETE <= line {
        operation := Parsed(DeleteFile(line[|DELETE|..]), index + 1);
      } else if UPDATE <= line {
        operation := ParseUpdateFile(lines, index);
      } else {
        operation := Failed(InvalidPatch);
      }
      if operation.Failed? {
        return Failed(operation.why);
      }
      AfterTwice(operations, [operation.value], Operations(lines, operation.next));
      operations := operations + [operation.value];
      index := operation.next;
    }
    r := Failed(InvalidPatch);
  }

  // ----- rendering -----

  function RenderAdded(content: seq<string>): seq<string> {
    seq(|content|, k requires 0 <= k < |content| => "+" + content[k])
  }

  function RenderDiff(ds: seq<DiffLine>): seq<string> {
    seq(|ds|, k requires 0 <= k < |ds| => [ds[k].kind] + ds[k].text)
  }

  function RenderHunks(hunks: seq<UpdateHunk>): seq<string> {
    if hunks == [] then [] else [HUNK] + RenderDiff(hunks[0].lines) + RenderHunks(hunks[1..])
  }

  function RenderOperation(op: Operation): seq<string> {
    match op
    case AddFile(path, content) => [ADD + path] + RenderAdded(content)
    case DeleteFile(path) => [DELETE + path]
    case UpdateFile(path, moveTo, hunks) =>
      [UPDATE + path] + (if moveTo.Some? then [MOVE + moveTo.value] else []) + RenderHunks(hunks)
  }

  function RenderOperations(ops: seq<Operation>): seq<string> {
    if ops == [] then [END] else RenderOperation(ops[0]) + RenderOperations(ops[1..])
  }

  function RenderPatch(ops: seq<Operation>): seq<string> {
    [BEGIN] + RenderOperations(ops)
  }

  /** The operations that mean something: every hunk changes something and is anchored. */
  predicate IsHunk(h: UpdateHunk) {
    && HunkProblem(h.lines, 0).None?
    && forall k :: 0 <= k < |h.lines| ==> h.lines[k].kind == ' ' || h.lines[k].kind == '+' || h.lines[k].kind == '-'
  }

  predicate IsOperation(op: Operation) {
    op.UpdateFile? ==>
      && (op.hunks != [] || op.moveTo.Some?)
      && forall k :: 0 <= k < |op.hunks| ==> IsHunk(op.hunks[k])
  }

  predicate AreOperations(ops: seq<Operation>) {
    forall k :: 0 <= k < |ops| ==> IsOperation(ops[k])
  }

  /** Operations without the positions at which their hunks were read. */
  function Unplaced(op: Operation): Operation {
    if op.UpdateFile? then
      op.(hunks := seq(|op.hunks|, k requires 0 <= k < |op.hunks| => op.hunks[k].(patchLine := 0)))
    else op
  }

  ghost predicate SameUnplaced(a: seq<Operation>, b: seq<Operation>) {
    |a| == |b| && forall k :: 0 <= k < |a| ==> Unplaced(a[k]) == Unplaced(b[k])
  }

  /** The block stands in the lines from position i on. */
  ghost predicate At(lines: seq<string>, i: nat, block: seq<string>) {
    i + |block| <= |lines| && forall k :: 0 <= k < |block| ==> lines[i + k] == block[k]
  }

  /** A header, or nothing, follows. */
  predicate HeaderAt(lines: seq<string>, i: nat) {
    i >= |lines| || IsHeader(lines[i])
  }

  lemma AtFirst(lines: seq<string>, i: nat, block: seq<string>)
    requires At(lines, i, block) && block != []
    ensures i < |lines| && lines[i] == block[0]
  {
    assert lines[i + 0] == block[0];
  }

  lemma AtSplit(lines: seq<string>, i: nat, a: seq<string>, b: seq<string>)
    requires At(lines, i, a + b)
    ensures At(lines, i, a) && At(lines, i + |a|, b)
  {
    forall k | 0 <= k < |a| ensures lines[i + k] == a[k] { assert (a + b)[k] == a[k]; }
    forall k | 0 <= k < |b| ensures lines[i + |a| + k] == b[k] { assert (a + b)[|a| + k] == b[k]; }
  }

  /** Lines that start with something else than a star or an at sign start no section. */
  lemma BodyLine(line: string)
    requires line != "" && line[0] != '*' && line[0] != '@'
    ensures !IsHeader(line) && !(HUNK <= line) && line != END_OF_FILE && line != END && !(MOVE <= line)
  {
  }

  lemma {:induction false} AddedReadBack(lines: seq<string>, i: nat, content: seq<string>)
    requires At(lines, i, RenderAdded(content)) && HeaderAt(lines, i + |content|)
    ensures AddLines(lines, i) == Parsed(content, i + |content|)
    decreases |content|
  {
    if content != [] {
      var line := "+" + content[0];
      assert RenderAdded(content)[0] == line && lines[i + 0] == line;
      BodyLine(line);
      assert "+" <= line && line[1..] == content[0];
      forall k | 0 <= k < |content| - 1 ensures lines[i + 1 + k] == RenderAdded(content[1..])[k] {
        assert lines[i + (k + 1)] == RenderAdded(content)[k + 1];
      }
      AddedReadBack(lines, i + 1, content[1..]);
      assert content == [content[0]] + content[1..];
    }
  }

  lemma {:induction false} DiffReadBack(lines: seq<string>, i: nat, ds: seq<DiffLine>)
    requires forall k :: 0 <= k < |ds| ==> ds[k].kind == ' ' || ds[k].kind == '+' || ds[k].kind == '-'
    requires At(lines, i, RenderDiff(ds)) && (HeaderAt(lines, i + |ds|) || HUNK <= lines[i + |ds|])
    ensures HunkLines(lines, i) == Parsed(ds, i + |ds|)
    decreases |ds|
  {
    if ds != [] {
      var line := [ds[0].kind] + ds[0].text;
      assert RenderDiff(ds)[0] == line && lines[i + 0] == line;
      BodyLine(line);
      assert line[0] == ds[0].kind && line[1..] == ds[0].text;
      forall k | 0 <= k < |ds| - 1 ensures lines[i + 1 + k] == RenderDiff(ds[1..])[k] {
        assert lines[i + (k + 1)] == RenderDiff(ds)[k + 1];
      }
      DiffReadBack(lines, i + 1, ds[1..]);
      assert ds == [ds[0]] + ds[1..];
    }
  }

  lemma HunkReadBack(lines: seq<string>, i: nat, h: UpdateHunk)
    requires IsHunk(h) && At(lines, i, [HUNK] + RenderDiff(h.lines))
    requires var e := i + 1 + |h.lines|; HeaderAt(lines, e) || HUNK <= lines[e]
    ensures Hunk(lines, i) == Parsed(UpdateHunk(h.lines, i + 1), i + 1 + |h.lines|)
  {
    AtSplit(lines, i, [HUNK], RenderDiff(h.lines));
    AtFirst(lines, i, [HUNK] + RenderDiff(h.lines));
    DiffReadBack(lines, i + 1, h.lines);
  }

  lemma HunkIsNoHeader()
    ensures !IsHeader(HUNK) && !(MOVE <= HUNK)
  {
  }

  lemma {:induction false} HunksReadBack(lines: seq<string>, i: nat,
          hunks: seq<UpdateHunk>) returns (read: seq<UpdateHunk>)
    requires forall k :: 0 <= k < |hunks| ==> IsHunk(hunks[k])
    requires At(lines, i, RenderHunks(hunks)) && HeaderAt(lines, i + |RenderHunks(hunks)|)
    ensures Hunks(lines, i) == Parsed(read, i + |RenderHunks(hunks)|)
    ensures |read| == |hunks| && forall k :: 0 <= k < |hunks| ==> read[k].lines == hunks[k].lines
    decreases |hunks|
  {
    if hunks == [] {
      read := [];
    } else {
      var h := hunks[0];
      var first, rest := [HUNK] + RenderDiff(h.lines), RenderHunks(hunks[1..]);
      AtSplit(lines, i, first, rest);
      assert lines[i + 0] == first[0];
      HunkIsNoHeader();
      if |hunks| > 1 {
        assert rest[0] == HUNK;
        assert lines[i + |first| + 0] == rest[0];
      }
      HunkReadBack(lines, i, h);
      var more := HunksReadBack(lines, i + |first|, hunks[1..]);
      read := [UpdateHunk(h.lines, i + 1)] + more;
    }
  }

  lemma PrefixRest(prefix: string, rest: string)
    ensures prefix <= prefix + rest && (prefix + rest)[|prefix|..] == rest
  {
  }

  /** The header keywords differ at their fifth character. */
  lemma Keywords(path: string)
    ensures !(DELETE <= UPDATE + path) && !(ADD <= UPDATE + path) && !(ADD <= DELETE + path)
    ensures ADD + path != END && DELETE + path != END && UPDATE + path != END
    ensures IsHeader(ADD + path) && IsHeader(DELETE + path) && IsHeader(UPDATE + path) && !IsHeader(MOVE + path)
  {
    assert (UPDATE + path)[4] == 'U' && (DELETE + path)[4] == 'D' && (ADD + path)[4] == 'A' && (MOVE + path)[4] == 'M';
    assert ADD[4] == 'A' && DELETE[4] == 'D' && UPDATE[4] == 'U' && END[4] == 'E';
    forall line: string, p: string | p <= line && |p| > 4 ensures line[4] == p[4] {
    }
  }

  lemma AddReadBack(lines: seq<string>, i: nat, op: Operation)
    requires op.AddFile? && At(lines, i, RenderOperation(op)) && HeaderAt(lines, i + |RenderOperation(op)|)
    ensures OneOperation(lines, i) == Parsed(op, i + |RenderOperation(op)|)
  {
    AtSplit(lines, i, [ADD + op.path], RenderAdded(op.lines));
    AtFirst(lines, i, RenderOperation(op));
    PrefixRest(ADD, op.path);
    AddedReadBack(lines, i + 1, op.lines);
  }

  lemma DeleteReadBack(lines: seq<string>, i: nat, op: Operation)
    requires op.DeleteFile? && At(lines, i, RenderOperation(op))
    ensures OneOperation(lines, i) == Parsed(op, i + |RenderOperation(op)|)
  {
    AtFirst(lines, i, RenderOperation(op));
    PrefixRest(DELETE, op.path);
    Keywords(op.path);
  }

  lemma UpdateReadBack(lines: seq<string>, i: nat, op: Operation) returns (hunks: seq<UpdateHunk>)
    requires op.UpdateFile? && IsOperation(op)
    requires At(lines, i, RenderOperation(op)) && HeaderAt(lines, i + |RenderOperation(op)|)
    ensures i < |lines| && lines[i] == UPDATE + op.path && UPDATE <= lines[i]
    ensures UpdateOperation(lines, i) == Parsed(op.(hunks := hunks), i + |RenderOperation(op)|)
    ensures |hunks| == |op.hunks| && forall k :: 0 <= k < |hunks| ==> hunks[k].lines == op.hunks[k].lines
  {
    var head := [UPDATE + op.path];
    var move := if op.moveTo.Some? then [MOVE + op.moveTo.value] else [];
    AtSplit(lines, i, head + move, RenderHunks(op.hunks));
    AtSplit(lines, i, head, move);
    AtFirst(lines, i, head);
    PrefixRest(UPDATE, op.path);
    if op.moveTo.Some? {
      assert lines[i + 1 + 0] == move[0];
      PrefixRest(MOVE, op.moveTo.value);
    } else {
      NoMoveHere(lines, i + 1, op.hunks);
    }
    hunks := HunksReadBack(lines, i + |head + move|, op.hunks);
  }

  /** Without a move, what follows the update header is a hunk. */
  lemma NoMoveHere(lines: seq<string>, i: nat, hunks: seq<UpdateHunk>)
    requires hunks != [] && At(lines, i, RenderHunks(hunks))
    ensures i < |lines| && !(MOVE <= lines[i])
  {
    assert RenderHunks(hunks)[0] == HUNK;
    assert lines[i + 0] == HUNK;
    HunkIsNoHeader();
  }

  lemma OperationReadBack(lines: seq<string>, i: nat, op: Operation) returns (read: Operation)
    requires IsOperation(op) && At(lines, i, RenderOperation(op)) && HeaderAt(lines, i + |RenderOperation(op)|)
    ensures OneOperation(lines, i) == Parsed(read, i + |RenderOperation(op)|)
    ensures Unplaced(read) == Unplaced(op)
  {
    if op.UpdateFile? {
      var hunks := UpdateReadBack(lines, i, op);
      Keywords(op.path);
      read := op.(hunks := hunks);
    } else {
      if op.AddFile? {
        AddReadBack(lines, i, op);
      } else {
        DeleteReadBack(lines, i, op);
      }
      read := op;
    }
  }

  lemma RenderedStart(ops: seq<Operation>)
    ensures RenderOperations(ops) != [] && IsHeader(RenderOperations(ops)[0])
    ensures ops != [] ==> RenderOperations(ops)[0] != END
  {
    if ops != [] {
      Keywords(ops[0].path);
      assert RenderOperations(ops)[0] == RenderOperation(ops[0])[0];
    }
  }

  lemma {:induction false} OperationsReadBack(lines: seq<string>, i: nat,
          ops: seq<Operation>) returns (read: seq<Operation>)
    requires AreOperations(ops) && At(lines, i, RenderOperations(ops))
    ensures Operations(lines, i).Parsed? && Operations(lines, i).value == read && SameUnplaced(read, ops)
    decreases |ops|
  {
    RenderedStart(ops);
    assert lines[i + 0] == RenderOperations(ops)[0];
    if ops == [] {
      read := [];
    } else {
      var first, rest := RenderOperation(ops[0]), RenderOperations(ops[1..]);
      AtSplit(lines, i, first, rest);
      RenderedStart(ops[1..]);
      assert lines[i + |first| + 0] == rest[0];
      var one := OperationReadBack(lines, i, ops[0]);
      var more := OperationsReadBack(lines, i + |first|, ops[1..]);
      read := [one] + more;
      forall k | 0 <= k < |ops| ensures Unplaced(read[k]) == Unplaced(ops[k]) {
        assert k > 0 ==> ops[k] == ops[1..][k - 1] && read[k] == more[k - 1];
      }
    }
  }

  /** Parsing the canonical rendering of any well-formed operation list gives that list, up to
      the line numbers at which the hunks stand. */
  lemma RenderedPatchIsReadBack(ops: seq<Operation>)
    requires AreOperations(ops)
    ensures ParsePatch(RenderPatch(ops)).Parsed? && SameUnplaced(ParsePatch(RenderPatch(ops)).value, ops)
  {
    var lines := RenderPatch(ops);
    assert lines[0] == BEGIN;
    forall k | 0 <= k < |RenderOperations(ops)| ensures lines[1 + k] == RenderOperations(ops)[k] {
    }
    var read := OperationsReadBack(lines, 1, ops);
  }

  // ----- what the parser accepts -----

  lemma {:induction false} HunkLinesHaveKinds(lines: seq<string>, i: nat)
    requires HunkLines(lines, i).Parsed?
    ensures var ds := HunkLines(lines, i).value;
      forall k :: 0 <= k < |ds| ==> ds[k].kind == ' ' || ds[k].kind == '+' || ds[k].kind == '-'
    decreases |lines| - i
  {
    if i < |lines| && !IsHeader(lines[i]) && !(HUNK <= lines[i]) {
      HunkLinesHaveKinds(lines, i + 1);
    }
  }

  lemma HunkIsHunk(lines: seq<string>, start: nat)
    requires start < |lines| && Hunk(lines, start).Parsed?
    ensures IsHunk(Hunk(lines, start).value)
  {
    HunkLinesHaveKinds(lines, if HUNK <= lines[start] then start + 1 else start);
  }

  lemma {:induction false} HunksAreHunks(lines: seq<string>, i: nat)
    requires Hunks(lines, i).Parsed?
    ensures var hs := Hunks(lines, i).value; forall k :: 0 <= k < |hs| ==> IsHunk(hs[k])
    decreases |lines| - i
  {
    if i < |lines| && !IsHeader(lines[i]) {
      HunkIsHunk(lines, i);
      HunksAreHunks(lines, Hunk(lines, i).next);
    }
  }

  lemma OneIsOperation(lines: seq<string>, i: nat)
    requires i < |lines| && OneOperation(lines, i).Parsed?
    ensures IsOperation(OneOperation(lines, i).value)
  {
    if !(ADD <= lines[i]) && !(DELETE <= lines[i]) && UPDATE <= lines[i] {
      HunksAreHunks(lines, if i + 1 < |lines| && MOVE <= lines[i + 1] then i + 2 else i + 1);
    }
  }

  lemma {:induction false} OperationsAreOperations(lines: seq<string>, i: nat)
    requires Operations(lines, i).Parsed?
    ensures AreOperations(Operations(lines, i).value)
    decreases |lines| - i
  {
    if i < |lines| && lines[i] != END {
      OneIsOperation(lines, i);
      OperationsAreOperations(lines, OneOperation(lines, i).next);
    }
  }

  /** Whatever is accepted is well formed, so its canonical rendering is accepted too and means
      the same operations. */
  lemma AcceptedPatchHasCanonicalForm(lines: seq<string>)
    requires ParsePatch(lines).Parsed?
    ensures var ops := ParsePatch(lines).value;
      AreOperations(ops) && ParsePatch(RenderPatch(ops)).Parsed? && SameUnplaced(ParsePatch(RenderPatch(ops)).value, ops)
  {
    OperationsAreOperations(lines, 1);
    RenderedPatchIsReadBack(ParsePatch(lines).value);
  }
}
