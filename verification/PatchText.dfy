/** Texts as lines and back, and what that means for an update of a file and for undoing it. */
module PatchText {
  import opened Options
  import opened PatchParser
  import opened PatchHunks

  /** The characters at which str.splitlines ends a line. */
  predicate IsSeparator(c: char) {
    c as int in {10, 11, 12, 13, 28, 29, 30, 0x85, 0x2028, 0x2029}
  }

  function SeparatorLength(text: string): (n: nat)
    requires text != "" && IsSeparator(text[0])
    ensures 1 <= n <= |text|
  {
    if text[0] == '\r' && |text| > 1 && text[1] == '\n' then 2 else 1
  }

  function InFront(c: char, lines: seq<string>): seq<string> {
    if lines == [] then [[c]] else [[c] + lines[0]] + lines[1..]
  }

  function SplitLines(text: string): seq<string> {
    if text == "" then []
    else if IsSeparator(text[0]) then [""] + SplitLines(text[SeparatorLength(text)..])
    else InFront(text[0], SplitLines(text[1..]))
  }

  function WithLfs(lines: seq<string>): string {
    if lines == [] then "" else if |lines| == 1 then lines[0] else lines[0] + "\n" + WithLfs(lines[1..])
  }

  function JoinLines(lines: seq<string>, trailing: bool): string {
    if lines == [] then "" else WithLfs(lines) + if trailing then "\n" else ""
  }

  predicate EndsWithLf(text: string) {
    text != "" && text[|text| - 1] == '\n'
  }

  /** Its only line separator is the line feed. */
  ghost predicate LfOnly(text: string) {
    forall k :: 0 <= k < |text| && IsSeparator(text[k]) ==> text[k] == '\n'
  }

  ghost predicate CleanLine(line: string) {
    forall k :: 0 <= k < |line| ==> !IsSeparator(line[k])
  }

  ghost predicate Clean(lines: seq<string>) {
    forall k :: 0 <= k < |lines| ==> CleanLine(lines[k])
  }

  lemma {:induction false} SplitIsClean(text: string)
    ensures Clean(SplitLines(text))
    decreases |text|
  {
    if text != "" {
      if IsSeparator(text[0]) {
        SplitIsClean(text[SeparatorLength(text)..]);
      } else {
        SplitIsClean(text[1..]);
        var rest := SplitLines(text[1..]);
        assert rest != [] ==> CleanLine(rest[0]);
      }
    }
  }

  lemma {:induction false} WithLfsIsLfOnly(lines: seq<string>)
    requires Clean(lines)
    ensures LfOnly(WithLfs(lines))
    decreases |lines|
  {
    if |lines| == 1 {
      assert CleanLine(lines[0]);
    } else if |lines| > 1 {
      assert CleanLine(lines[0]);
      WithLfsIsLfOnly(lines[1..]);
    }
  }

  lemma JoinIsLfOnly(lines: seq<string>, trailing: bool)
    requires Clean(lines)
    ensures LfOnly(JoinLines(lines, trailing))
  {
    WithLfsIsLfOnly(lines);
  }

  lemma JoinInFront(c: char, lines: seq<string>, trailing: bool)
    requires lines != []
    ensures JoinLines(InFront(c, lines), trailing) == [c] + JoinLines(lines, trailing)
  {
    var more := InFront(c, lines);
    assert more[1..] == lines[1..];
    assert WithLfs(more) == [c] + WithLfs(lines);
  }

  lemma JoinEmptyFirst(lines: seq<string>, trailing: bool)
    requires lines != []
    ensures JoinLines([""] + lines, trailing) == "\n" + JoinLines(lines, trailing)
  {
    var more := [""] + lines;
    assert more[1..] == lines && more[0] == "";
    assert WithLfs(more) == "\n" + WithLfs(lines);
  }

  lemma SplitNotEmpty(text: string)
    requires text != ""
    ensures SplitLines(text) != []
  {
  }

  lemma {:induction false} LfTextSurvives(text: string)
    requires LfOnly(text)
    ensures JoinLines(SplitLines(text), EndsWithLf(text)) == text
    decreases |text|
  {
    if text != "" {
      var rest := text[1..];
      assert IsSeparator(text[0]) ==> text[0] == '\n';
      LfTextSurvives(rest);
      if rest == "" {
        assert text == [text[0]];
        if IsSeparator(text[0]) {
          assert SplitLines(text) == [""] + SplitLines(rest);
          assert JoinLines([""], true) == "\n";
        }
      } else {
        SplitNotEmpty(rest);
        assert text == [text[0]] + rest && EndsWithLf(text) == EndsWithLf(rest);
        if IsSeparator(text[0]) {
          JoinEmptyFirst(SplitLines(rest), EndsWithLf(rest));
        } else {
          JoinInFront(text[0], SplitLines(rest), EndsWithLf(rest));
        }
      }
    }
  }

  /** Splitting a text and joining its lines again gives the text exactly when the line feed is
      its only separator; a CRLF file, for one, does not survive. */
  lemma TextSurvivesIff(text: string)
    ensures JoinLines(SplitLines(text), EndsWithLf(text)) == text <==> LfOnly(text)
  {
    SplitIsClean(text);
    JoinIsLfOnly(SplitLines(text), EndsWithLf(text));
    if LfOnly(text) {
      LfTextSurvives(text);
    }
  }

  // ----- lines written and read again -----

  lemma {:induction false} SplitOneLine(line: string)
    requires CleanLine(line)
    ensures SplitLines(line) == if line == "" then [] else [line]
    decreases |line|
  {
    if line != "" {
      assert CleanLine(line[1..]);
      SplitOneLine(line[1..]);
      assert line == [line[0]] + line[1..];
      assert line[1..] == "" ==> line == [line[0]];
    }
  }

  lemma {:induction false} SplitFirstLine(line: string, rest: string)
    requires CleanLine(line)
    ensures SplitLines(line + "\n" + rest) == [line] + SplitLines(rest)
    decreases |line|
  {
    var text := line + "\n" + rest;
    if line == "" {
      assert text[0] == '\n' && text[1..] == rest;
    } else {
      assert CleanLine(line[1..]);
      SplitFirstLine(line[1..], rest);
      assert text[1..] == line[1..] + "\n" + rest && text[0] == line[0];
      assert line == [line[0]] + line[1..];
    }
  }

  lemma {:induction false} SplitWithLfs(lines: seq<string>, trailing: bool)
    requires Clean(lines) && lines != []
    ensures SplitLines(JoinLines(lines, trailing)) ==
      if trailing || lines[|lines| - 1] != "" then lines else lines[..|lines| - 1]
    decreases |lines|
  {
    assert CleanLine(lines[0]);
    if |lines| == 1 {
      if trailing {
        assert JoinLines(lines, true) == lines[0] + "\n" + "";
        SplitFirstLine(lines[0], "");
      } else {
        assert JoinLines(lines, false) == lines[0];
        SplitOneLine(lines[0]);
      }
      assert lines == [lines[0]] && lines[..0] == [];
    } else {
      SplitWithLfs(lines[1..], trailing);
      assert JoinLines(lines, trailing) == lines[0] + "\n" + JoinLines(lines[1..], trailing);
      SplitFirstLine(lines[0], JoinLines(lines[1..], trailing));
      assert lines == [lines[0]] + lines[1..];
      assert lines[..|lines| - 1] == [lines[0]] + lines[1..][..|lines| - 2];
    }
  }

  /** Lines that are written are the lines that are read again, exactly when a final line feed is
      written, or there are no lines, or the last line is not empty. */
  lemma LinesSurviveIff(lines: seq<string>, trailing: bool)
    requires Clean(lines)
    ensures SplitLines(JoinLines(lines, trailing)) == lines <==> trailing || lines == [] || lines[|lines| - 1] != ""
  {
    if lines != [] {
      SplitWithLfs(lines, trailing);
    }
  }

  // ----- an update and its undoing, on texts -----

  ghost predicate CleanHunk(h: UpdateHunk) {
    forall k :: 0 <= k < |h.lines| ==> CleanLine(h.lines[k].text)
  }

  lemma {:induction false} NewLinesAreClean(ds: seq<DiffLine>)
    requires forall k :: 0 <= k < |ds| ==> CleanLine(ds[k].text)
    ensures Clean(NewLines(ds))
    decreases |ds|
  {
    if ds != [] {
      NewLinesAreClean(ds[1..]);
    }
  }

  lemma CleanAppend(a: seq<string>, b: seq<string>)
    requires Clean(a) && Clean(b)
    ensures Clean(a + b)
  {
  }

  lemma CleanSlices(lines: seq<string>, i: nat, j: nat)
    requires Clean(lines) && i <= |lines| && j <= |lines|
    ensures Clean(lines[..i]) && Clean(lines[j..])
  {
  }

  lemma ReplacedIsClean(lines: seq<string>, i: nat, oldLines: seq<string>, newLines: seq<string>)
    requires Clean(lines) && Clean(newLines) && i + |oldLines| <= |lines|
    ensures Clean(Replaced(lines, i, oldLines, newLines))
  {
    CleanSlices(lines, i, i + |oldLines|);
    CleanAppend(lines[..i], newLines);
    CleanAppend(lines[..i] + newLines, lines[i + |oldLines|..]);
  }

  lemma StepKeepsClean(lines: seq<string>, h: UpdateHunk, after: seq<string>)
    requires Clean(lines) && CleanHunk(h) && Steps(lines, h.lines, after)
    ensures Clean(after)
  {
    NewLinesAreClean(h.lines);
    var r: Applied :| r.Applied? && r.lines == after && IsApplied(lines, h.lines, r);
    var i: nat :| OnlyMatch(lines, OldLines(h.lines), i) && after == Replaced(lines, i, OldLines(h.lines), NewLines(h.lines));
    ReplacedIsClean(lines, i, OldLines(h.lines), NewLines(h.lines));
  }

  lemma {:induction false} TraceIsClean(hunks: seq<UpdateHunk>, trace: seq<seq<string>>, k: nat)
    requires IsTrace(hunks, trace) && Clean(trace[0]) && k <= |hunks|
    requires forall j :: 0 <= j < |hunks| ==> CleanHunk(hunks[j])
    ensures Clean(trace[k])
    decreases k
  {
    if k > 0 {
      TraceIsClean(hunks, trace, k - 1);
      StepKeepsClean(trace[k - 1], hunks[k - 1], trace[k]);
    }
  }

  /** The text that an update writes. */
  function UpdatedText(original: string, lines: seq<string>): string {
    JoinLines(lines, EndsWithLf(original))
  }

  lemma UpdatedEnd(original: string, lines: seq<string>)
    requires Clean(lines) && lines != [] && (EndsWithLf(original) || lines[|lines| - 1] != "")
    ensures EndsWithLf(UpdatedText(original, lines)) == EndsWithLf(original)
  {
    if !EndsWithLf(original) {
      LastLineAtEnd(lines);
      assert CleanLine(lines[|lines| - 1]);
    }
  }

  lemma {:induction false} LastLineAtEnd(lines: seq<string>)
    requires lines != [] && lines[|lines| - 1] != ""
    ensures WithLfs(lines) != ""
    ensures var last, text := lines[|lines| - 1], WithLfs(lines); text[|text| - 1] == last[|last| - 1]
    decreases |lines|
  {
    if |lines| > 1 {
      LastLineAtEnd(lines[1..]);
    }
  }

  lemma ReachesClean(lines: seq<string>, hunks: seq<UpdateHunk>, after: seq<string>)
    requires Reaches(lines, hunks, after) && Clean(lines)
    requires forall j :: 0 <= j < |hunks| ==> CleanHunk(hunks[j])
    ensures Clean(after)
  {
    var trace: seq<seq<string>> :| IsTrace(hunks, trace) && trace[0] == lines && trace[|hunks|] == after;
    TraceIsClean(hunks, trace, |hunks|);
  }

  /** Undoing needs lines to match, so the update left some. */
  lemma SomethingLeft(hunks: seq<UpdateHunk>, after: seq<string>, back: seq<string>)
    requires Reaches(after, Undoing(hunks), back) && hunks != []
    ensures after != []
  {
    var undo := Undoing(hunks);
    var trace: seq<seq<string>> :| IsTrace(undo, trace) && trace[0] == after && trace[|undo|] == back;
    assert Steps(trace[0], undo[0].lines, trace[1]);
    var r: Applied :| r.Applied? && r.lines == trace[1] && IsApplied(trace[0], undo[0].lines, r);
    var i: nat :| OnlyMatch(trace[0], OldLines(undo[0].lines), i);
  }

  lemma NoHunksNoChange(lines: seq<string>, after: seq<string>)
    requires Reaches(lines, [], after)
    ensures after == lines
  {
  }

  /** On a file whose only separator is the line feed, an update followed by its undoing restores
      the text to the byte, unless the update left an empty last line without a final line feed. */
  lemma UpdateIsUndone(original: string, hunks: seq<UpdateHunk>, after: seq<string>, back: seq<string>)
    requires LfOnly(original) && forall j :: 0 <= j < |hunks| ==> CleanHunk(hunks[j])
    requires Reaches(SplitLines(original), hunks, after)
    requires EndsWithLf(original) || after == [] || after[|after| - 1] != ""
    requires Reaches(SplitLines(UpdatedText(original, after)), Undoing(hunks), back)
    ensures UpdatedText(UpdatedText(original, after), back) == original
  {
    SplitIsClean(original);
    ReachesClean(SplitLines(original), hunks, after);
    LinesSurviveIff(after, EndsWithLf(original));
    SwappedHunksRestore(SplitLines(original), hunks, after, back);
    TextSurvivesIff(original);
    if hunks == [] {
      NoHunksNoChange(SplitLines(original), after);
    } else {
      SomethingLeft(hunks, after, back);
      UpdatedEnd(original, after);
    }
  }

  // ----- what a parsed patch brings -----

  lemma {:induction false} ParsedLinesAreClean(lines: seq<string>, i: nat)
    requires Clean(lines) && HunkLines(lines, i).Parsed?
    ensures var ds := HunkLines(lines, i).value; forall k :: 0 <= k < |ds| ==> CleanLine(ds[k].text)
    decreases |lines| - i
  {
    if i < |lines| && !IsHeader(lines[i]) && !(HUNK <= lines[i]) {
      ParsedLinesAreClean(lines, i + 1);
      assert CleanLine(lines[i]);
      assert lines[i] != "" ==> CleanLine(lines[i][1..]);
    }
  }

  lemma {:induction false} ParsedHunksAreClean(lines: seq<string>, i: nat)
    requires Clean(lines) && Hunks(lines, i).Parsed?
    ensures var hs := Hunks(lines, i).value; forall k :: 0 <= k < |hs| ==> CleanHunk(hs[k])
    decreases |lines| - i
  {
    if i < |lines| && !IsHeader(lines[i]) {
      ParsedLinesAreClean(lines, if HUNK <= lines[i] then i + 1 else i);
      ParsedHunksAreClean(lines, Hunk(lines, i).next);
    }
  }

  /** No path or line of the operation carries a line separator. */
  ghost predicate CleanOperation(op: Operation) {
    && CleanLine(op.path)
    && (op.AddFile? ==> Clean(op.lines))
    && (op.UpdateFile? ==> (op.moveTo.Some? ==> CleanLine(op.moveTo.value)))
    && (op.UpdateFile? ==> forall j :: 0 <= j < |op.hunks| ==> CleanHunk(op.hunks[j]))
  }

  lemma RestIsClean(line: string, prefix: string)
    requires CleanLine(line) && prefix <= line
    ensures CleanLine(line[|prefix|..])
  {
  }

  lemma {:induction false} ParsedContentIsClean(lines: seq<string>, i: nat)
    requires Clean(lines) && AddLines(lines, i).Parsed?
    ensures Clean(AddLines(lines, i).value)
    decreases |lines| - i
  {
    if i < |lines| && !IsHeader(lines[i]) {
      ParsedContentIsClean(lines, i + 1);
      RestIsClean(lines[i], "+");
    }
  }

  lemma ParsedOperationIsClean(lines: seq<string>, i: nat)
    requires Clean(lines) && i < |lines| && OneOperation(lines, i).Parsed?
    ensures CleanOperation(OneOperation(lines, i).value)
  {
    assert CleanLine(lines[i]);
    if ADD <= lines[i] {
      RestIsClean(lines[i], ADD);
      ParsedContentIsClean(lines, i + 1);
    } else if DELETE <= lines[i] {
      RestIsClean(lines[i], DELETE);
    } else {
      RestIsClean(lines[i], UPDATE);
      if i + 1 < |lines| && MOVE <= lines[i + 1] {
        RestIsClean(lines[i + 1], MOVE);
        ParsedHunksAreClean(lines, i + 2);
      } else {
        ParsedHunksAreClean(lines, i + 1);
      }
    }
  }

  lemma {:induction false} ParsedOperationsAreClean(lines: seq<string>, i: nat)
    requires Clean(lines) && Operations(lines, i).Parsed?
    ensures var ops := Operations(lines, i).value; forall k :: 0 <= k < |ops| ==> CleanOperation(ops[k])
    decreases |lines| - i
  {
    if i < |lines| && lines[i] != END {
      ParsedOperationIsClean(lines, i);
      ParsedOperationsAreClean(lines, OneOperation(lines, i).next);
    }
  }

  /** The operations of a patch text carry no line separators, so they meet what undoing needs. */
  lemma PatchOperationsAreClean(patch: string)
    requires ParsePatch(SplitLines(patch)).Parsed?
    ensures var ops := ParsePatch(SplitLines(patch)).value; forall k :: 0 <= k < |ops| ==> CleanOperation(ops[k])
  {
    SplitIsClean(patch);
    ParsedOperationsAreClean(SplitLines(patch), 1);
  }

  // ----- a rendered patch as a text -----

  lemma PrefixedIsClean(prefix: string, line: string)
    requires CleanLine(prefix) && CleanLine(line)
    ensures CleanLine(prefix + line)
  {
  }

  lemma {:induction false} RenderedHunksAreClean(hunks: seq<UpdateHunk>)
    requires forall k :: 0 <= k < |hunks| ==> CleanHunk(hunks[k]) && IsHunk(hunks[k])
    ensures Clean(RenderHunks(hunks))
    decreases |hunks|
  {
    if hunks != [] {
      RenderedHunksAreClean(hunks[1..]);
      var ds := hunks[0].lines;
      assert CleanHunk(hunks[0]);
      forall k | 0 <= k < |ds| ensures CleanLine(RenderDiff(ds)[k]) {
        PrefixedIsClean([ds[k].kind], ds[k].text);
      }
      CleanAppend([HUNK], RenderDiff(ds));
      CleanAppend([HUNK] + RenderDiff(ds), RenderHunks(hunks[1..]));
    }
  }

  lemma RenderedOperationIsClean(op: Operation)
    requires CleanOperation(op) && IsOperation(op)
    ensures Clean(RenderOperation(op))
  {
    match op
    case AddFile(path, content) =>
      PrefixedIsClean(ADD, path);
      forall k | 0 <= k < |content| ensures CleanLine(RenderAdded(content)[k]) {
        PrefixedIsClean("+", content[k]);
      }
      CleanAppend([ADD + path], RenderAdded(content));
    case DeleteFile(path) => PrefixedIsClean(DELETE, path);
    case UpdateFile(path, moveTo, hunks) =>
      PrefixedIsClean(UPDATE, path);
      RenderedHunksAreClean(hunks);
      if moveTo.Some? {
        PrefixedIsClean(MOVE, moveTo.value);
        CleanAppend([UPDATE + path], [MOVE + moveTo.value]);
        CleanAppend([UPDATE + path] + [MOVE + moveTo.value], RenderHunks(hunks));
      } else {
        assert [UPDATE + path] + [] == [UPDATE + path];
        CleanAppend([UPDATE + path], RenderHunks(hunks));
      }
  }

  lemma {:induction false} RenderedOperationsAreClean(ops: seq<Operation>)
    requires AreOperations(ops) && forall k :: 0 <= k < |ops| ==> CleanOperation(ops[k])
    ensures Clean(RenderOperations(ops)) && RenderOperations(ops) != []
    ensures RenderOperations(ops)[|RenderOperations(ops)| - 1] == END
    decreases |ops|
  {
    if ops != [] {
      RenderedOperationIsClean(ops[0]);
      RenderedOperationsAreClean(ops[1..]);
      CleanAppend(RenderOperation(ops[0]), RenderOperations(ops[1..]));
    }
  }

  /** Parsing the text of the canonical rendering of any well-formed operations without line
      separators in them gives those operations, with or without a final line feed. */
  lemma RenderedTextIsReadBack(ops: seq<Operation>, trailing: bool)
    requires AreOperations(ops) && forall k :: 0 <= k < |ops| ==> CleanOperation(ops[k])
    ensures var read := ParsePatch(SplitLines(JoinLines(RenderPatch(ops), trailing)));
      read.Parsed? && SameUnplaced(read.value, ops)
  {
    RenderedOperationsAreClean(ops);
    CleanAppend([BEGIN], RenderOperations(ops));
    LinesSurviveIff(RenderPatch(ops), trailing);
    RenderedPatchIsReadBack(ops);
  }

  /** Every patch text that is accepted means the same as its canonical text. */
  lemma AcceptedTextHasCanonicalForm(patch: string)
    requires ParsePatch(SplitLines(patch)).Parsed?
    ensures var ops := ParsePatch(SplitLines(patch)).value;
      var read := ParsePatch(SplitLines(JoinLines(RenderPatch(ops), true)));
      read.Parsed? && SameUnplaced(read.value, ops)
  {
    PatchOperationsAreClean(patch);
    AcceptedPatchHasCanonicalForm(SplitLines(patch));
    RenderedTextIsReadBack(ParsePatch(SplitLines(patch)).value, true);
  }

  /** Every hunk that the parser accepts has lines to find its place by. */
  lemma ParsedHunkIsAnchored(h: UpdateHunk)
    requires IsHunk(h)
    ensures OldLines(h.lines) != []
  {
    assert HasLine(h.lines, '-') || HasLine(h.lines, ' ');
    var k :| 0 <= k < |h.lines| && h.lines[k].kind != '+';
    OldLineKept(h.lines, k);
  }

  lemma {:induction false} OldLineKept(ds: seq<DiffLine>, k: nat)
    requires k < |ds| && ds[k].kind != '+'
    ensures OldLines(ds) != []
    decreases |ds|
  {
    if k > 0 {
      OldLineKept(ds[1..], k - 1);
    }
  }
}
