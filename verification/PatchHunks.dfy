/** Applying the hunks of an update: every hunk must match at exactly one place, and what a
    list of hunks did is undone by the swapped hunks in reverse order. Lines and their text. */
module PatchHunks {
  import opened PatchParser

  // ----- matching -----

  /** The needle stands in the lines at this index. */
  predicate MatchAt(lines: seq<string>, needle: seq<string>, i: nat) {
    i + |needle| <= |lines| && lines[i..i + |needle|] == needle
  }

  ghost predicate AreMatches(lines: seq<string>, needle: seq<string>, matches: seq<nat>) {
    && (forall i: nat :: i in matches <==> needle != [] && MatchAt(lines, needle, i))
    && (forall j, k :: 0 <= j < k < |matches| ==> matches[j] < matches[k])
  }

  /** All places where the needle stands, in order; none for an empty needle. */
  method FindSequenceMatches(lines: seq<string>, needle: seq<string>) returns (matches: seq<nat>)
    ensures AreMatches(lines, needle, matches)
  {
    matches := [];
    if needle == [] || |lines| - |needle| + 1 < 0 {
      return;
    }
    var maxStart: nat := |lines| - |needle| + 1;
    var index := 0;
    while index < maxStart + 1
      invariant 0 <= index <= maxStart + 1
      invariant forall i: nat :: i in matches <==> i < index && MatchAt(lines, needle, i)
      invariant forall j, k :: 0 <= j < k < |matches| ==> matches[j] < matches[k]
    {
      var end := if index + |needle| <= |lines| then index + |needle| else |lines|;
      if index <= |lines| && lines[index..end] == needle {
        forall j | 0 <= j < |matches| ensures matches[j] < index {
          assert matches[j] in matches;
        }
        matches := matches + [index];
      }
      index := index + 1;
    }
  }

  // ----- one hunk -----

  /** The lines a hunk expects: everything but the added ones. */
  function OldLines(ds: seq<DiffLine>): seq<string> {
    if ds == [] then [] else (if ds[0].kind != '+' then [ds[0].text] else []) + OldLines(ds[1..])
  }

  /** The lines a hunk leaves: everything but the removed ones. */
  function NewLines(ds: seq<DiffLine>): seq<string> {
    if ds == [] then [] else (if ds[0].kind != '-' then [ds[0].text] else []) + NewLines(ds[1..])
  }

  datatype Applied = Applied(lines: seq<string>, cursor: nat) | ContextNotFound | Ambiguous

  /** The one place where the needle stands, if there is exactly one. */
  ghost predicate OnlyMatch(lines: seq<string>, needle: seq<string>, i: nat) {
    needle != [] && MatchAt(lines, needle, i) && forall j: nat :: MatchAt(lines, needle, j) ==> j == i
  }

  function Replaced(lines: seq<string>, i: nat, oldLines: seq<string>, newLines: seq<string>): seq<string>
    requires i + |oldLines| <= |lines|
  {
    lines[..i] + newLines + lines[i + |oldLines|..]
  }

  ghost predicate IsAmbiguous(lines: seq<string>, needle: seq<string>) {
    exists i: nat, j: nat :: i < j && MatchAt(lines, needle, i) && MatchAt(lines, needle, j)
  }

  ghost predicate IsApplied(lines: seq<string>, ds: seq<DiffLine>, r: Applied) {
    match r
    case Applied(after, cursor) =>
      exists i: nat :: OnlyMatch(lines, OldLines(ds), i)
        && after == Replaced(lines, i, OldLines(ds), NewLines(ds)) && cursor == i + |NewLines(ds)|
    case ContextNotFound => OldLines(ds) == [] || forall i: nat :: !MatchAt(lines, OldLines(ds), i)
    case Ambiguous => OldLines(ds) != [] && IsAmbiguous(lines, OldLines(ds))
  }

  /** Replace the one place where the hunk's old lines stand; no place and several places are
      errors. */
  method ApplyHunk(lines: seq<string>, ds: seq<DiffLine>) returns (r: Applied)
    ensures IsApplied(lines, ds, r)
  {
    var oldLines, newLines := OldLines(ds), NewLines(ds);
    var matches := FindSequenceMatches(lines, oldLines);
    if matches == [] {
      forall i: nat | oldLines != [] ensures !MatchAt(lines, oldLines, i) {
        assert i !in matches;
      }
      return ContextNotFound;
    }
    assert matches[0] in matches;
    if |matches| != 1 {
      assert matches[1] in matches;
      return Ambiguous;
    }
    var at := matches[0];
    forall j: nat | MatchAt(lines, oldLines, j) ensures j == at {
      assert j in matches;
    }
    r := Applied(lines[..at] + newLines + lines[at + |oldLines|..], at + |newLines|);
    assert OnlyMatch(lines, oldLines, at) && r.lines == Replaced(lines, at, oldLines, newLines);
  }

  // ----- swapping -----

  function SwapKind(kind: char): char {
    if kind == '+' then '-' else if kind == '-' then '+' else kind
  }

  function Swapped(ds: seq<DiffLine>): seq<DiffLine> {
    seq(|ds|, k requires 0 <= k < |ds| => DiffLine(SwapKind(ds[k].kind), ds[k].text))
  }

  lemma {:induction false} SwappedLines(ds: seq<DiffLine>)
    ensures OldLines(Swapped(ds)) == NewLines(ds) && NewLines(Swapped(ds)) == OldLines(ds)
    decreases |ds|
  {
    if ds != [] {
      SwappedLines(ds[1..]);
      assert Swapped(ds)[1..] == Swapped(ds[1..]);
    }
  }

  lemma ReplacedBack(lines: seq<string>, i: nat, oldLines: seq<string>, newLines: seq<string>)
    requires MatchAt(lines, oldLines, i)
    ensures MatchAt(Replaced(lines, i, oldLines, newLines), newLines, i)
    ensures Replaced(Replaced(lines, i, oldLines, newLines), i, newLines, oldLines) == lines
  {
    var after := Replaced(lines, i, oldLines, newLines);
    assert after[..i] == lines[..i];
    assert after[i..i + |newLines|] == newLines;
    assert after[i + |newLines|..] == lines[i + |oldLines|..];
    assert lines == lines[..i] + lines[i..i + |oldLines|] + lines[i + |oldLines|..];
  }

  /** If a hunk applies and then its swapped form does, the lines are the old ones: the only
      place where the new lines stand is the one where the hunk put them. */
  lemma SwappedHunkRestores(lines: seq<string>, ds: seq<DiffLine>, r: Applied, back: Applied)
    requires IsApplied(lines, ds, r) && r.Applied?
    requires IsApplied(r.lines, Swapped(ds), back) && back.Applied?
    ensures back.lines == lines
  {
    SwappedLines(ds);
    var oldLines, newLines := OldLines(ds), NewLines(ds);
    var i: nat :| OnlyMatch(lines, oldLines, i) && r.lines == Replaced(lines, i, oldLines, newLines);
    var j: nat :| OnlyMatch(r.lines, newLines, j) && back.lines == Replaced(r.lines, j, newLines, oldLines);
    ReplacedBack(lines, i, oldLines, newLines);
  }

  /** When the swapped hunk applies: the hunk left some lines, and they stand nowhere else. */
  lemma SwappedHunkAppliesIff(lines: seq<string>, ds: seq<DiffLine>, r: Applied, back: Applied)
    requires IsApplied(lines, ds, r) && r.Applied?
    requires IsApplied(r.lines, Swapped(ds), back)
    ensures back.Applied? <==> NewLines(ds) != [] && forall j: nat :: MatchAt(r.lines, NewLines(ds), j) ==> j + |NewLines(ds)| == r.cursor
  {
    SwappedLines(ds);
    var oldLines, newLines := OldLines(ds), NewLines(ds);
    var i: nat :| OnlyMatch(lines, oldLines, i) && r.lines == Replaced(lines, i, oldLines, newLines) && r.cursor == i + |newLines|;
    ReplacedBack(lines, i, oldLines, newLines);
    if back.Applied? {
      var j: nat :| OnlyMatch(r.lines, newLines, j);
      assert j == i;
    } else if back.Ambiguous? {
      var k: nat, m: nat :| k < m && MatchAt(r.lines, newLines, k) && MatchAt(r.lines, newLines, m);
    }
  }

  // ----- all hunks of an update -----

  /** The lines before the first hunk and after each one. */
  ghost predicate IsTrace(hunks: seq<UpdateHunk>, trace: seq<seq<string>>) {
    && |trace| == |hunks| + 1
    && forall k :: 0 <= k < |hunks| ==> Steps(trace[k], hunks[k].lines, trace[k + 1])
  }

  ghost predicate Steps(lines: seq<string>, ds: seq<DiffLine>, after: seq<string>) {
    exists r: Applied :: r.Applied? && r.lines == after && IsApplied(lines, ds, r)
  }

  /** Applying the hunks one after the other leads from the first lines to the last. */
  ghost predicate Reaches(lines: seq<string>, hunks: seq<UpdateHunk>, after: seq<string>) {
    exists trace: seq<seq<string>> :: IsTrace(hunks, trace) && trace[0] == lines && trace[|hunks|] == after
  }

  /** The first hunks apply, and the next one does not match exactly once. */
  ghost predicate SticksAt(lines: seq<string>, hunks: seq<UpdateHunk>, index: nat)
    requires index < |hunks|
  {
    exists current: seq<string> :: Reaches(lines, hunks[..index], current) && IsStuck(current, hunks[index].lines)
  }

  datatype Updated = Updated(lines: seq<string>) | Refused(hunk: nat)

  /** Apply the hunks in order, each to the lines the one before it left. */
  method ApplyHunks(lines: seq<string>, hunks: seq<UpdateHunk>) returns (r: Updated)
    ensures r.Updated? ==> Reaches(lines, hunks, r.lines)
    ensures r.Refused? ==> r.hunk < |hunks| && SticksAt(lines, hunks, r.hunk)
  {
    var current := lines;
    ghost var trace := [lines];
    var index := 0;
    while index < |hunks|
      invariant 0 <= index <= |hunks| && |trace| == index + 1
      invariant IsTrace(hunks[..index], trace) && trace[0] == lines && trace[index] == current
    {
      var applied := ApplyHunk(current, hunks[index].lines);
      if !applied.Applied? {
        NoStep(current, hunks[index].lines, applied);
        assert Reaches(lines, hunks[..index], current);
        return Refused(index);
      }
      assert Steps(current, hunks[index].lines, applied.lines);
      TraceGrows(hunks, index, trace, applied.lines);
      trace := trace + [applied.lines];
      current := applied.lines;
      index := index + 1;
    }
    assert hunks[..index] == hunks;
    r := Updated(current);
  }

  lemma TraceGrows(hunks: seq<UpdateHunk>, index: nat, trace: seq<seq<string>>, after: seq<string>)
    requires index < |hunks| && IsTrace(hunks[..index], trace) && Steps(trace[index], hunks[index].lines, after)
    ensures IsTrace(hunks[..index + 1], trace + [after])
  {
    var more := trace + [after];
    forall k | 0 <= k < index + 1 ensures Steps(more[k], hunks[..index + 1][k].lines, more[k + 1]) {
      assert k < index ==> hunks[..index][k] == hunks[k];
    }
  }

  /** The old lines of the hunk do not stand at exactly one place. */
  ghost predicate IsStuck(lines: seq<string>, ds: seq<DiffLine>) {
    forall i: nat :: !OnlyMatch(lines, OldLines(ds), i)
  }

  lemma NoStep(lines: seq<string>, ds: seq<DiffLine>, r: Applied)
    requires IsApplied(lines, ds, r) && !r.Applied?
    ensures IsStuck(lines, ds)
  {
    if r.Ambiguous? {
      var j: nat, k: nat :| j < k && MatchAt(lines, OldLines(ds), j) && MatchAt(lines, OldLines(ds), k);
    }
  }

  // ----- there is one way to apply hunks -----

  lemma StepIsUnique(lines: seq<string>, ds: seq<DiffLine>, a: seq<string>, b: seq<string>)
    requires Steps(lines, ds, a) && Steps(lines, ds, b)
    ensures a == b && !IsStuck(lines, ds)
  {
    var r: Applied :| r.Applied? && r.lines == a && IsApplied(lines, ds, r);
    var q: Applied :| q.Applied? && q.lines == b && IsApplied(lines, ds, q);
    var i: nat :| OnlyMatch(lines, OldLines(ds), i) && a == Replaced(lines, i, OldLines(ds), NewLines(ds));
    var j: nat :| OnlyMatch(lines, OldLines(ds), j) && b == Replaced(lines, j, OldLines(ds), NewLines(ds));
  }

  lemma {:induction false} TracesAgree(hunks: seq<UpdateHunk>, a: seq<seq<string>>, b: seq<seq<string>>, k: nat)
    requires IsTrace(hunks, a) && IsTrace(hunks, b) && a[0] == b[0] && k <= |hunks|
    ensures a[k] == b[k]
    decreases k
  {
    if k > 0 {
      TracesAgree(hunks, a, b, k - 1);
      StepIsUnique(a[k - 1], hunks[k - 1].lines, a[k], b[k]);
    }
  }

  /** The hunks lead from given lines to one result only. */
  lemma ReachesIsUnique(lines: seq<string>, hunks: seq<UpdateHunk>, a: seq<string>, b: seq<string>)
    requires Reaches(lines, hunks, a) && Reaches(lines, hunks, b)
    ensures a == b
  {
    var t: seq<seq<string>> :| IsTrace(hunks, t) && t[0] == lines && t[|hunks|] == a;
    var u: seq<seq<string>> :| IsTrace(hunks, u) && u[0] == lines && u[|hunks|] == b;
    TracesAgree(hunks, t, u, |hunks|);
  }

  /** Where a hunk sticks, the hunks as a whole lead nowhere. */
  lemma StuckReachesNothing(lines: seq<string>, hunks: seq<UpdateHunk>, index: nat, after: seq<string>)
    requires index < |hunks| && SticksAt(lines, hunks, index)
    ensures !Reaches(lines, hunks, after)
  {
    if Reaches(lines, hunks, after) {
      var t: seq<seq<string>> :| IsTrace(hunks, t) && t[0] == lines && t[|hunks|] == after;
      var current: seq<string> :| Reaches(lines, hunks[..index], current) && IsStuck(current, hunks[index].lines);
      FirstSteps(hunks, t, index);
      ReachesIsUnique(lines, hunks[..index], current, t[index]);
      StepIsUnique(t[index], hunks[index].lines, t[index + 1], t[index + 1]);
    }
  }

  lemma FirstSteps(hunks: seq<UpdateHunk>, trace: seq<seq<string>>, n: nat)
    requires IsTrace(hunks, trace) && n < |hunks|
    ensures Steps(trace[n], hunks[n].lines, trace[n + 1])
    ensures Reaches(trace[0], hunks[..n], trace[n])
  {
    var first := trace[..n + 1];
    assert IsTrace(hunks[..n], first) && first[0] == trace[0] && first[n] == trace[n];
  }

  /** The hunks that undo a list of hunks: swapped, last one first. */
  function Undoing(hunks: seq<UpdateHunk>): seq<UpdateHunk> {
    seq(|hunks|, k requires 0 <= k < |hunks| =>
          UpdateHunk(Swapped(hunks[|hunks| - 1 - k].lines), hunks[|hunks| - 1 - k].patchLine))
  }

  /** Step k of the way back stands where step |hunks| - k of the way there stood. */
  lemma {:induction false} WayBack(hunks: seq<UpdateHunk>, there: seq<seq<string>>, back: seq<seq<string>>, k: nat)
    requires IsTrace(hunks, there) && IsTrace(Undoing(hunks), back) && back[0] == there[|hunks|]
    requires k <= |hunks|
    ensures back[k] == there[|hunks| - k]
    decreases k
  {
    if k > 0 {
      WayBack(hunks, there, back, k - 1);
      var m := |hunks| - k;
      assert Undoing(hunks)[k - 1].lines == Swapped(hunks[m].lines);
      assert Steps(there[m], hunks[m].lines, there[m + 1]);
      var r: Applied :| r.Applied? && r.lines == there[m + 1] && IsApplied(there[m], hunks[m].lines, r);
      assert Steps(back[k - 1], Undoing(hunks)[k - 1].lines, back[k]);
      var b: Applied :| b.Applied? && b.lines == back[k] && IsApplied(back[k - 1], Swapped(hunks[m].lines), b);
      SwappedHunkRestores(there[m], hunks[m].lines, r, b);
    }
  }

  /** If all hunks apply and the swapped hunks then apply in reverse order, the original lines
      are restored. */
  lemma SwappedHunksRestore(lines: seq<string>, hunks: seq<UpdateHunk>, after: seq<string>, back: seq<string>)
    requires Reaches(lines, hunks, after) && Reaches(after, Undoing(hunks), back)
    ensures back == lines
  {
    var there: seq<seq<string>> :| IsTrace(hunks, there) && there[0] == lines && there[|hunks|] == after;
    var undone: seq<seq<string>> :|
      IsTrace(Undoing(hunks), undone) && undone[0] == after && undone[|Undoing(hunks)|] == back;
    WayBack(hunks, there, undone, |hunks|);
  }
}
