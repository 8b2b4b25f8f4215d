/** Sharing a token budget between output streams and cutting each to its share, as in
    shell.py. The token counter is an arbitrary function with count("") == 0: it need
    be neither additive nor monotone. */
module TokenBudget {
  import opened Options

  // ----- water-filling -----

  function Sum(s: seq<int>): int {
    if s == [] then 0 else s[0] + Sum(s[1..])
  }

  lemma {:induction false} SumUpdate(s: seq<int>, i: nat, v: int)
    requires i < |s|
    ensures Sum(s[i := v]) == Sum(s) - s[i] + v
  {
    if i == 0 {
      assert s[i := v][1..] == s[1..];
    } else {
      assert s[i := v][1..] == s[1..][i - 1 := v];
      SumUpdate(s[1..], i - 1, v);
    }
  }

  lemma {:induction false} SumIsMonotone(s: seq<int>, t: seq<int>)
    requires |s| == |t| && forall i :: 0 <= i < |s| ==> s[i] <= t[i]
    ensures Sum(s) <= Sum(t)
  {
    if s != [] {
      assert s[0] <= t[0];
      forall i | 0 <= i < |s| - 1 ensures s[1..][i] <= t[1..][i] {
        assert s[i + 1] <= t[i + 1];
      }
      SumIsMonotone(s[1..], t[1..]);
    }
  }

  lemma {:induction false} SumOfZeros(n: nat)
    ensures Sum(seq(n, _ => 0)) == 0
  {
    if n > 0 {
      assert seq(n, _ => 0)[1..] == seq(n - 1, _ => 0);
      SumOfZeros(n - 1);
    }
  }

  function Below(s: set<nat>, i: nat): set<nat> {
    set k | k in s && k < i
  }

  lemma BelowNext(s: set<nat>, i: nat)
    ensures |Below(s, i + 1)| == |Below(s, i)| + if i in s then 1 else 0
  {
    if i in s {
      assert Below(s, i + 1) == Below(s, i) + {i};
    } else {
      assert Below(s, i + 1) == Below(s, i);
    }
  }

  /** Everything a fair division of a budget must satisfy: no stream gets more than it
      needs, nothing is left while a need is open, and a stream that is cut short has at
      most one token less than any other; the odd tokens go to the first streams. */
  ghost predicate IsFairShare(needs: seq<int>, maxTokens: int, allocations: seq<int>) {
    && |allocations| == |needs|
    && (forall i :: 0 <= i < |needs| ==> 0 <= allocations[i] <= needs[i])
    && Sum(allocations) == (if maxTokens < Sum(needs) then maxTokens else Sum(needs))
    && (forall i, j :: 0 <= i < |needs| && 0 <= j < |needs| && allocations[i] < needs[i]
          ==> allocations[j] <= allocations[i] + 1)
    && (forall i, j :: 0 <= i < j < |needs| && allocations[i] < needs[i] && allocations[j] < needs[j]
          ==> allocations[j] <= allocations[i])
  }

  /** Between rounds: streams outside pending have all they need, none of them more than
      level, and every pending stream can still get level. */
  ghost predicate Filling(needs: seq<int>, maxTokens: int, allocations: seq<int>, pending: set<nat>,
          remaining: int, level: int) {
    && |allocations| == |needs|
    && (forall i :: i in pending ==> i < |needs| && allocations[i] == 0 && needs[i] > 0)
    && (forall i :: 0 <= i < |needs| && i !in pending ==> allocations[i] == needs[i] && 0 <= needs[i] <= level)
    && remaining == maxTokens - Sum(allocations)
    && 0 <= level && level * |pending| <= remaining
  }

  /** One round that satisfies every stream whose need is at most the even share. */
  method Satisfy(needs: seq<int>, maxTokens: int, before: seq<int>, pending: set<nat>, remainingBefore: int,
          share: int, satisfied: set<nat>, ghost level: int)
      returns (allocations: seq<int>, remaining: int)
    requires Filling(needs, maxTokens, before, pending, remainingBefore, level)
    requires pending != {} && share == remainingBefore / |pending|
    requires satisfied == set i | i in pending && needs[i] <= share
    ensures Filling(needs, maxTokens, allocations, pending - satisfied, remaining, share)
  {
    allocations, remaining := before, remainingBefore;
    assert level <= share by {
      DivideLevel(level, |pending|, remainingBefore);
    }
    var i := 0;
    while i < |needs|
      invariant 0 <= i <= |needs| == |allocations|
      invariant forall k :: 0 <= k < |needs| ==> allocations[k] == if k in satisfied && k < i then needs[k] else before[k]
      invariant remaining == maxTokens - Sum(allocations)
      invariant remaining >= remainingBefore - Times(share, |Below(satisfied, i)|)
    {
      BelowNext(satisfied, i);
      if i in satisfied {
        SumUpdate(allocations, i, needs[i]);
        allocations := allocations[i := needs[i]];
        remaining := remaining - needs[i];
      }
      i := i + 1;
    }
    assert Below(satisfied, |needs|) == satisfied;
    assert |pending - satisfied| == |pending| - |satisfied|;
    EvenShare(remainingBefore, |pending|);
    ShareLeft(share, |pending|, |satisfied|, remainingBefore, remaining);
  }

  lemma DivideLevel(level: int, n: nat, total: int)
    requires n > 0 && level * n <= total
    ensures level <= total / n
  {
    if level >= total / n + 1 {
      MulMonotone(total / n + 1, level, n);
      assert false;
    }
  }

  lemma MulMonotone(a: int, b: int, n: nat)
    requires a <= b
    ensures a * n <= b * n
  {
  }

  /** a + ... + a, n times, for reasoning without products. */
  function Times(a: int, n: nat): int {
    if n == 0 then 0 else Times(a, n - 1) + a
  }

  lemma {:induction false} TimesIsProduct(a: int, n: nat)
    ensures Times(a, n) == a * n
  {
    if n > 0 {
      TimesIsProduct(a, n - 1);
    }
  }

  lemma EvenShare(total: int, n: nat)
    requires n > 0
    ensures Times(total / n, n) == total - total % n && 0 <= total % n < n
  {
    TimesIsProduct(total / n, n);
  }

  lemma ShareLeft(share: int, n: nat, m: nat, total: int, left: int)
    requires m <= n && Times(share, n) <= total && left >= total - Times(share, m)
    ensures share * (n - m) <= left
  {
    TimesIsProduct(share, n);
    TimesIsProduct(share, m);
    assert share * (n - m) == share * n - share * m;
  }

  /** How the last round stands before stream i: the pending streams so far have the share, the
      first odd ones of them one token more. */
  ghost predicate Sharing(before: seq<int>, pending: set<nat>, share: int, odd: int, allocations: seq<int>, i: nat) {
    && |allocations| == |before|
    && (forall k :: 0 <= k < |before| && !(k in pending && k < i) ==> allocations[k] == before[k])
    && (forall k :: 0 <= k < |before| && k in pending && k < i ==>
          share <= allocations[k] <= share + 1 && (allocations[k] == share ==> odd <= |Below(pending, i)|))
    && (forall j, k :: 0 <= j < k < |before| && j in pending && k in pending && k < i ==> allocations[k] <= allocations[j])
  }

  lemma ShareOneMore(before: seq<int>, pending: set<nat>, share: int, odd: int, allocations: seq<int>, i: nat, extra: int)
    requires Sharing(before, pending, share, odd, allocations, i) && i < |before|
    requires extra == if |Below(pending, i)| < odd then 1 else 0
    ensures Sharing(before, pending, share, odd, if i in pending then allocations[i := share + extra] else allocations, i + 1)
  {
    BelowNext(pending, i);
  }

  lemma ShareSum(allocations: seq<int>, i: nat, v: int, total: int, share: int, index: nat, odd: int)
    requires i < |allocations| && allocations[i] == 0 && v == share + if index < odd then 1 else 0
    requires Sum(allocations) == total + Times(share, index) + if index < odd then index else odd
    ensures Sum(allocations[i := v]) == total + Times(share, index + 1) + if index + 1 < odd then index + 1 else odd
  {
    SumUpdate(allocations, i, v);
  }

  /** The last round ends fairly: what was left is handed out to the last token. */
  lemma SharedFairly(needs: seq<int>, maxTokens: int, before: seq<int>, pending: set<nat>, remaining: int, share: int,
        odd: int, level: int, allocations: seq<int>)
    requires Filling(needs, maxTokens, before, pending, remaining, level) && pending != {} && level <= share
    requires forall i :: i in pending ==> share < needs[i]
    requires 0 <= odd < |pending| && Sum(allocations) == maxTokens
    requires Sharing(before, pending, share, odd, allocations, |needs|)
    ensures IsFairShare(needs, maxTokens, allocations)
  {
    assert Below(pending, |needs|) == pending;
    SumIsMonotone(allocations, needs);
  }

  /** What the last round has handed out before stream i, index streams having had their share. */
  ghost predicate HandedOut(before: seq<int>, pending: set<nat>, share: int, odd: int, allocations: seq<int>, i: nat, index: nat) {
    && Sharing(before, pending, share, odd, allocations, i)
    && index == |Below(pending, i)|
    && Sum(allocations) == Sum(before) + Times(share, index) + if index < odd then index else odd
  }

  /** Stream i in the last round. */
  method HandOut(before: seq<int>, pending: set<nat>, share: int, odd: int, was: seq<int>, i: nat, indexWas: nat)
      returns (allocations: seq<int>, index: nat)
    requires i < |before| && HandedOut(before, pending, share, odd, was, i, indexWas)
    requires i in pending ==> before[i] == 0
    ensures HandedOut(before, pending, share, odd, allocations, i + 1, index)
  {
    allocations, index := was, indexWas;
    BelowNext(pending, i);
    ShareOneMore(before, pending, share, odd, was, i, if index < odd then 1 else 0);
    if i in pending {
      var v := share + if index < odd then 1 else 0;
      ShareSum(was, i, v, Sum(before), share, index, odd);
      allocations := allocations[i := v];
      index := index + 1;
    }
  }

  /** The last round: nobody's need is within the share, so all get it, and the odd
      tokens go to the first in name order. */
  method Distribute(needs: seq<int>, maxTokens: int, before: seq<int>, pending: set<nat>, remaining: int, share: int,
        ghost level: int)
      returns (allocations: seq<int>)
    requires Filling(needs, maxTokens, before, pending, remaining, level)
    requires pending != {} && share == remaining / |pending|
    requires forall i :: i in pending ==> share < needs[i]
    ensures IsFairShare(needs, maxTokens, allocations)
  {
    DivideLevel(level, |pending|, remaining);
    EvenShare(remaining, |pending|);
    var odd := remaining % |pending|;
    allocations := before;
    var index, i := 0, 0;
    while i < |needs|
      invariant 0 <= i <= |needs| && HandedOut(before, pending, share, odd, allocations, i, index)
    {
      allocations, index := HandOut(before, pending, share, odd, allocations, i, index);
      i := i + 1;
    }
    assert Below(pending, |needs|) == pending;
    SharedFairly(needs, maxTokens, before, pending, remaining, share, odd, level, allocations);
  }

  /** The needs are listed in the order of the stream names. */
  method AllocateStreamTokenBudgets(needs: seq<int>, maxTokens: int) returns (allocations: seq<int>)
    requires 0 <= maxTokens && forall i :: 0 <= i < |needs| ==> 0 <= needs[i]
    ensures IsFairShare(needs, maxTokens, allocations)
  {
    allocations := seq(|needs|, _ => 0);
    SumOfZeros(|needs|);
    var pending: set<nat> := set i: nat | i < |needs| && needs[i] > 0;
    var remaining := maxTokens;
    ghost var level := 0;
    while pending != {}
      invariant Filling(needs, maxTokens, allocations, pending, remaining, level)
      decreases pending
    {
      var share := remaining / |pending|;
      var satisfied := set i | i in pending && needs[i] <= share;
      if satisfied == {} {
        assert forall i :: i in pending ==> i in satisfied || share < needs[i];
        allocations := Distribute(needs, maxTokens, allocations, pending, remaining, share, level);
        return;
      }
      allocations, remaining := Satisfy(needs, maxTokens, allocations, pending, remaining, share, satisfied, level);
      level := share;
      assert pending - satisfied < pending by {
        var i :| i in satisfied;
        assert i in pending;
      }
      pending := pending - satisfied;
    }
    assert allocations == needs;
  }

  // ----- cutting one text to a budget -----

  type Counter = string -> nat

  function OmissionMarker(maxTokens: int, count: Counter): string {
    if count("\n... [output omitted to fit run token budget] ...\n") <= maxTokens
    then "\n... [output omitted to fit run token budget] ...\n"
    else if count("\n...\n") <= maxTokens then "\n...\n"
    else if count("\U{2026}") <= maxTokens then "\U{2026}"
    else ""
  }

  /** Some characters kept at both ends, the marker between them. */
  function Candidate(text: string, marker: string, kept: nat): string
    requires kept < |text|
  {
    text[..(kept + 1) / 2] + marker + text[|text| - kept / 2..]
  }

  /** Whether keeping fewer characters never costs more than fits. */
  ghost predicate FitsDownward(text: string, marker: string, maxTokens: int, count: Counter) {
    forall i, j :: 0 <= i < j < |text| && count(Candidate(text, marker, j)) <= maxTokens
      ==> count(Candidate(text, marker, i)) <= maxTokens
  }

  /** What a cut text is, when the text is not empty and does not fit as it is. */
  ghost predicate IsCut(text: string, maxTokens: int, count: Counter, r: string) {
    if maxTokens <= 0 then r == ""
    else
      var marker := OmissionMarker(maxTokens, count);
      && count(r) <= maxTokens
      && (r == "" || r == marker || exists kept :: 0 <= kept < |text| && r == Candidate(text, marker, kept))
      && (text != "" && FitsDownward(text, marker, maxTokens, count) && count(marker) <= maxTokens ==>
            exists kept :: 0 <= kept < |text| && r == Candidate(text, marker, kept)
              && forall more :: kept < more < |text| ==> count(Candidate(text, marker, more)) > maxTokens)
  }

  /** Whatever the counter does, the result fits; with a counter for which fewer kept
      characters always fit when more do, the result keeps as many as can fit. */
  method TruncateTextToTokens(text: string, maxTokens: int, count: Counter) returns (r: string, truncated: bool)
    requires count("") == 0
    ensures truncated == !(text == "" || (maxTokens > 0 && count(text) <= maxTokens))
    ensures !truncated ==> r == text
    ensures truncated ==> IsCut(text, maxTokens, count, r)
    ensures count(r) <= if maxTokens > 0 then maxTokens else 0
  {
    if text == "" {
      return "", false;
    }
    if maxTokens <= 0 {
      return "", true;
    }
    if count(text) <= maxTokens {
      return text, false;
    }
    var marker := OmissionMarker(maxTokens, count);
    var low, high := 0, |text| - 1;
    ghost var down := FitsDownward(text, marker, maxTokens, count);
    while low < high
      invariant 0 <= low <= high < |text|
      invariant low > 0 ==> count(Candidate(text, marker, low)) <= maxTokens
      invariant down ==> forall more :: high < more < |text| ==> count(Candidate(text, marker, more)) > maxTokens
    {
      var midpoint := (low + high + 1) / 2;
      if count(Candidate(text, marker, midpoint)) <= maxTokens {
        low := midpoint;
      } else {
        high := midpoint - 1;
      }
    }
    r, truncated := Candidate(text, marker, low), true;
    if low == 0 {
      assert r == marker;
    }
    if count(r) > maxTokens {
      r := if count(marker) <= maxTokens then marker else "";
    }
  }

  // ----- what run shows of its two streams -----

  datatype Captured = Captured(text: string, totalBytes: nat, droppedBytes: nat, totalLines: nat)

  datatype Stream = Stdout | Stderr

  datatype Shown = Shown(text: string, allocation: int, truncated: bool)

  datatype Display = Display(out: Shown, err: Shown, oversized: Option<Stream>)

  predicate IsSingleLine(c: Captured) {
    c.totalBytes > 0 && c.droppedBytes == 0 && c.totalLines == 1
  }

  /** The one stream that is shown whole although it does not fit. */
  function OversizedStream(out: Captured, err: Captured): Option<Stream> {
    if err.totalBytes == 0 && IsSingleLine(out) then Some(Stdout)
    else if out.totalBytes == 0 && IsSingleLine(err) then Some(Stderr)
    else None
  }

  ghost predicate WithinShare(initial: string, s: Shown, maxTokens: int, count: Counter) {
    && 0 <= s.allocation <= maxTokens
    && count(s.text) <= s.allocation
    && (if s.truncated then IsCut(initial, s.allocation, count, s.text) else s.text == initial)
  }

  /** The streams are first cut to fair shares of the budget; what is shown never has a larger
      share than that, and is exactly that when it fits as a whole. */
  ghost predicate StartsFair(out: Captured, err: Captured, maxTokens: int, count: Counter, first: Display, d: Display) {
    && IsFairShare([count(err.text), count(out.text)], maxTokens, [first.err.allocation, first.out.allocation])
    && WithinShare(out.text, first.out, maxTokens, count) && WithinShare(err.text, first.err, maxTokens, count)
    && d.out.allocation <= first.out.allocation && d.err.allocation <= first.err.allocation
    && (count(first.out.text + first.err.text) <= maxTokens ==> d.out == first.out && d.err == first.err)
  }

  /** Cut one stream to a tighter budget. */
  method Tighten(initial: string, s: Shown, excess: int, maxTokens: int, count: Counter) returns (t: Shown)
    requires count("") == 0 && WithinShare(initial, s, maxTokens, count)
    ensures WithinShare(initial, t, maxTokens, count)
    ensures t.allocation <= s.allocation && (s.allocation > 0 ==> t.allocation < s.allocation)
  {
    var step := if excess > 1 then excess else 1;
    var allocation := if s.allocation < step then 0 else s.allocation - step;
    var text, truncated := TruncateTextToTokens(initial, allocation, count);
    t := Shown(text, allocation, truncated);
  }

  /** The two texts put together fit the budget for any counter, even one for which the
      tokens of a concatenation are not those of its parts, unless a single unbroken
      line is flagged as oversized and shown whole. */
  method RenderCapturedOutput(out: Captured, err: Captured, maxTokens: int, count: Counter)
      returns (d: Display, ghost first: Display)
    requires count("") == 0 && maxTokens > 0
    ensures d.oversized == if count(out.text + err.text) <= maxTokens then None else OversizedStream(out, err)
    ensures d.oversized.None? ==> count(d.out.text + d.err.text) <= maxTokens
    ensures count(out.text + err.text) <= maxTokens || d.oversized.Some? ==>
      d.out.text == out.text && d.err.text == err.text && !d.out.truncated && !d.err.truncated
    ensures count(out.text + err.text) > maxTokens && d.oversized.None? ==>
      WithinShare(out.text, d.out, maxTokens, count) && WithinShare(err.text, d.err, maxTokens, count)
    ensures count(out.text + err.text) > maxTokens && d.oversized.None? ==> StartsFair(out, err, maxTokens, count, first, d)
  {
    var shownOut, shownErr := Shown(out.text, maxTokens, false), Shown(err.text, maxTokens, false);
    if count(out.text + err.text) <= maxTokens {
      d := Display(shownOut, shownErr, None);
      return d, d;
    }
    if OversizedStream(out, err).Some? {
      d := Display(shownOut, shownErr, OversizedStream(out, err));
      return d, d;
    }
    // In name order stderr comes before stdout.
    var allocations := AllocateStreamTokenBudgets([count(err.text), count(out.text)], maxTokens);
    shownOut, shownErr := CutToShares(out.text, err.text, allocations, maxTokens, count);
    first := Display(shownOut, shownErr, None);
    assert allocations == [shownErr.allocation, shownOut.allocation];
    var round := 0;
    while round < 8
      invariant 0 <= round <= 8
      invariant WithinShare(out.text, shownOut, maxTokens, count)
      invariant WithinShare(err.text, shownErr, maxTokens, count)
      invariant shownOut.allocation <= first.out.allocation && shownErr.allocation <= first.err.allocation
      invariant round > 0 ==> count(first.out.text + first.err.text) > maxTokens
      invariant round == 0 ==> first == Display(shownOut, shownErr, None)
    {
      var combined := count(shownOut.text + shownErr.text);
      if combined <= maxTokens {
        return Display(shownOut, shownErr, None), first;
      }
      if count(shownOut.text) >= count(shownErr.text) {
        shownOut := Tighten(out.text, shownOut, combined - maxTokens, maxTokens, count);
      } else {
        shownErr := Tighten(err.text, shownErr, combined - maxTokens, maxTokens, count);
      }
      round := round + 1;
    }
    if count(shownOut.text) >= count(shownErr.text) {
      shownOut := Shown("", 0, out.text != "");
      assert shownOut.text + shownErr.text == shownErr.text;
    } else {
      shownErr := Shown("", 0, err.text != "");
      assert shownOut.text + shownErr.text == shownOut.text;
    }
    d := Display(shownOut, shownErr, None);
  }

  method CutToShares(out: string, err: string, allocations: seq<int>, maxTokens: int, count: Counter)
      returns (shownOut: Shown, shownErr: Shown)
    requires count("") == 0 && maxTokens > 0
    requires IsFairShare([count(err), count(out)], maxTokens, allocations)
    ensures WithinShare(out, shownOut, maxTokens, count) && WithinShare(err, shownErr, maxTokens, count)
    ensures shownOut.allocation == allocations[1] && shownErr.allocation == allocations[0]
  {
    assert allocations[1..] == [allocations[1]];
    assert Sum(allocations) == allocations[0] + Sum([allocations[1]]);
    var text, truncated := TruncateTextToTokens(out, allocations[1], count);
    shownOut := Shown(text, allocations[1], truncated);
    text, truncated := TruncateTextToTokens(err, allocations[0], count);
    shownErr := Shown(text, allocations[0], truncated);
  }
}
