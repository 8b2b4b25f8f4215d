/** Lossless paging of a diff by byte offset, as in gitops.py: _utf8_byte_page cuts a page
    on character boundaries, _fit_git_payload shortens it until the response fits. */
module DiffPage {
  import opened Bytes
  import opened Options
  import opened Utf8Units
  import opened Utf8Text

  type Text = seq<int>

  function Min(a: int, b: int): int { if a < b then a else b }
  function Max(a: int, b: int): int { if a < b then b else a }

  /** Where the request asks the page to start and to end, before character boundaries. */
  function AskedStart(size: nat, offset: int): nat {
    Min(Max(offset, 0), size)
  }

  function AskedEnd(size: nat, offset: int, maxBytes: int, start: nat): int {
    Min(Max(AskedStart(size, offset) + Max(maxBytes, 0), start), size)
  }

  /** i is the first character that starts at or after p. */
  ghost predicate FirstFrom(text: Text, p: nat, i: nat)
    requires AllScalar(text)
  {
    i <= |text| && p <= Boundary(text, i) && (i > 0 ==> Boundary(text, i - 1) < p)
  }

  /** Characters i up to j end at or before p, and no further character does. */
  ghost predicate LastWithin(text: Text, i: nat, p: int, j: nat)
    requires AllScalar(text)
  {
    i <= j <= |text| && (j == i || Boundary(text, j) <= p) && (j < |text| ==> p < Boundary(text, j + 1))
  }

  lemma {:induction false} BoundariesGrow(text: Text, i: nat, j: nat)
    requires AllScalar(text) && i <= j <= |text|
    ensures Boundary(text, i) + (j - i) <= Boundary(text, j) <= |EncodeAll(text)|
    decreases j - i
  {
    BoundarySlices(text, i, j);
  }

  lemma FirstIsUnique(text: Text, p: nat, i: nat, k: nat)
    requires AllScalar(text) && FirstFrom(text, p, i) && FirstFrom(text, p, k)
    ensures i == k
  {
    if i < k {
      BoundariesGrow(text, i, k - 1);
    } else if k < i {
      BoundariesGrow(text, k, i - 1);
    }
  }

  lemma LastIsUnique(text: Text, i: nat, p: int, j: nat, k: nat)
    requires AllScalar(text) && LastWithin(text, i, p, j) && LastWithin(text, i, p, k)
    ensures j == k
  {
    if j < k {
      BoundariesGrow(text, j + 1, k);
    } else if k < j {
      BoundariesGrow(text, k + 1, j);
    }
  }

  /** The first character from k on that starts at or after p. */
  ghost function FirstAt(text: Text, p: nat, k: nat): (i: nat)
    requires AllScalar(text) && p <= |EncodeAll(text)| && k <= |text| && (k > 0 ==> Boundary(text, k - 1) < p)
    ensures FirstFrom(text, p, i)
    decreases |text| - k
  {
    assert text[..|text|] == text;
    if p <= Boundary(text, k) then k else FirstAt(text, p, k + 1)
  }

  /** Where the characters from i on that end at or before p end. */
  ghost function LastAt(text: Text, i: nat, p: int): (j: nat)
    requires AllScalar(text) && i <= |text|
    ensures LastWithin(text, i, p, j)
    decreases |text| - i
  {
    if i < |text| && Boundary(text, i + 1) <= p then LastAt(text, i + 1, p) else i
  }

  /** The characters of the page asked for: from the first that starts at or after the offset
      to the last that ends within the asked bytes. */
  ghost function PageStart(text: Text, offset: int): (i: nat)
    requires AllScalar(text)
    ensures i <= |text|
  {
    FirstAt(text, AskedStart(|EncodeAll(text)|, offset), 0)
  }

  ghost function PageEnd(text: Text, offset: int, maxBytes: int): (j: nat)
    requires AllScalar(text)
    ensures PageStart(text, offset) <= j <= |text|
  {
    var i := PageStart(text, offset);
    LastAt(text, i, AskedEnd(|EncodeAll(text)|, offset, maxBytes, Boundary(text, i)))
  }

  /** Skip the continuation bytes of a character cut by the asked offset. */
  method SkipToBoundary(raw: seq<byte>, from: nat, ghost text: Text) returns (start: nat)
    requires AllScalar(text) && raw == EncodeAll(text) && from <= |raw|
    ensures start == Boundary(text, FirstAt(text, from, 0)) <= |raw|
  {
    start := from;
    ghost var i := FirstAt(text, from, 0);
    BoundariesGrow(text, i, i);
    while start < |raw| && IsTail(raw[start])
      invariant from <= start <= Boundary(text, i)
    {
      StopsAtBoundary(text, i, start);
      start := start + 1;
    }
    if start < Boundary(text, i) {
      TailBefore(text, from, i, start);
    }
  }

  /** A continuation byte does not stand on a character boundary. */
  lemma StopsAtBoundary(text: Text, i: nat, p: nat)
    requires AllScalar(text) && i <= |text| && p < |EncodeAll(text)| && IsTail(EncodeAll(text)[p])
    ensures p != Boundary(text, i)
  {
    if p == Boundary(text, i) {
      assert text[..|text|] == text;
      OneMore(text, i);
      ContinuationBytes(text, i, p);
    }
  }

  /** From the middle of a character up to the next one there are continuation bytes. */
  lemma TailBefore(text: Text, from: nat, i: nat, p: nat)
    requires AllScalar(text) && FirstFrom(text, from, i) && from <= p < Boundary(text, i)
    ensures p < |EncodeAll(text)| && IsTail(EncodeAll(text)[p])
  {
    assert text[..0] == [];
    ContinuationBytes(text, i - 1, p);
  }

  /** The page is the longest run of whole characters within the asked bytes. */
  method Utf8BytePage(raw: seq<byte>, offset: int, maxBytes: int, ghost text: Text)
      returns (page: Text, start: nat, end: nat)
    requires AllScalar(text) && raw == EncodeAll(text)
    ensures start == Boundary(text, PageStart(text, offset))
    ensures end == Boundary(text, PageEnd(text, offset, maxBytes))
    ensures page == text[PageStart(text, offset)..PageEnd(text, offset, maxBytes)]
  {
    start := SkipToBoundary(raw, AskedStart(|raw|, offset), text);
    page, end := DecodeLongest(raw, start, AskedEnd(|raw|, offset, maxBytes, start), text, PageStart(text, offset));
  }

  /** Decode ever fewer bytes until they are whole characters. */
  method DecodeLongest(raw: seq<byte>, start: nat, asked: nat, ghost text: Text, ghost i: nat)
      returns (page: Text, end: nat)
    requires AllScalar(text) && raw == EncodeAll(text) && i <= |text| && start == Boundary(text, i)
    requires start <= asked <= |raw|
    ensures end == Boundary(text, LastAt(text, i, asked)) && page == text[i..LastAt(text, i, asked)]
  {
    ghost var j;
    page, end, j := DecodeShorter(raw, start, asked, text, i);
    LastIsUnique(text, i, asked, j, LastAt(text, i, asked));
  }

  method DecodeShorter(raw: seq<byte>, start: nat, asked: nat, ghost text: Text, ghost i: nat)
      returns (page: Text, end: nat, ghost j: nat)
    requires AllScalar(text) && raw == EncodeAll(text) && i <= |text| && start == Boundary(text, i)
    requires start <= asked <= |raw|
    ensures LastWithin(text, i, asked, j) && end == Boundary(text, j) && page == text[i..j]
  {
    end := asked;
    while end > start
      invariant start <= end <= asked <= |raw|
      invariant forall m :: i < m <= |text| && Boundary(text, m) <= asked ==> Boundary(text, m) <= end
    {
      var decoded := StrictDecode(raw[start..end]);
      if decoded.Some? {
        j := DecodableEndsOnBoundary(text, i, end);
        StretchDecodes(text, i, j);
        PageIsLongest(text, i, asked, j);
        return decoded.value, end, j;
      }
      forall m | i < m <= |text| && Boundary(text, m) == end ensures false {
        StretchDecodes(text, i, m);
      }
      end := end - 1;
    }
    page, end, j := [], start, i;
    if i < |text| {
      OneMore(text, i);
    }
  }

  lemma PageIsLongest(text: Text, i: nat, asked: int, j: nat)
    requires AllScalar(text) && i <= j <= |text| && Boundary(text, j) <= asked
    requires forall m :: i < m <= |text| && Boundary(text, m) <= asked ==> Boundary(text, m) <= Boundary(text, j)
    ensures LastWithin(text, i, asked, j)
  {
    if j < |text| {
      OneMore(text, j);
    }
  }

  /** A page asked for at a character is empty exactly when the character needs more bytes. */
  lemma PageIsEmptyIff(text: Text, i: nat, maxBytes: int)
    requires AllScalar(text) && i < |text| && 0 < maxBytes
    ensures PageStart(text, Boundary(text, i)) == i
    ensures PageEnd(text, Boundary(text, i), maxBytes) == i <==> maxBytes < |Encode(text[i])|
  {
    OneMore(text, i);
    StartsThere(text, i);
  }

  lemma StartsThere(text: Text, i: nat)
    requires AllScalar(text) && i <= |text|
    ensures Boundary(text, i) <= |EncodeAll(text)| && PageStart(text, Boundary(text, i)) == i
  {
    BoundariesGrow(text, i, i);
    if i > 0 {
      BoundariesGrow(text, i - 1, i);
    }
    FirstIsUnique(text, Boundary(text, i), i, PageStart(text, Boundary(text, i)));
  }

  // ----- cutting to tokens -----

  /** The binary search of _truncate_to_tokens between two lengths. */
  function Search(text: Text, fits: Text -> bool, low: nat, high: nat): (r: nat)
    requires low <= high <= |text|
    ensures low <= r <= high && (r > low ==> fits(text[..r]))
    ensures r == low < high ==> !fits(text[..low + 1])
    decreases high - low
  {
    if low == high then low
    else
      var midpoint := (low + high + 1) / 2;
      if fits(text[..midpoint]) then Search(text, fits, midpoint, high)
      else Search(text, fits, low, midpoint - 1)
  }

  function CutToTokens(text: Text, count: Text -> nat, maxTokens: int): (r: Text)
    ensures r <= text
    ensures r == text || count(text) > maxTokens || maxTokens <= 0
    ensures r == text || r == [] || count(r) <= maxTokens
    ensures r == [] && text != [] && 0 < maxTokens ==> count(text[..1]) > maxTokens
  {
    if text == [] || maxTokens <= 0 then []
    else if count(text) <= maxTokens then text
    else text[..Search(text, (t: Text) => count(t) <= maxTokens, 0, |text|)]
  }

  method TruncateToTokens(text: Text, count: Text -> nat, maxTokens: int) returns (r: Text)
    ensures r == CutToTokens(text, count, maxTokens)
  {
    if text == [] || maxTokens <= 0 {
      return [];
    }
    if count(text) <= maxTokens {
      return text;
    }
    ghost var fits := (t: Text) => count(t) <= maxTokens;
    var low, high := 0, |text|;
    while low < high
      invariant 0 <= low <= high <= |text|
      invariant Search(text, fits, low, high) == Search(text, fits, 0, |text|)
    {
      var midpoint := (low + high + 1) / 2;
      if count(text[..midpoint]) <= maxTokens {
        low := midpoint;
      } else {
        high := midpoint - 1;
      }
    }
    r := text[..low];
  }

  // ----- fitting the payload -----

  datatype FileDiff = FileDiff(diff: Text, truncated: bool, tokenTruncated: bool)

  datatype StopReason = ByteBudget | EndOfDiff | TokenBudget

  datatype Payload = Payload(
    diff: Text,
    fileDiffs: seq<FileDiff>,
    files: nat,
    body: Text,
    nextOffset: Option<nat>,
    truncated: bool,
    stopReason: StopReason,
    fileDiffsTruncated: bool,
    bodyTruncated: bool,
    continuationBlocked: bool)

  /** The offset that continues a page of this diff, None when the page reaches the end. */
  function Continue(diff: Text, byteOffset: nat, totalBytes: nat): Option<nat>
    requires AllScalar(diff)
  {
    var next := byteOffset + |EncodeAll(diff)|;
    if next < totalBytes then Some(next) else None
  }

  function CutFile(f: FileDiff, count: Text -> nat, perField: int): FileDiff {
    var diff := CutToTokens(f.diff, count, perField);
    if diff == f.diff then f else FileDiff(diff, true, true)
  }

  function DropFile(f: FileDiff): FileDiff {
    if f.diff == [] then f else FileDiff([], true, true)
  }

  function PerFieldTokens(maxTokens: int, fileCount: nat): int {
    Max(1, maxTokens / (2 * (fileCount + 1)))
  }

  /** The payload as first measured. */
  function FirstDraft(p: Payload, byteOffset: nat, totalBytes: nat): Payload
    requires AllScalar(p.diff)
  {
    p.(nextOffset := if p.truncated then Some(byteOffset + |EncodeAll(p.diff)|) else None,
       stopReason := if p.truncated then ByteBudget else EndOfDiff)
  }

  lemma PrefixIsScalar(a: Text, b: Text)
    requires a <= b && AllScalar(b)
    ensures AllScalar(a) && |EncodeAll(a)| <= |EncodeAll(b)|
    ensures a != b ==> |EncodeAll(a)| < |EncodeAll(b)|
  {
    assert b == a + b[|a|..];
    EncodeAllAppend(a, b[|a|..]);
  }

  /** The payload after its texts were cut to their share of the tokens. */
  function SecondDraft(p: Payload, byteOffset: nat, totalBytes: nat, maxTokens: int, count: Text -> nat): Payload
    requires AllScalar(p.diff)
  {
    var diff := CutToTokens(p.diff, count, Max(1, maxTokens / 2));
    PrefixIsScalar(diff, p.diff);
    p.(fileDiffs := seq(|p.fileDiffs|, k requires 0 <= k < |p.fileDiffs| =>
                          CutFile(p.fileDiffs[k], count, PerFieldTokens(maxTokens, |p.fileDiffs|))),
       diff := diff,
       nextOffset := Continue(diff, byteOffset, totalBytes),
       truncated := p.truncated || diff != p.diff,
       stopReason := if diff != p.diff then TokenBudget else ByteBudget)
  }

  /** The page starts at byteOffset, and its diff is cut exactly when bytes are missing. */
  ghost predicate IsPagePayload(p: Payload, byteOffset: nat, totalBytes: nat) {
    && AllScalar(p.diff)
    && byteOffset + |EncodeAll(p.diff)| <= totalBytes
    && p.truncated == (byteOffset + |EncodeAll(p.diff)| < totalBytes)
    && !p.continuationBlocked
  }

  /** What every stage keeps: the diff is a first part of the page, and the continuation
      offset is the first byte not shown. */
  ghost predicate Paged(r: Payload, page: Text, byteOffset: nat, totalBytes: nat) {
    && r.diff <= page
    && AllScalar(r.diff)
    && r.nextOffset == Continue(r.diff, byteOffset, totalBytes)
  }

  /** The first draft that fits shows nothing although bytes are left, and says so by no flag. */
  predicate StallsUnmarked(p: Payload, byteOffset: nat, totalBytes: nat, maxTokens: int, fits: Payload -> bool,
          count: Text -> nat)
    requires AllScalar(p.diff)
  {
    && byteOffset < totalBytes
    && if fits(FirstDraft(p, byteOffset, totalBytes)) then p.diff == []
       else fits(SecondDraft(p, byteOffset, totalBytes, maxTokens, count))
            && CutToTokens(p.diff, count, Max(1, maxTokens / 2)) == []
  }

  /** No draft fits, nor any halving of the diff without the per-file bodies that shows anything. */
  ghost predicate NothingFits(p: Payload, byteOffset: nat, totalBytes: nat, maxTokens: int, fits: Payload -> bool,
          count: Text -> nat)
    requires AllScalar(p.diff)
  {
    var second := SecondDraft(p, byteOffset, totalBytes, maxTokens, count);
    && !fits(FirstDraft(p, byteOffset, totalBytes)) && !fits(second)
    && AllScalar(second.diff)
    && forall times: nat :: Halved(second.diff, times) != [] ==> !fits(Stage(second, times, byteOffset))
  }

  method FitGitPayload(p: Payload, maxTokens: int, byteOffset: nat, totalBytes: nat, fits: Payload -> bool,
          count: Text -> nat)
      returns (r: Payload)
    requires IsPagePayload(p, byteOffset, totalBytes)
    ensures Paged(r, p.diff, byteOffset, totalBytes)
    ensures r.nextOffset == Some(byteOffset) ==>
      r.continuationBlocked == !StallsUnmarked(p, byteOffset, totalBytes, maxTokens, fits, count)
    ensures r.continuationBlocked <==>
      byteOffset < totalBytes && NothingFits(p, byteOffset, totalBytes, maxTokens, fits, count)
    ensures r.continuationBlocked ==> r.nextOffset == Some(byteOffset)
    ensures fits(FirstDraft(p, byteOffset, totalBytes)) ==> r.diff == p.diff
    ensures !fits(FirstDraft(p, byteOffset, totalBytes)) && fits(SecondDraft(p, byteOffset, totalBytes, maxTokens, count))
      ==> r == SecondDraft(p, byteOffset, totalBytes, maxTokens, count)
    ensures !fits(FirstDraft(p, byteOffset, totalBytes)) && !fits(SecondDraft(p, byteOffset, totalBytes, maxTokens, count))
      ==> IsShrunk(SecondDraft(p, byteOffset, totalBytes, maxTokens, count), r.(continuationBlocked := false), byteOffset, fits)
  {
    DraftsArePaged(p, byteOffset, totalBytes, maxTokens, count);
    r := FirstDraft(p, byteOffset, totalBytes);
    if fits(r) {
      return;
    }
    r := CutTexts(p, maxTokens, byteOffset, totalBytes, count);
    if fits(r) {
      return;
    }
    ghost var draft := r;
    ghost var times;
    r, times := ShrinkBodies(r, p.diff, byteOffset, totalBytes, fits);
    BlockedWhenNothingFits(draft, r, byteOffset, totalBytes, fits, times);
    assert r.(continuationBlocked := false) == r;
    if r.nextOffset == Some(byteOffset) && byteOffset < totalBytes {
      r := r.(continuationBlocked := true);
    }
  }

  /** The last stages end with an empty diff exactly when no halving that shows anything fits. */
  lemma BlockedWhenNothingFits(draft: Payload, r: Payload, byteOffset: nat, totalBytes: nat, fits: Payload -> bool,
          times: nat)
    requires AllScalar(draft.diff) && AllScalar(r.diff) && ShrunkEnough(draft, r, byteOffset, fits, times)
    requires r.nextOffset == Continue(r.diff, byteOffset, totalBytes)
    ensures r.nextOffset == Some(byteOffset) && byteOffset < totalBytes <==>
      byteOffset < totalBytes
      && forall g: nat :: Halved(draft.diff, g) != [] ==> !fits(Stage(draft, g, byteOffset))
  {
    if r.diff == [] {
      forall g: nat | Halved(draft.diff, g) != [] ensures !fits(Stage(draft, g, byteOffset)) {
        if g > times {
          HalvingShrinks(draft.diff, times, g);
        }
      }
    } else {
      assert Halved(draft.diff, times) != [] && fits(Stage(draft, times, byteOffset));
      PrefixIsScalar([], r.diff);
    }
  }

  lemma {:induction false} HalvingShrinks(text: Text, a: nat, b: nat)
    requires a <= b
    ensures |Halved(text, b)| <= |Halved(text, a)|
  {
    if a < b {
      HalvingShrinks(text, a, b - 1);
    }
  }

  lemma DraftsArePaged(p: Payload, byteOffset: nat, totalBytes: nat, maxTokens: int, count: Text -> nat)
    requires IsPagePayload(p, byteOffset, totalBytes)
    ensures Paged(FirstDraft(p, byteOffset, totalBytes), p.diff, byteOffset, totalBytes)
    ensures var r := SecondDraft(p, byteOffset, totalBytes, maxTokens, count);
      && Paged(r, p.diff, byteOffset, totalBytes) && !r.continuationBlocked
      && byteOffset + |EncodeAll(r.diff)| <= totalBytes
      && (p.diff != [] && r.nextOffset == Some(byteOffset) ==> r.diff == [])
  {
    var diff := CutToTokens(p.diff, count, Max(1, maxTokens / 2));
    PrefixIsScalar(diff, p.diff);
  }

  /** The second stage: every text is cut to its share of the tokens. */
  method CutTexts(p: Payload, maxTokens: int, byteOffset: nat, totalBytes: nat, count: Text -> nat) returns (r: Payload)
    requires AllScalar(p.diff)
    ensures r == SecondDraft(p, byteOffset, totalBytes, maxTokens, count)
  {
    var perField := PerFieldTokens(maxTokens, |p.fileDiffs|);
    var fileDiffs: seq<FileDiff> := [];
    for k := 0 to |p.fileDiffs|
      invariant fileDiffs == seq(k, m requires 0 <= m < k => CutFile(p.fileDiffs[m], count, perField))
    {
      fileDiffs := fileDiffs + [CutFile(p.fileDiffs[k], count, perField)];
    }
    var diff := TruncateToTokens(p.diff, count, Max(1, maxTokens / 2));
    PrefixIsScalar(diff, p.diff);
    var tokenTruncated := diff != p.diff;
    r := p.(fileDiffs := fileDiffs, diff := diff, nextOffset := Continue(diff, byteOffset, totalBytes),
            truncated := p.truncated || tokenTruncated,
            stopReason := if tokenTruncated then TokenBudget else ByteBudget);
  }

  /** The text after being halved a number of times. */
  function Halved(text: Text, times: nat): (r: Text)
    ensures r <= text
  {
    if times == 0 then text
    else
      var half := Halved(text, times - 1);
      half[..|half| / 2]
  }

  /** The payload without per-file bodies and with its diff halved a number of times. */
  function Stage(draft: Payload, times: nat, byteOffset: nat): Payload
    requires AllScalar(draft.diff)
  {
    var diff := Halved(draft.diff, times);
    PrefixIsScalar(diff, draft.diff);
    draft.(fileDiffs := seq(|draft.fileDiffs|, k requires 0 <= k < |draft.fileDiffs| => DropFile(draft.fileDiffs[k])),
           truncated := true, stopReason := TokenBudget, diff := diff,
           nextOffset := if times == 0 then draft.nextOffset else Some(byteOffset + |EncodeAll(diff)|))
  }

  /** No fewer halvings were enough, and the diff went to nothing before anything else was given up. */
  ghost predicate ShrunkEnough(draft: Payload, r: Payload, byteOffset: nat, fits: Payload -> bool, times: nat)
    requires AllScalar(draft.diff)
  {
    && (forall g: nat :: g < times ==> !fits(Stage(draft, g, byteOffset)))
    && r.diff == Halved(draft.diff, times)
    && (fits(Stage(draft, times, byteOffset)) ==> r == Stage(draft, times, byteOffset))
    && (!fits(Stage(draft, times, byteOffset)) ==> r.diff == [])
    && (fits(r) || (r.fileDiffs == [] && r.body == []))
    && (r.body == draft.body || r.fileDiffs == [])
  }

  ghost predicate IsShrunk(draft: Payload, r: Payload, byteOffset: nat, fits: Payload -> bool) {
    AllScalar(draft.diff) && exists times: nat :: ShrunkEnough(draft, r, byteOffset, fits, times)
  }

  /** The last stages: drop the per-file bodies, halve the diff until the payload fits,
      then drop the file entries one by one, then the body. */
  method ShrinkBodies(draft: Payload, page: Text, byteOffset: nat, totalBytes: nat, fits: Payload -> bool)
      returns (r: Payload, ghost times: nat)
    requires Paged(draft, page, byteOffset, totalBytes) && !draft.continuationBlocked
    requires byteOffset + |EncodeAll(draft.diff)| <= totalBytes
    ensures Paged(r, page, byteOffset, totalBytes) && !r.continuationBlocked
    ensures ShrunkEnough(draft, r, byteOffset, fits, times)
  {
    r, times := HalveDiff(draft, page, byteOffset, totalBytes, fits);
    r := DropEntries(r, fits);
  }

  /** One halving leads from one stage to the next. */
  method HalveOnce(p: Payload, byteOffset: nat, ghost draft: Payload, ghost times: nat) returns (r: Payload)
    requires AllScalar(draft.diff) && p == Stage(draft, times, byteOffset)
    ensures r == Stage(draft, times + 1, byteOffset)
  {
    var half := p.diff[..|p.diff| / 2];
    PrefixIsScalar(p.diff, draft.diff);
    PrefixIsScalar(half, p.diff);
    r := p.(diff := half, nextOffset := Some(byteOffset + |EncodeAll(half)|));
  }

  /** A part of a longer diff that stays short of the end is paged where it ends. */
  lemma HalfIsPaged(r: Payload, longer: Text, page: Text, byteOffset: nat, totalBytes: nat)
    requires longer <= page && AllScalar(longer) && byteOffset + |EncodeAll(longer)| <= totalBytes
    requires r.diff < longer && AllScalar(r.diff) && r.nextOffset == Some(byteOffset + |EncodeAll(r.diff)|)
    ensures Paged(r, page, byteOffset, totalBytes) && byteOffset + |EncodeAll(r.diff)| <= totalBytes
  {
    PrefixIsScalar(r.diff, longer);
  }

  /** Halve the diff until the payload without per-file bodies fits. */
  method HalveDiff(draft: Payload, page: Text, byteOffset: nat, totalBytes: nat, fits: Payload -> bool)
      returns (r: Payload, ghost times: nat)
    requires Paged(draft, page, byteOffset, totalBytes) && !draft.continuationBlocked
    requires byteOffset + |EncodeAll(draft.diff)| <= totalBytes
    ensures Paged(r, page, byteOffset, totalBytes)
    ensures r == Stage(draft, times, byteOffset) && (fits(r) || r.diff == [])
    ensures forall g: nat :: g < times ==> !fits(Stage(draft, g, byteOffset))
  {
    var dropped := seq(|draft.fileDiffs|, k requires 0 <= k < |draft.fileDiffs| => DropFile(draft.fileDiffs[k]));
    r := draft.(fileDiffs := dropped, truncated := true, stopReason := TokenBudget);
    times := 0;
    while !fits(r) && r.diff != []
      invariant r == Stage(draft, times, byteOffset) && Paged(r, page, byteOffset, totalBytes)
      invariant byteOffset + |EncodeAll(r.diff)| <= totalBytes
      invariant forall g: nat :: g < times ==> !fits(Stage(draft, g, byteOffset))
      decreases |r.diff|
    {
      r := HalveOnce(r, byteOffset, draft, times);
      PrefixIsScalar(r.diff, draft.diff);
      HalfIsPaged(r, Halved(draft.diff, times), page, byteOffset, totalBytes);
      times := times + 1;
    }
  }

  /** With the diff gone, drop the file entries one by one until the payload fits, then the body. */
  method DropEntries(p: Payload, fits: Payload -> bool) returns (r: Payload)
    ensures fits(p) ==> r == p
    ensures fits(r) || (r.fileDiffs == [] && r.body == [])
    ensures r.diff == p.diff && r.nextOffset == p.nextOffset && r.continuationBlocked == p.continuationBlocked
    ensures r.fileDiffs <= p.fileDiffs && (r.body == p.body || r.fileDiffs == [])
  {
    r := p;
    while !fits(r) && r.fileDiffs != []
      invariant fits(p) ==> r == p
      invariant r.diff == p.diff && r.nextOffset == p.nextOffset && r.continuationBlocked == p.continuationBlocked
      invariant r.fileDiffs <= p.fileDiffs && r.body == p.body
      decreases |r.fileDiffs|
    {
      var fewer := r.fileDiffs[..|r.fileDiffs| - 1];
      r := r.(fileDiffs := fewer, files := if r.files > |fewer| then r.files - 1 else r.files,
              fileDiffsTruncated := true);
    }
    if !fits(r) && r.body != [] {
      r := r.(body := [], bodyTruncated := true);
    }
  }

  // ----- following next_offset -----

  /** The payload of the page asked for; the template holds the parts that do not depend on it. */
  ghost function AskedPage(template: Payload, text: Text, offset: int, maxBytes: int): Payload
    requires AllScalar(text)
  {
    var j := PageEnd(text, offset, maxBytes);
    template.(diff := text[PageStart(text, offset)..j], truncated := j < |text|, continuationBlocked := false)
  }

  lemma AskedPageIsPage(template: Payload, text: Text, offset: int, maxBytes: int)
    requires AllScalar(text)
    ensures IsPagePayload(AskedPage(template, text, offset, maxBytes), Boundary(text, PageStart(text, offset)), |EncodeAll(text)|)
  {
    PageEnds(text, PageStart(text, offset), PageEnd(text, offset, maxBytes));
  }

  /** An answer that shows the text from character i on, at most up to character j. */
  ghost predicate IsAnswer(text: Text, i: nat, j: nat, r: Payload) {
    && AllScalar(text) && i + |r.diff| <= j <= |text|
    && r.diff == text[i..i + |r.diff|]
    && r.nextOffset == if i + |r.diff| < |text| then Some(Boundary(text, i + |r.diff|)) else None
  }

  /** What the flag of an empty answer says: blocked if nothing fits, unmarked if it stalls. */
  ghost predicate IsFlagged(p: Payload, at: nat, total: nat, maxTokens: int, fits: Payload -> bool, count: Text -> nat,
          r: Payload) {
    && AllScalar(p.diff)
    && (r.continuationBlocked <==> at < total && NothingFits(p, at, total, maxTokens, fits, count))
    && (r.nextOffset == Some(at) ==> r.continuationBlocked == !StallsUnmarked(p, at, total, maxTokens, fits, count))
    && (r.continuationBlocked ==> r.nextOffset == Some(at))
  }

  /** One answer of git_diff: the page as cut by bytes, then fitted. */
  method GitDiff(raw: seq<byte>, offset: int, maxBytes: int, maxTokens: int, template: Payload,
                 fits: Payload -> bool, count: Text -> nat, ghost text: Text)
      returns (r: Payload)
    requires AllScalar(text) && raw == EncodeAll(text)
    ensures IsAnswer(text, PageStart(text, offset), PageEnd(text, offset, maxBytes), r)
    ensures IsFlagged(AskedPage(template, text, offset, maxBytes), Boundary(text, PageStart(text, offset)), |raw|,
                      maxTokens, fits, count, r)
  {
    var page, start, end := Utf8BytePage(raw, offset, maxBytes, text);
    ghost var i, j := PageStart(text, offset), PageEnd(text, offset, maxBytes);
    PageEnds(text, i, j);
    var payload := template.(diff := page, truncated := end < |raw|, continuationBlocked := false);
    r := FitPage(payload, maxTokens, start, |raw|, fits, count);
    PrefixIsAnswer(text, i, j, r);
  }

  /** The fitted payload, with only what its flags and its diff say. */
  method FitPage(p: Payload, maxTokens: int, byteOffset: nat, totalBytes: nat, fits: Payload -> bool,
          count: Text -> nat)
      returns (r: Payload)
    requires IsPagePayload(p, byteOffset, totalBytes)
    ensures Paged(r, p.diff, byteOffset, totalBytes)
    ensures IsFlagged(p, byteOffset, totalBytes, maxTokens, fits, count, r)
  {
    r := FitGitPayload(p, maxTokens, byteOffset, totalBytes, fits, count);
  }

  lemma PrefixIsAnswer(text: Text, i: nat, j: nat, r: Payload)
    requires AllScalar(text) && i <= j <= |text| && Paged(r, text[i..j], Boundary(text, i), |EncodeAll(text)|)
    ensures IsAnswer(text, i, j, r)
  {
    var n := |r.diff|;
    assert r.diff == text[i..j][..n];
    assert text[i..j][..n] == text[i..i + n];
    PageEnds(text, i, i + n);
  }

  lemma PageEnds(text: Text, i: nat, j: nat)
    requires AllScalar(text) && i <= j <= |text|
    ensures AllScalar(text[i..j])
    ensures Boundary(text, j) == Boundary(text, i) + |EncodeAll(text[i..j])| <= |EncodeAll(text)|
    ensures Boundary(text, j) == |EncodeAll(text)| <==> j == |text|
    ensures Boundary(text, j) == Boundary(text, i) <==> i == j
  {
    assert text[..|text|] == text;
    BoundarySlices(text, i, j);
    BoundarySlices(text, j, |text|);
  }

  /** An answer either ends the text, or continues behind what it shows, or shows nothing. */
  lemma AnswerContinues(text: Text, i: nat, j: nat, r: Payload)
    requires IsAnswer(text, i, j, r)
    ensures text[..i] + r.diff == text[..i + |r.diff|]
    ensures r.nextOffset == None ==> text[..i] + r.diff == text
    ensures r.nextOffset != None ==>
      i < |text| && r.nextOffset == Some(Boundary(text, i + |r.diff|))
      && (r.nextOffset == Some(Boundary(text, i)) <==> r.diff == [])
  {
    PageEnds(text, i, i + |r.diff|);
    assert text[..|text|] == text;
  }

  /** Any one character costs at most half the budget, if the budget is large enough for any
      response at all. */
  ghost predicate CharactersAreCheap(text: Text, maxTokens: int, fits: Payload -> bool, count: Text -> nat) {
    forall i, q :: 0 <= i < |text| && fits(q) ==> count([text[i]]) <= Max(1, maxTokens / 2)
  }

  /** An empty page at a character comes back unmarked exactly when the character needs more
      bytes than were asked for and a response without it fits. */
  lemma StallsUnmarkedIff(template: Payload, text: Text, i: nat, maxBytes: int, maxTokens: int, fits: Payload -> bool,
          count: Text -> nat)
    requires AllScalar(text) && i < |text| && 0 < maxBytes && CharactersAreCheap(text, maxTokens, fits, count)
    ensures var at, total := Boundary(text, i), |EncodeAll(text)|; var p := AskedPage(template, text, at, maxBytes);
      AllScalar(p.diff) && (StallsUnmarked(p, at, total, maxTokens, fits, count) <==>
        && maxBytes < |Encode(text[i])|
        && (fits(FirstDraft(p, at, total)) || fits(SecondDraft(p, at, total, maxTokens, count))))
  {
    var at := Boundary(text, i);
    PageIsEmptyIff(text, i, maxBytes);
    AskedPageIsPage(template, text, at, maxBytes);
    OneMore(text, i);
    var p := AskedPage(template, text, at, maxBytes);
    if p.diff != [] {
      assert p.diff[..1] == [text[i]];
    }
  }

  /** Following next_offset from 0 gives the diff from its beginning without a gap or an overlap,
      and all of it unless a page comes back empty; an empty page is blocked or stalls unmarked. */
  method ReadWholeDiff(raw: seq<byte>, maxBytes: int, maxTokens: int, template: Payload,
                       fits: Payload -> bool, count: Text -> nat, ghost text: Text)
      returns (content: Text, stalled: bool, last: Payload)
    requires AllScalar(text) && raw == EncodeAll(text) && 0 < maxBytes
    ensures content <= text && (stalled <==> content != text)
    ensures stalled ==>
      var at := Boundary(text, |content|);
      && last.diff == [] && last.nextOffset == Some(at)
      && IsFlagged(AskedPage(template, text, at, maxBytes), at, |raw|, maxTokens, fits, count, last)
    ensures 4 <= maxBytes && CharactersAreCheap(text, maxTokens, fits, count) && stalled ==> last.continuationBlocked
  {
    content, stalled := [], false;
    var offset := 0;
    ghost var i := 0;
    assert text[..0] == [];
    while true
      invariant i <= |text| && offset == Boundary(text, i) && content == text[..i] && !stalled
      decreases |text| - i
    {
      last := NextPage(raw, offset, maxBytes, maxTokens, template, fits, count, text, i);
      AnswerContinues(text, i, PageEnd(text, offset, maxBytes), last);
      content := content + last.diff;
      if last.nextOffset == None {
        return;
      }
      if last.nextOffset.value == offset {
        stalled := true;
        MarkedWithFourBytes(template, text, i, maxBytes, maxTokens, fits, count, last);
        return;
      }
      offset := last.nextOffset.value;
      i := i + |last.diff|;
    }
  }

  /** One page asked for at a character boundary shows the text from there on. */
  method NextPage(raw: seq<byte>, offset: nat, maxBytes: int, maxTokens: int, template: Payload,
                  fits: Payload -> bool, count: Text -> nat, ghost text: Text, ghost i: nat)
      returns (r: Payload)
    requires AllScalar(text) && raw == EncodeAll(text) && 0 < maxBytes
    requires i <= |text| && offset == Boundary(text, i)
    ensures IsAnswer(text, i, PageEnd(text, offset, maxBytes), r)
    ensures IsFlagged(AskedPage(template, text, offset, maxBytes), offset, |raw|, maxTokens, fits, count, r)
  {
    StartsThere(text, i);
    r := GitDiff(raw, offset, maxBytes, maxTokens, template, fits, count, text);
  }

  /** With four bytes asked for and characters that are cheap, an empty page is always marked. */
  lemma MarkedWithFourBytes(template: Payload, text: Text, i: nat, maxBytes: int, maxTokens: int,
          fits: Payload -> bool, count: Text -> nat, r: Payload)
    requires AllScalar(text) && i < |text| && 0 < maxBytes && r.nextOffset == Some(Boundary(text, i))
    requires IsFlagged(AskedPage(template, text, Boundary(text, i), maxBytes), Boundary(text, i), |EncodeAll(text)|,
                       maxTokens, fits, count, r)
    ensures 4 <= maxBytes && CharactersAreCheap(text, maxTokens, fits, count) ==> r.continuationBlocked
  {
    if 4 <= maxBytes && CharactersAreCheap(text, maxTokens, fits, count) {
      StallsUnmarkedIff(template, text, i, maxBytes, maxTokens, fits, count);
    }
  }

  /** The unmarked stall does happen: one byte asked for at a character of two, and room for
      the response. The page is empty, next_offset is the offset, and no flag says so. */
  lemma OneByteStalls(template: Payload, maxTokens: int, count: Text -> nat)
    ensures var text := [0xE9]; var p := AskedPage(template, text, 0, 1);
      AllScalar(text) && EncodeAll(text) == [0xC3, 0xA9] && p.diff == []
      && StallsUnmarked(p, 0, 2, maxTokens, _ => true, count)
      && FirstDraft(p, 0, 2).nextOffset == Some(0) && !FirstDraft(p, 0, 2).continuationBlocked
  {
    var text := [0xE9];
    assert AllScalar(text) && Boundary(text, 0) == 0;
    assert EncodeAll(text) == Encode(0xE9) + EncodeAll([]);
    PageIsEmptyIff(text, 0, 1);
  }
}
