/** Paged reading of a durable job log by byte cursor: _render_job_output and the
    cursor logic of output_job in shell.py. The token budget is an arbitrary
    predicate on text, so nothing here depends on how tokens are counted. */
module JobOutput {
  import opened Bytes
  import opened Options
  import opened Utf8Units

  type Text = seq<int>

  const MAX_JOB_OUTPUT_BYTES := 262144

  datatype Rendered = Rendered(
    content: Text,
    bytesReturned: nat,
    replacementCount: nat,
    incompleteTrailingBytes: nat,
    nextUnitBytesRequired: Option<nat>,
    oversizedUnit: bool,
    tokenTruncated: bool)

  function Replacements(units: seq<Unit>): nat {
    if units == [] then 0 else (if units[0].replacement then 1 else 0) + Replacements(units[1..])
  }

  lemma {:induction false} ReplacementsAppend(a: seq<Unit>, b: seq<Unit>)
    ensures Replacements(a + b) == Replacements(a) + Replacements(b)
  {
    if a == [] {
      assert a + b == b;
    } else {
      assert (a + b)[1..] == a[1..] + b;
      ReplacementsAppend(a[1..], b);
    }
  }

  /** k units are shown: every shorter non-empty prefix fits, the next one would not;
      a first unit that does not fit alone is shown by itself. */
  ghost predicate IsKept(units: seq<Unit>, fits: Text -> bool, k: nat) {
    && k <= |units|
    && (units != [] ==> 1 <= k)
    && (forall j :: 1 <= j < k ==> fits(TextOf(units[..j])))
    && (k > 1 ==> fits(TextOf(units[..k])))
    && (k < |units| && fits(TextOf(units[..k])) ==> !fits(TextOf(units[..k + 1])))
    && (k > 0 && !fits(TextOf(units[..k])) ==> k == 1)
  }

  lemma KeptIsUnique(units: seq<Unit>, fits: Text -> bool, k: nat, m: nat)
    requires IsKept(units, fits, k) && IsKept(units, fits, m)
    ensures k == m
  {
  }

  /** The facts the payload reports about the k units it shows. */
  ghost predicate Describes(page: Rendered, raw: seq<byte>, final: bool, fits: Text -> bool, k: nat) {
    var units := Units(raw, final);
    && IsKept(units, fits, k)
    && page.content == TextOf(units[..k])
    && page.bytesReturned == |RawOf(units[..k])|
    && page.replacementCount == Replacements(units[..k])
    && page.incompleteTrailingBytes == (if k == |units| then Trailing(raw, final) else 0)
    && page.oversizedUnit == (k > 0 && !fits(page.content))
    && page.tokenTruncated == (page.oversizedUnit || k < |units|)
    && page.nextUnitBytesRequired ==
       (if 0 < Trailing(raw, final) <= |raw| then ExpectedLength(raw[|raw| - Trailing(raw, final)]) else None)
  }

  lemma RawGrows(units: seq<Unit>, i: nat)
    requires i < |units|
    ensures RawOf(units[..i + 1]) == RawOf(units[..i]) + units[i].raw
    ensures TextOf(units[..i + 1]) == TextOf(units[..i]) + [units[i].Text()]
    ensures Replacements(units[..i + 1]) == Replacements(units[..i]) + (if units[i].replacement then 1 else 0)
  {
    assert units[..i + 1] == units[..i] + [units[i]];
    RawOfAppend(units[..i], [units[i]]);
    TextOfAppend(units[..i], [units[i]]);
    ReplacementsAppend(units[..i], [units[i]]);
  }

  /** The loop over the units: it shows them until one more would not fit. */
  method RenderUnits(units: seq<Unit>, fits: Text -> bool)
      returns (rendered: Text, bytesReturned: nat, replacementCount: nat, oversized: bool, truncated: bool)
    ensures IsKept(units, fits, |rendered|) && rendered == TextOf(units[..|rendered|])
    ensures bytesReturned == |RawOf(units[..|rendered|])| && replacementCount == Replacements(units[..|rendered|])
    ensures oversized == (|rendered| > 0 && !fits(rendered)) && truncated == (oversized || |rendered| < |units|)
  {
    rendered, bytesReturned, replacementCount, oversized, truncated := [], 0, 0, false, false;
    var i := 0;
    while i < |units|
      invariant 0 <= i <= |units|
      invariant rendered == TextOf(units[..i]) && bytesReturned == |RawOf(units[..i])|
      invariant replacementCount == Replacements(units[..i])
      invariant forall j :: 1 <= j <= i ==> fits(TextOf(units[..j]))
    {
      RawGrows(units, i);
      var candidate := rendered + [units[i].Text()];
      if !fits(candidate) {
        truncated := true;
        break;
      }
      rendered := candidate;
      bytesReturned := bytesReturned + |units[i].raw|;
      replacementCount := replacementCount + (if units[i].replacement then 1 else 0);
      i := i + 1;
    }
    if truncated && i == 0 {
      RawGrows(units, 0);
      rendered := [units[0].Text()];
      bytesReturned := |units[0].raw|;
      replacementCount := if units[0].replacement then 1 else 0;
      oversized := true;
    }
  }

  /** Every unit shows one code point, so the length of the content is the number of units. */
  method RenderJobOutput(raw: seq<byte>, final: bool, fits: Text -> bool) returns (page: Rendered)
    ensures Describes(page, raw, final, fits, |page.content|)
  {
    var units, trailing := DecodeUtf8Units(raw, final);
    TrailingIsShort(raw, 0, final);
    var required: Option<nat> := None;
    if trailing != 0 {
      required := ExpectedLength(raw[|raw| - trailing]);
    }
    var rendered, bytesReturned, replacementCount, oversized, truncated := RenderUnits(units, fits);
    ShownInFull(raw, final, units, |rendered|);
    page := Rendered(rendered, bytesReturned, replacementCount,
                     if bytesReturned == |RawOf(units)| then trailing else 0,
                     required, oversized, truncated);
  }

  /** The facts reported leave no choice: a page is a function of the bytes and the budget. */
  lemma PageIsUnique(raw: seq<byte>, final: bool, fits: Text -> bool, p: Rendered, k: nat, q: Rendered, m: nat)
    requires Describes(p, raw, final, fits, k) && Describes(q, raw, final, fits, m)
    ensures p == q && k == m
  {
    KeptIsUnique(Units(raw, final), fits, k, m);
  }

  lemma RawOfKept(units: seq<Unit>, k: nat)
    requires k <= |units|
    ensures RawOf(units) == RawOf(units[..k]) + RawOf(units[k..])
  {
    assert units == units[..k] + units[k..];
    RawOfAppend(units[..k], units[k..]);
  }

  lemma ShownInFull(raw: seq<byte>, final: bool, units: seq<Unit>, k: nat)
    requires units == Units(raw, final) && k <= |units|
    ensures |RawOf(units[..k])| == |RawOf(units)| <==> k == |units|
  {
    RawOfKept(units, k);
    if k < |units| {
      UnitsAreNotEmpty(raw, 0, final);
      assert units[k] in units && units[k..][0] == units[k];
    } else {
      assert units[..k] == units;
    }
  }

  lemma {:induction false} UnitsAreNotEmpty(data: seq<byte>, index: nat, final: bool)
    requires index <= |data|
    ensures forall u :: u in DecodeFrom(data, index, final).units ==> 1 <= |u.raw| <= 4
    decreases |data| - index
  {
    if index < |data| {
      var scan := Classify(data, index, final);
      if scan.Take? {
        UnitsAreNotEmpty(data, index + scan.length, final);
      }
    }
  }

  // ----- reading by cursor -----

  datatype Reply =
    | InvalidArguments
    | InvalidCursor
    | Page(rendered: Rendered, nextCursor: nat, hasMore: bool, caughtUp: bool, eof: bool, minimumMaxBytes: Option<nat>)

  /** The bytes one request reads from a log snapshot. */
  function Window(log: seq<byte>, cursor: nat, maxBytes: nat): seq<byte>
    requires cursor <= |log|
  {
    log[cursor..cursor + if maxBytes < |log| - cursor then maxBytes else |log| - cursor]
  }

  /** One request on the log as it stands; terminal says that the job has ended. */
  method OutputJob(log: seq<byte>, terminal: bool, cursor: int, maxBytes: int, fits: Text -> bool)
      returns (reply: Reply)
    ensures reply.InvalidArguments? <==> cursor < 0 || !(1 <= maxBytes <= MAX_JOB_OUTPUT_BYTES)
    ensures reply.InvalidCursor? <==> 0 <= cursor && 1 <= maxBytes <= MAX_JOB_OUTPUT_BYTES && |log| < cursor
    ensures reply.Page? ==>
      var raw := Window(log, cursor, maxBytes);
      && Describes(reply.rendered, raw, terminal && cursor + |raw| >= |log|, fits, |reply.rendered.content|)
      && reply.nextCursor == cursor + reply.rendered.bytesReturned
      && reply.nextCursor <= |log|
      && reply.hasMore == (reply.nextCursor < |log|)
      && reply.caughtUp == (reply.nextCursor == |log|)
      && reply.eof == (reply.caughtUp && terminal)
      && reply.minimumMaxBytes ==
         (if reply.rendered.bytesReturned == 0 && reply.rendered.incompleteTrailingBytes > 0
          then reply.rendered.nextUnitBytesRequired else None)
  {
    if cursor < 0 || !(1 <= maxBytes <= MAX_JOB_OUTPUT_BYTES) {
      return InvalidArguments;
    }
    if cursor > |log| {
      return InvalidCursor;
    }
    var raw := Window(log, cursor, maxBytes);
    var finalChunk := terminal && cursor + |raw| >= |log|;
    var rendered := RenderJobOutput(raw, finalChunk, fits);
    KeptBytes(raw, finalChunk, |rendered.content|);
    var nextCursor := cursor + rendered.bytesReturned;
    reply := Page(rendered, nextCursor, nextCursor < |log|, nextCursor == |log|,
                  nextCursor == |log| && terminal,
                  if rendered.bytesReturned == 0 && rendered.incompleteTrailingBytes > 0
                  then rendered.nextUnitBytesRequired else None);
  }

  lemma KeptBytes(raw: seq<byte>, final: bool, k: nat)
    requires k <= |Units(raw, final)|
    ensures |RawOf(Units(raw, final)[..k])| <= |raw|
  {
    UnitsPartitionInput(raw, 0, final);
    RawOfKept(Units(raw, final), k);
  }

  /** Cutting after k units and decoding on from there gives the remaining units. */
  lemma {:induction false} CutAfter(data: seq<byte>, index: nat, final: bool, k: nat, us: seq<Unit>) returns (next: nat)
    requires index <= |data| && us == DecodeFrom(data, index, final).units && k <= |us|
    ensures next == index + |RawOf(us[..k])| <= |data|
    ensures us[k..] == DecodeFrom(data, next, final).units
    decreases k
  {
    if k == 0 {
      assert us[..0] == [] && us[0..] == us;
      next := index;
    } else {
      var first := FirstCut(data, index, final, us);
      next := CutAfter(data, first, final, k - 1, us[1..]);
      CutCons(us, us[1..], k);
    }
  }

  lemma FirstCut(data: seq<byte>, index: nat, final: bool, us: seq<Unit>) returns (next: nat)
    requires index <= |data| && us == DecodeFrom(data, index, final).units && us != []
    ensures index < next <= |data| && next == index + |us[0].raw|
    ensures us[1..] == DecodeFrom(data, next, final).units
  {
    var scan := Classify(data, index, final);
    next := index + scan.length;
  }

  lemma CutCons(us: seq<Unit>, vs: seq<Unit>, k: nat)
    requires us != [] && us[1..] == vs && 0 < k <= |us|
    ensures us[k..] == vs[k - 1..]
    ensures |RawOf(us[..k])| == |us[0].raw| + |RawOf(vs[..k - 1])|
  {
    assert us[..k][1..] == vs[..k - 1];
  }

  /** The units of a window begin the units of everything from its start on. */
  lemma WindowUnitsComeFirst(raw: seq<byte>, rest: seq<byte>, final: bool)
    requires raw <= rest && (final ==> |raw| == |rest|)
    ensures Units(raw, final) <= Units(rest, true)
  {
    if final {
      assert raw == rest;
    } else {
      DecodingIsSplitInvariant(raw, rest, true);
    }
  }

  lemma TakeAndRest(head: seq<Unit>, all: seq<Unit>, k: nat)
    requires head <= all && k <= |head|
    ensures all[..k] == head[..k] && all == head[..k] + all[k..]
  {
  }

  lemma UnitsContinue(log: seq<byte>, cursor: nat, raw: seq<byte>, final: bool, head: seq<Unit>, k: nat)
    requires cursor <= |log| && raw <= log[cursor..] && (final ==> cursor + |raw| == |log|)
    requires head == Units(raw, final) && k <= |head|
    ensures cursor + |RawOf(head[..k])| <= |log|
    ensures DecodeFrom(log, cursor, true).units
      == head[..k] + DecodeFrom(log, cursor + |RawOf(head[..k])|, true).units
  {
    var all := HeadOfAll(log, cursor, raw, final, head);
    TakeAndRest(head, all, k);
    var _ := CutAfter(log, cursor, true, k, all);
  }

  lemma HeadOfAll(log: seq<byte>, cursor: nat, raw: seq<byte>, final: bool, head: seq<Unit>) returns (all: seq<Unit>)
    requires cursor <= |log| && raw <= log[cursor..] && (final ==> cursor + |raw| == |log|)
    requires head == Units(raw, final)
    ensures all == DecodeFrom(log, cursor, true).units && head <= all
  {
    UnitsOfSuffix(log[cursor..], log, cursor, 0, true);
    WindowUnitsComeFirst(raw, log[cursor..], final);
    all := DecodeFrom(log, cursor, true).units;
  }

  /** A page read at any cursor from any snapshot of a log that only grows shows the
      next units of the one-pass decoding of the log as it finally is, and the
      decoding from the next cursor goes on where the page stops. The snapshot may
      be taken while the job runs, and any token budget may have cut the page. */
  lemma PageContinuesOnePass(log: seq<byte>, snapshot: seq<byte>, cursor: nat, maxBytes: nat, raw: seq<byte>,
          final: bool, k: nat)
    requires snapshot <= log && cursor <= |snapshot| && raw == Window(snapshot, cursor, maxBytes)
    requires final ==> cursor + |raw| == |log|
    requires k <= |Units(raw, final)|
    ensures var shown := Units(raw, final)[..k];
      && cursor + |RawOf(shown)| <= |snapshot|
      && DecodeFrom(log, cursor, true).units == shown + DecodeFrom(log, cursor + |RawOf(shown)|, true).units
  {
    WindowIsPrefix(log, snapshot, cursor, maxBytes);
    RawContinues(log, cursor, raw, final, k);
  }

  lemma WindowIsPrefix(log: seq<byte>, snapshot: seq<byte>, cursor: nat, maxBytes: nat)
    requires snapshot <= log && cursor <= |snapshot|
    ensures Window(snapshot, cursor, maxBytes) <= log[cursor..]
    ensures cursor + |Window(snapshot, cursor, maxBytes)| <= |snapshot|
  {
  }

  lemma RawContinues(log: seq<byte>, cursor: nat, raw: seq<byte>, final: bool, k: nat)
    requires cursor <= |log| && raw <= log[cursor..] && (final ==> cursor + |raw| == |log|)
    requires k <= |Units(raw, final)|
    ensures var shown := Units(raw, final)[..k];
      && |RawOf(shown)| <= |raw| && cursor + |RawOf(shown)| <= |log|
      && DecodeFrom(log, cursor, true).units == shown + DecodeFrom(log, cursor + |RawOf(shown)|, true).units
  {
    KeptBytes(raw, final, k);
    UnitsContinue(log, cursor, raw, final, Units(raw, final), k);
  }

  /** The page of one request on an ended job, whose log no longer changes. */
  ghost predicate Shows(log: seq<byte>, cursor: nat, maxBytes: nat, fits: Text -> bool, page: Rendered, k: nat)
    requires cursor <= |log|
  {
    var raw := Window(log, cursor, maxBytes);
    Describes(page, raw, cursor + |raw| >= |log|, fits, k)
  }

  /** With at least four bytes asked for, a request on an ended job always moves on. */
  lemma FourBytesAlwaysProgress(log: seq<byte>, cursor: nat, maxBytes: nat, fits: Text -> bool, page: Rendered, k: nat)
    requires cursor < |log| && 4 <= maxBytes
    requires Shows(log, cursor, maxBytes, fits, page, k)
    ensures page.bytesReturned > 0
  {
    EnoughBytesProgress(log, cursor, maxBytes, fits, page, k, 4);
  }

  /** A window that holds the next unit, or reaches the end, yields at least one unit. */
  lemma EnoughBytesProgress(log: seq<byte>, cursor: nat, maxBytes: nat, fits: Text -> bool, page: Rendered, k: nat,
          n: nat)
    requires cursor < |log| && n <= maxBytes
    requires n == 4 || (ExpectedLength(log[cursor]) == Some(n))
    requires Shows(log, cursor, maxBytes, fits, page, k)
    ensures page.bytesReturned > 0
  {
    var raw := Window(log, cursor, maxBytes);
    var final := cursor + |raw| >= |log|;
    assert raw[0] == log[cursor];
    if Classify(raw, 0, final).Incomplete? {
      assert false;
    }
    FirstUnitIsShown(raw, final, fits, page, k);
  }

  lemma FirstUnitIsShown(raw: seq<byte>, final: bool, fits: Text -> bool, page: Rendered, k: nat)
    requires raw != [] && Classify(raw, 0, final).Take? && Describes(page, raw, final, fits, k)
    ensures page.bytesReturned > 0
  {
    var scan := Classify(raw, 0, final);
    DecodeStep(raw, 0, final, scan.length, scan.replacement);
    var units := Units(raw, final);
    assert units[..k][0].raw == raw[..scan.length];
  }

  /** minimum_max_bytes_for_progress is right: it is reported exactly when a request on
      an ended job gets nothing before the end, it exceeds what was asked for, and any
      later request for that many bytes at the same cursor gets at least one unit. */
  lemma ReportedMinimumProgresses(log: seq<byte>, cursor: nat, maxBytes: nat, fits: Text -> bool, page: Rendered,
          k: nat)
    requires cursor < |log| && 1 <= maxBytes && page.bytesReturned == 0
    requires Shows(log, cursor, maxBytes, fits, page, k)
    ensures page.incompleteTrailingBytes > 0 && page.nextUnitBytesRequired.Some?
    ensures maxBytes < page.nextUnitBytesRequired.value <= 4
    ensures forall later: nat, fits2: Text -> bool, page2: Rendered, k2: nat ::
      page.nextUnitBytesRequired.value <= later && Shows(log, cursor, later, fits2, page2, k2)
      ==> page2.bytesReturned > 0
  {
    var raw := Window(log, cursor, maxBytes);
    var final := cursor + |raw| >= |log|;
    assert raw[0] == log[cursor];
    if Classify(raw, 0, final).Take? {
      FirstUnitIsShown(raw, final, fits, page, k);
      assert false;
    }
    var n := page.nextUnitBytesRequired.value;
    forall later: nat, fits2: Text -> bool, page2: Rendered, k2: nat |
      n <= later && Shows(log, cursor, later, fits2, page2, k2)
      ensures page2.bytesReturned > 0
    {
      EnoughBytesProgress(log, cursor, later, fits2, page2, k2, n);
    }
  }

  lemma PageAddsText(log: seq<byte>, cursor: nat, maxBytes: nat, fits: Text -> bool, page: Rendered, k: nat)
    requires cursor <= |log| && Shows(log, cursor, maxBytes, fits, page, k)
    ensures cursor + page.bytesReturned <= |log|
    ensures TextOf(DecodeFrom(log, cursor, true).units)
      == page.content + TextOf(DecodeFrom(log, cursor + page.bytesReturned, true).units)
  {
    var raw := Window(log, cursor, maxBytes);
    PageContinuesOnePass(log, log, cursor, maxBytes, raw, cursor + |raw| >= |log|, k);
    TextOfAppend(Units(raw, cursor + |raw| >= |log|)[..k], DecodeFrom(log, cursor + page.bytesReturned, true).units);
  }

  lemma PageReadsOn(log: seq<byte>, cursor: nat, maxBytes: nat, fits: Text -> bool, page: Rendered, k: nat)
    requires cursor < |log| && 4 <= maxBytes
    requires Shows(log, cursor, maxBytes, fits, page, k)
    ensures 0 < page.bytesReturned && cursor + page.bytesReturned <= |log|
    ensures TextOf(DecodeFrom(log, cursor, true).units)
      == page.content + TextOf(DecodeFrom(log, cursor + page.bytesReturned, true).units)
  {
    FourBytesAlwaysProgress(log, cursor, maxBytes, fits, page, k);
    PageAddsText(log, cursor, maxBytes, fits, page, k);
  }

  method ReadPage(log: seq<byte>, cursor: nat, maxBytes: int, fits: Text -> bool)
      returns (content: Text, nextCursor: nat)
    requires cursor < |log| && 4 <= maxBytes <= MAX_JOB_OUTPUT_BYTES
    ensures cursor < nextCursor <= |log|
    ensures TextOf(DecodeFrom(log, cursor, true).units)
      == content + TextOf(DecodeFrom(log, nextCursor, true).units)
  {
    var page;
    page, nextCursor := AskEndedJob(log, cursor, maxBytes, fits);
    PageReadsOn(log, cursor, maxBytes, fits, page, |page.content|);
    content := page.content;
  }

  /** A valid request on an ended job. */
  method AskEndedJob(log: seq<byte>, cursor: nat, maxBytes: int, fits: Text -> bool)
      returns (page: Rendered, nextCursor: nat)
    requires cursor <= |log| && 1 <= maxBytes <= MAX_JOB_OUTPUT_BYTES
    ensures Shows(log, cursor, maxBytes, fits, page, |page.content|)
    ensures nextCursor == cursor + page.bytesReturned
  {
    var reply := OutputJob(log, true, cursor, maxBytes, fits);
    page, nextCursor := reply.rendered, reply.nextCursor;
  }

  /** Following next_cursor from 0 on an ended job reaches the end of the log, and the
      pages put together are the one-pass decoding of the whole log. */
  method ReadWholeLog(log: seq<byte>, maxBytes: int, fits: Text -> bool) returns (content: Text, requests: nat)
    requires 4 <= maxBytes <= MAX_JOB_OUTPUT_BYTES
    ensures content == TextOf(Units(log, true))
    ensures requests <= |log|
  {
    content, requests := [], 0;
    var cursor := 0;
    while cursor < |log|
      invariant 0 <= cursor <= |log|
      invariant requests <= cursor
      invariant content + TextOf(DecodeFrom(log, cursor, true).units) == TextOf(Units(log, true))
    {
      var page;
      page, cursor := ReadPage(log, cursor, maxBytes, fits);
      content := content + page;
      requests := requests + 1;
    }
  }
}
