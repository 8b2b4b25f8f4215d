/** The streaming collectors of search.py: one pass over the events, with only a window of
    recent lines and a queue of matches whose context is still open, against the naive
    result of module SearchNaive. */
module SearchCollector {
  import opened Options
  import opened SearchNaive

  const MAX_PENDING_CONTENT_MATCHES := 1000

  datatype StopReason = EndOfResults | Limit | TokenBudget | ContextBufferLimit

  /** The page holds a stretch of the naive result that starts at offset. */
  ghost predicate IsStretch(total: seq<Item>, offset: nat, items: seq<Item>) {
    items == [] || (offset + |items| <= |total| && items == total[offset..offset + |items|])
  }

  /** Item k of the naive result comes from file f. */
  ghost predicate FromFile(files: seq<FileEvents>, f: nat, k: nat, before: nat, after: nat) {
    f < |files| && |Naive(files[..f], before, after)| <= k < |Naive(files[..f + 1], before, after)|
  }

  /** The item a thousand places on starts before the context of item m ends. */
  ghost predicate Overlaps(items: seq<Item>, m: nat, after: nat) {
    && m + MAX_PENDING_CONTENT_MATCHES < |items|
    && items[m + MAX_PENDING_CONTENT_MATCHES].line <= items[m].line + after
  }

  /** Match m is crowded out: a thousand more matches of its file start before its context ends. */
  ghost predicate IsCrowded(files: seq<FileEvents>, m: nat, before: nat, after: nat) {
    && Overlaps(Naive(files, before, after), m, after)
    && exists f: nat :: FromFile(files, f, m, before, after)
                        && FromFile(files, f, m + MAX_PENDING_CONTENT_MATCHES, before, after)
  }

  ghost function Crowded(files: seq<FileEvents>, before: nat, after: nat): set<nat> {
    set m: nat | m < |Naive(files, before, after)| && IsCrowded(files, m, before, after)
  }

  /** What a page took in: within the limit, every prefix within the budget, nothing crowded out. */
  ghost predicate Admitted(crowded: set<nat>, offset: nat, limit: nat, fits: seq<Item> -> bool, items: seq<Item>) {
    && (limit > 0 ==> |items| <= limit)
    && (forall k :: 0 < k <= |items| ==> fits(items[..k]))
    && (forall m :: offset <= m < offset + |items| ==> m !in crowded)
  }

  /** Why a page stops before the end, and what that says of the first item it leaves out. */
  ghost predicate StopIsRight(total: seq<Item>, crowded: set<nat>, offset: nat, limit: nat, fits: seq<Item> -> bool,
          items: seq<Item>, reason: StopReason) {
    var next := offset + |items|;
    && IsStretch(total, offset, items)
    && next < |total|
    && match reason
       case EndOfResults => false
       case ContextBufferLimit => next in crowded
       case Limit => next !in crowded && limit > 0 && |items| == limit
       case TokenBudget => next !in crowded && (limit > 0 ==> |items| < limit) && !fits(items + [total[next]])
  }

  lemma PrefixesFit(items: seq<Item>, item: Item, fits: seq<Item> -> bool)
    requires forall k :: 0 < k <= |items| ==> fits(items[..k])
    requires fits(items + [item])
    ensures forall k :: 0 < k <= |items + [item]| ==> fits((items + [item])[..k])
  {
    var more := items + [item];
    forall k | 0 < k <= |more| ensures fits(more[..k]) {
      if k == |more| {
        assert more[..k] == more;
      } else {
        assert more[..k] == items[..k];
      }
    }
  }

  class PageCollector {
    const offset: nat
    const limit: nat
    const fits: seq<Item> -> bool
    var seen: nat
    var items: seq<Item>
    var truncated: bool
    var stopReason: StopReason
    var shouldStop: bool

    constructor (offset: nat, limit: nat, fits: seq<Item> -> bool)
      ensures this.offset == offset && this.limit == limit && this.fits == fits
      ensures seen == 0 && items == [] && !truncated && !shouldStop && stopReason == EndOfResults
    {
      this.offset, this.limit, this.fits := offset, limit, fits;
      seen, items, truncated, stopReason, shouldStop := 0, [], false, EndOfResults, false;
    }

    /** The page is what a prefix of seen final items of the naive result gives. */
    ghost predicate Holds(total: seq<Item>, crowded: set<nat>)
      reads this
    {
      && truncated == shouldStop
      && Admitted(crowded, offset, limit, fits, items)
      && if shouldStop then StopIsRight(total, crowded, offset, limit, fits, items, stopReason)
         else stopReason == EndOfResults && |items| == (if seen < offset then 0 else seen - offset)
              && IsStretch(total, offset, items)
    }

    /** Count one more item; keep it if it is past the offset and there is room. The item
        must be final unless it is skipped by the offset. */
    method Add(item: Item, ghost total: seq<Item>, ghost crowded: set<nat>)
      requires Holds(total, crowded)
      requires !shouldStop && offset <= seen ==> seen < |total| && total[seen] == item && seen !in crowded
      modifies this
      ensures Holds(total, crowded)
      ensures old(shouldStop) ==> shouldStop && items == old(items)
      ensures !shouldStop ==> seen == old(seen) + 1
    {
      if shouldStop {
        return;
      }
      var ordinal := seen;
      seen := seen + 1;
      if ordinal < offset {
        return;
      }
      if limit > 0 && |items| >= limit {
        truncated, stopReason, shouldStop := true, Limit, true;
        return;
      }
      if !fits(items + [item]) {
        truncated, stopReason, shouldStop := true, TokenBudget, true;
        return;
      }
      items := items + [item];
      PrefixesFit(old(items), item, fits);
    }

    method ForceStop(reason: StopReason, ghost total: seq<Item>, ghost crowded: set<nat>)
      requires Holds(total, crowded) && !shouldStop && reason == ContextBufferLimit
      requires offset <= seen < |total| && seen in crowded
      modifies this
      ensures Holds(total, crowded) && shouldStop && items == old(items)
    {
      truncated, stopReason, shouldStop := true, reason, true;
    }

    function NextOffset(): Option<nat>
      reads this
    {
      if truncated then Some(offset + |items|) else None
    }
  }

  /** A match waiting for the lines after it. */
  datatype Open = Open(item: Item, through: int, numbers: set<int>)

  /** The waiting matches are the last ones known. */
  ghost predicate Waits(pending: seq<Open>, known: seq<Item>, seen: nat, after: nat) {
    && seen + |pending| == |known|
    && forall k :: 0 <= k < |pending| ==> IsWaiting(pending[k], known, seen + k, after)
  }

  ghost predicate IsWaiting(o: Open, known: seq<Item>, i: nat, after: nat) {
    i < |known| && o.item == known[i] && o.through == o.item.line + after
  }

  /** Matches that flushing with this bound releases are final in the naive result and not
      crowded out. */
  ghost predicate Released(pending: seq<Open>, total: seq<Item>, crowded: set<nat>, seen: nat, bound: Option<int>) {
    forall k :: 0 <= k < |pending| && (bound.None? || pending[k].through < bound.value) ==>
      IsFinal(pending[k], total, crowded, seen + k)
  }

  ghost predicate IsFinal(o: Open, total: seq<Item>, crowded: set<nat>, i: nat) {
    i < |total| && total[i] == o.item && i !in crowded
  }

  /** The oldest waiting match still reaches the line. */
  ghost predicate Reaches(pending: seq<Open>, line: int) {
    pending != [] ==> line <= pending[0].through
  }

  ghost predicate NumbersBelow(pending: seq<Open>, line: int) {
    forall k, n :: 0 <= k < |pending| && n in pending[k].numbers ==> n < line
  }

  /** The index of recent lines and the order in which they leave it. */
  ghost predicate RecentIs(index: map<int, string>, order: seq<int>, lines: seq<LineEvent>, keep: int) {
    index == WindowOf(lines, keep) && order == OrderOf(lines, keep)
  }

  lemma PopKeeps(pending: seq<Open>, known: seq<Item>, total: seq<Item>, crowded: set<nat>, seen: nat, after: nat,
          bound: Option<int>)
    requires pending != [] && Waits(pending, known, seen, after) && Released(pending, total, crowded, seen, bound)
    ensures Waits(pending[1..], known, seen + 1, after) && Released(pending[1..], total, crowded, seen + 1, bound)
  {
    PopWaits(pending, known, seen, after);
    PopReleased(pending, total, crowded, seen, bound);
  }

  lemma PopWaits(pending: seq<Open>, known: seq<Item>, seen: nat, after: nat)
    requires pending != [] && Waits(pending, known, seen, after)
    ensures Waits(pending[1..], known, seen + 1, after)
  {
    var rest := pending[1..];
    forall k | 0 <= k < |rest| ensures IsWaiting(rest[k], known, seen + 1 + k, after) {
      var n := k + 1;
      assert IsWaiting(pending[n], known, seen + n, after);
      assert rest[k] == pending[n] && seen + 1 + k == seen + n;
    }
  }

  lemma PopReleased(pending: seq<Open>, total: seq<Item>, crowded: set<nat>, seen: nat, bound: Option<int>)
    requires pending != [] && Released(pending, total, crowded, seen, bound)
    ensures Released(pending[1..], total, crowded, seen + 1, bound)
  {
    var rest := pending[1..];
    forall k | 0 <= k < |rest| && (bound.None? || rest[k].through < bound.value)
      ensures IsFinal(rest[k], total, crowded, seen + 1 + k)
    {
      var n := k + 1;
      assert rest[k] == pending[n] && seen + 1 + k == seen + n;
      assert IsFinal(pending[n], total, crowded, seen + n);
    }
  }

  /** First line number that a match after the first p lines can reach back to. */
  ghost function KeepAfter(lines: seq<LineEvent>, p: nat, before: nat): int
    requires p <= |lines|
  {
    if p == 0 then 1 else Max(lines[p - 1].line - before + 1, 1)
  }

  function Max(a: int, b: int): int { if a < b then b else a }

  ghost predicate IsPosition(files: seq<FileEvents>, f: nat, p: nat) {
    WellFormed(files) && f <= |files| && if f < |files| then p <= |files[f].lines| else p == 0
  }

  ghost predicate IsNaive(total: seq<Item>, crowded: set<nat>, files: seq<FileEvents>, before: nat, after: nat) {
    total == Naive(files, before, after) && crowded == Crowded(files, before, after)
  }

  class ContentCollector {
    const page: PageCollector
    const before: nat
    const after: nat
    var currentPath: Option<string>
    var recentLines: map<int, string>
    var recentOrder: seq<int>
    var pending: seq<Open>
    /** The stream, and how much of it has been fed: f whole files and p lines. */
    ghost const files: seq<FileEvents>
    ghost var f: nat
    ghost var p: nat
    /** The naive result of the stream, and its matches that are crowded out. */
    ghost const total: seq<Item>
    ghost const crowded: set<nat>

    ghost predicate AtPosition()
      reads `f, `p
    {
      IsNaive(total, crowded, files, before, after) && IsPosition(files, f, p)
    }

    ghost function Seen(): seq<LineEvent>
      requires AtPosition()
      reads `f, `p
    {
      if f < |files| then files[f].lines[..p] else []
    }

    /** First line number still needed as context of a later match. */
    ghost function Keep(): int
      requires AtPosition()
      reads `f, `p
    {
      KeepAfter(Seen(), p, before)
    }

    /** Page and queue together hold what is known; first is where the current file begins
        in it, and no line from bound on has been added to a context. */
    ghost predicate InStep(known: seq<Item>, first: nat, bound: int)
      reads `pending, page
    {
      && page.Holds(total, crowded)
      && (page.shouldStop ==> pending == [])
      && |pending| <= MAX_PENDING_CONTENT_MATCHES
      && (!page.shouldStop ==>
            && first <= page.seen
            && Waits(pending, known, page.seen, after)
            && (pending != [] ==> page.offset <= page.seen)
            && NumbersBelow(pending, bound))
    }

    ghost function First(): nat
      requires f <= |files|
      reads `f
    {
      |Naive(files[..f], before, after)|
    }

    ghost predicate Ready()
      reads this, page
    {
      && AtPosition()
      && RecentIs(recentLines, recentOrder, Seen(), Keep())
      && InStep(Known(files, f, p, before, after), First(), if p == 0 then 0 else Seen()[p - 1].line + 1)
      && (p == 0 ==> pending == [])
    }

    ghost predicate Valid()
      reads this, page
    {
      Ready() && currentPath == (if p == 0 then None else Some(files[f].path))
    }

    constructor (page: PageCollector, before: nat, after: nat, ghost files: seq<FileEvents>)
      requires WellFormed(files)
      requires page.seen == 0 && page.items == [] && !page.truncated && !page.shouldStop && page.stopReason == EndOfResults
      ensures Valid() && this.page == page && this.files == files && f == 0 && p == 0
      ensures this.before == before && this.after == after
    {
      this.page, this.before, this.after, this.files := page, before, after, files;
      total, crowded := Naive(files, before, after), Crowded(files, before, after);
      currentPath, recentLines, recentOrder, pending := None, map[], [], [];
      f, p := 0, 0;
      new;
      assert files[..0] == [];
      assert 0 < |files| ==> files[0].lines[..0] == [];
    }

    /** Release the waiting matches whose context ends before the bound, oldest first. */
    method FlushPending(limit: Option<int>, ghost known: seq<Item>, ghost first: nat, ghost bound: int)
      requires InStep(known, first, bound)
      requires !page.shouldStop ==> Released(pending, total, crowded, page.seen, limit)
      modifies this`pending, page
      ensures InStep(known, first, bound)
      ensures old(page.shouldStop) ==> page.shouldStop && page.items == old(page.items)
      ensures limit.None? || old(pending) == [] ==> pending == []
      ensures limit.Some? ==> Reaches(pending, limit.value)
    {
      while pending != []
        invariant InStep(known, first, bound)
        invariant old(page.shouldStop) ==> page.shouldStop && page.items == old(page.items)
        invariant !page.shouldStop ==> Released(pending, total, crowded, page.seen, limit)
        invariant old(pending) == [] ==> pending == []
        decreases |pending|
      {
        var oldest := pending[0];
        PopKeeps(pending, known, total, crowded, page.seen, after, limit);
        if limit.Some? && oldest.through >= limit.value {
          break;
        }
        pending := pending[1..];
        page.Add(oldest.item, total, crowded);
        if page.shouldStop {
          pending := [];
          return;
        }
      }
    }

    /** A later line is context of every waiting match whose window reaches it. */
    method AddContext(e: LineEvent)
      modifies this`pending
      ensures |pending| == |old(pending)|
      ensures forall k :: 0 <= k < |pending| ==> pending[k] == Extend(old(pending)[k], e)
    {
      var i := 0;
      while i < |pending|
        invariant 0 <= i <= |pending| == |old(pending)|
        invariant forall k :: 0 <= k < i ==> pending[k] == Extend(old(pending)[k], e)
        invariant forall k :: i <= k < |pending| ==> pending[k] == old(pending)[k]
      {
        var o := pending[i];
        if o.item.line < e.line <= o.through && e.line !in o.numbers {
          pending := pending[i := Open(o.item.(after := o.item.after + [e.text]), o.through, o.numbers + {e.line})];
        }
        i := i + 1;
      }
    }

    /** A new match waits for its context, unless the offset skips it or the queue is full. */
    method Queue(item: Item, through: int, ghost known: seq<Item>, ghost first: nat, ghost bound: int)
      requires InStep(known, first, bound) && through == item.line + after && Reaches(pending, item.line)
      requires CrowdsOut(known + [item], total, crowded, first, after)
      modifies this`pending, page
      ensures InStep(known + [item], first, bound) && Reaches(pending, item.line)
      ensures old(page.shouldStop) ==> page.shouldStop && page.items == old(page.items)
    {
      if page.shouldStop {
        return;
      }
      if page.seen < page.offset && pending == [] {
        page.Add(item, total, crowded);
        return;
      }
      if |pending| >= MAX_PENDING_CONTENT_MATCHES {
        assert Overlaps(known + [item], page.seen, after);
        pending := [];
        page.ForceStop(ContextBufferLimit, total, crowded);
        return;
      }
      pending := pending + [Open(item, through, {})];
    }

    /** End of a file: its waiting matches are released and the window is dropped. */
    method FinishFile(ghost advance: bool)
      requires Ready()
      requires if advance then f < |files| && p == |files[f].lines| else p == 0
      modifies this, page
      ensures Ready() && currentPath == None && p == 0
      ensures f == if advance then old(f) + 1 else old(f)
      ensures old(page.shouldStop) ==> page.shouldStop && page.items == old(page.items)
      ensures pending == []
    {
      FlushAll(advance);
      recentLines, recentOrder, currentPath := map[], [], None;
      NothingRecent();
      if advance {
        NextFile();
      }
      assert Seen() == [];
    }

    /** The finished file belongs to what is final; nothing of the next one is known. */
    ghost method NextFile()
      requires AtPosition() && f < |files| && p == |files[f].lines| && pending == []
      requires InStep(Known(files, f, p, before, after), First(), 0)
      requires !page.shouldStop ==> page.seen == |Known(files, f, p, before, after)|
      modifies this`f, this`p
      ensures f == old(f) + 1 && p == 0 && AtPosition()
      ensures InStep(Known(files, f, p, before, after), First(), 0)
    {
      KnownAtEnd(files, f, before, after);
      f, p := f + 1, 0;
    }

    method FlushAll(ghost complete: bool)
      requires Ready()
      requires if complete then f < |files| && p == |files[f].lines| else p == 0
      modifies this`pending, page
      ensures pending == []
      ensures InStep(Known(files, f, p, before, after), First(), 0)
      ensures !page.shouldStop ==> page.seen == |Known(files, f, p, before, after)|
      ensures old(page.shouldStop) ==> page.shouldStop && page.items == old(page.items)
    {
      if !page.shouldStop && complete {
        ReleasedAt(files, f, p, pending, page.seen, None, before, after);
      }
      FlushPending(None, Known(files, f, p, before, after), First(), if p == 0 then 0 else Seen()[p - 1].line + 1);
    }

    function ContextBefore(line: int): seq<string>
      reads `recentLines
    {
      InRange(recentLines, Max(line - before, 1), line)
    }

    /** Queue one item for every text the match is reported with. */
    method QueueHits(path: string, line: int, hits: seq<string>, context: seq<string>, ghost added: seq<Item>,
            ghost known: seq<Item>, ghost first: nat, ghost bound: int)
      requires InStep(known, first, bound) && |added| == |hits| && Reaches(pending, line)
      requires forall k :: 0 <= k < |hits| ==> added[k] == Item(path, line, hits[k], context, [])
      requires CrowdsOut(known + added, total, crowded, first, after)
      modifies this`pending, page
      ensures InStep(known + added, first, bound)
      ensures old(page.shouldStop) ==> page.shouldStop && page.items == old(page.items)
    {
      assert known + added[..0] == known;
      for h := 0 to |hits|
        invariant InStep(known + added[..h], first, bound) && Reaches(pending, line)
        invariant old(page.shouldStop) ==> page.shouldStop && page.items == old(page.items)
      {
        assert known + added[..h + 1] == known + added[..h] + [added[h]];
        assert (known + added)[..|known| + h + 1] == known + added[..h + 1];
        CrowdsOutPrefix(known + added, |known| + h + 1, total, crowded, first, after);
        Queue(Item(path, line, hits[h], context, []), line + after, known + added[..h], first, bound);
        if page.shouldStop {
          break;
        }
      }
      assert added[..|added|] == added;
    }

    /** Release what ends before this line, then add the line to the contexts still open. */
    method TakeContext(e: LineEvent, ghost grown: seq<Item>)
      requires Ready() && f < |files| && p < |files[f].lines| && files[f].lines[p] == e
      requires grown == GrownKnown(files, f, p, before, after)
      modifies this`pending, page
      ensures InStep(grown, First(), e.line + 1) && Reaches(pending, e.line)
      ensures old(page.shouldStop) ==> page.shouldStop && page.items == old(page.items)
    {
      ghost var bound := if p == 0 then 0 else Seen()[p - 1].line + 1;
      assert bound <= e.line by {
        assert p > 0 ==> files[f].lines[p - 1].line < files[f].lines[p].line;
      }
      if !page.shouldStop {
        ReleasedAt(files, f, p, pending, page.seen, Some(e.line), before, after);
      }
      FlushPending(Some(e.line), Known(files, f, p, before, after), First(), bound);
      ghost var waiting := pending;
      AddContext(e);
      if !page.shouldStop {
        ExtendedWaits(files, f, p, waiting, pending, page.seen, before, after);
      }
    }

    /** The recent lines give a match at the next line its naive context. */
    method RecentContext(e: LineEvent, ghost lines: seq<LineEvent>)
        returns (context: seq<string>)
      requires p < |lines| && lines[p] == e && Increasing(lines)
      requires RecentIs(recentLines, recentOrder, lines[..p], KeepAfter(lines, p, before))
      ensures context == Lines(lines[..p], e.line - before, e.line)
    {
      context := ContextBefore(e.line);
      RecentIsNaive(recentLines, recentOrder, lines, p, before);
    }

    method FindContext(e: LineEvent) returns (context: seq<string>)
      requires Ready() && f < |files| && p < |files[f].lines| && files[f].lines[p] == e
      ensures context == Lines(Seen(), e.line - before, e.line)
    {
      context := RecentContext(e, files[f].lines);
    }

    /** The context a match at this line would have, and the contexts this line is part of. */
    method OpenContext(e: LineEvent, ghost grown: seq<Item>) returns (context: seq<string>)
      requires Ready() && f < |files| && p < |files[f].lines| && files[f].lines[p] == e
      requires grown == GrownKnown(files, f, p, before, after)
      modifies this`pending, page
      ensures context == Lines(Seen(), e.line - before, e.line)
      ensures InStep(grown, First(), e.line + 1) && Reaches(pending, e.line)
      ensures old(page.shouldStop) ==> page.shouldStop && page.items == old(page.items)
    {
      context := FindContext(e);
      TakeContext(e, grown);
    }

    /** Queue the items of a matching line. */
    method TakeMatch(path: string, e: LineEvent, context: seq<string>, ghost lines: seq<LineEvent>,
            ghost known: seq<Item>, ghost next: seq<Item>, ghost first: nat)
      requires context == Lines(lines, e.line - before, e.line)
      requires InStep(known, first, e.line + 1) && Reaches(pending, e.line)
      requires next == known + NewItems(path, lines, e, before) && CrowdsOut(next, total, crowded, first, after)
      modifies this`pending, page
      ensures InStep(next, first, e.line + 1)
      ensures old(page.shouldStop) ==> page.shouldStop && page.items == old(page.items)
    {
      if e.hits.None? {
        assert known + NewItems(path, lines, e, before) == known;
      } else {
        QueueHits(path, e.line, e.hits.value, context, NewItems(path, lines, e, before), known, first, e.line + 1);
      }
    }

    /** One line of the current file. */
    method FeedLine(path: string, e: LineEvent)
      requires Ready() && f < |files| && p < |files[f].lines|
      requires files[f].path == path && files[f].lines[p] == e
      modifies this`pending, this`recentLines, this`recentOrder, this`p, page
      ensures Ready() && p == old(p) + 1
      ensures old(page.shouldStop) ==> page.shouldStop && page.items == old(page.items)
    {
      ghost var next := TakeLine(path, e);
      AdvanceAndFlush(e, next);
    }

    /** The line joins the window, and matches whose context ends with it are released. */
    method AdvanceAndFlush(e: LineEvent, ghost next: seq<Item>)
      requires AtPosition() && f < |files| && p < |files[f].lines| && files[f].lines[p] == e
      requires RecentIs(recentLines, recentOrder, Seen(), Keep())
      requires next == Known(files, f, p + 1, before, after) && InStep(next, First(), e.line + 1)
      modifies this`pending, this`recentLines, this`recentOrder, this`p, page
      ensures Ready() && p == old(p) + 1
      ensures old(page.shouldStop) ==> page.shouldStop && page.items == old(page.items)
    {
      Advance(e);
      FlushAfter(e.line);
    }

    method TakeLine(path: string, e: LineEvent) returns (ghost next: seq<Item>)
      requires Ready() && f < |files| && p < |files[f].lines|
      requires files[f].path == path && files[f].lines[p] == e
      modifies this`pending, page
      ensures next == Known(files, f, p + 1, before, after) && InStep(next, First(), e.line + 1)
      ensures old(page.shouldStop) ==> page.shouldStop && page.items == old(page.items)
    {
      var context := OpenContext(e, GrownKnown(files, f, p, before, after));
      next := QueueMatch(path, e, context);
    }

    /** With the contexts extended, the matches of the line itself are queued. */
    method QueueMatch(path: string, e: LineEvent, context: seq<string>) returns (ghost next: seq<Item>)
      requires AtPosition() && f < |files| && p < |files[f].lines|
      requires files[f].path == path && files[f].lines[p] == e
      requires context == Lines(Seen(), e.line - before, e.line)
      requires InStep(GrownKnown(files, f, p, before, after), First(), e.line + 1) && Reaches(pending, e.line)
      modifies this`pending, page
      ensures next == Known(files, f, p + 1, before, after) && InStep(next, First(), e.line + 1)
      ensures old(page.shouldStop) ==> page.shouldStop && page.items == old(page.items)
    {
      ghost var grown;
      grown, next := NextKnown(files, f, p, before, after);
      TakeMatch(path, e, context, Seen(), grown, next, First());
    }

    method Advance(e: LineEvent)
      requires AtPosition() && f < |files| && p < |files[f].lines| && files[f].lines[p] == e
      requires RecentIs(recentLines, recentOrder, Seen(), Keep())
      modifies this`recentLines, this`recentOrder, this`p
      ensures p == old(p) + 1 && AtPosition() && Seen()[p - 1] == e
      ensures RecentIs(recentLines, recentOrder, Seen(), Keep())
    {
      KeepReaches(files[f].lines, p, before);
      Remember(e, Seen(), Keep());
      p := p + 1;
    }

    method FlushAfter(line: int)
      requires AtPosition() && f < |files| && p > 0 && Seen()[p - 1].line == line
      requires RecentIs(recentLines, recentOrder, Seen(), Keep())
      requires InStep(Known(files, f, p, before, after), First(), line + 1)
      modifies this`pending, page
      ensures Ready()
      ensures old(page.shouldStop) ==> page.shouldStop && page.items == old(page.items)
    {
      if !page.shouldStop {
        assert p < |files[f].lines| ==> files[f].lines[p - 1].line < files[f].lines[p].line;
        ReleasedAt(files, f, p, pending, page.seen, Some(line + 1), before, after);
      }
      FlushPending(Some(line + 1), Known(files, f, p, before, after), First(), line + 1);
    }

    /** One event line, which may be the first of a file after one that had no end event. */
    method Feed(path: string, e: LineEvent, ghost crosses: bool)
      requires Valid()
      requires !page.shouldStop ==>
        if crosses then
          && f + 1 < |files| && p == |files[f].lines| && !files[f].ended
          && files[f + 1].lines != [] && files[f + 1].path == path && files[f + 1].lines[0] == e
        else f < |files| && p < |files[f].lines| && files[f].path == path && files[f].lines[p] == e
      modifies this, page
      ensures Valid()
      ensures old(page.shouldStop) ==> page.shouldStop && page.items == old(page.items)
      ensures !old(page.shouldStop) ==> if crosses then f == old(f) + 1 && p == 1 else f == old(f) && p == old(p) + 1
    {
      if page.shouldStop {
        return;
      }
      if currentPath != Some(path) {
        FinishFile(crosses);
        currentPath := Some(path);
      }
      FeedLine(path, e);
    }

    /** Record the line and drop those no later match can reach back to. */
    method Remember(e: LineEvent, ghost lines: seq<LineEvent>, ghost keep: int)
      requires Increasing(lines + [e]) && RecentIs(recentLines, recentOrder, lines, keep)
      requires keep <= e.line && keep <= Max(e.line - before + 1, 1)
      modifies this`recentLines, this`recentOrder
      ensures RecentIs(recentLines, recentOrder, lines + [e], Max(e.line - before + 1, 1))
    {
      NewLineRecorded(lines, e, keep);
      if e.line !in recentLines {
        recentOrder := recentOrder + [e.line];
      }
      recentLines := recentLines[e.line := e.text];
      var keepFrom := Max(e.line - before + 1, 1);
      ghost var all, from := lines + [e], keep;
      while recentOrder != [] && recentOrder[0] < keepFrom
        invariant from <= keepFrom && RecentIs(recentLines, recentOrder, all, from)
        decreases |recentOrder|
      {
        DropOldest(all, from);
        var oldest := recentOrder[0];
        recentOrder := recentOrder[1..];
        recentLines := recentLines - {oldest};
        from := oldest + 1;
      }
      SameWindow(all, from, keepFrom);
    }
  }

  /** A new line extends the window and its order. */
  lemma NewLineRecorded(lines: seq<LineEvent>, e: LineEvent, keep: int)
    requires Increasing(lines + [e]) && keep <= e.line
    ensures e.line !in WindowOf(lines, keep)
    ensures RecentIs(WindowOf(lines, keep)[e.line := e.text], OrderOf(lines, keep) + [e.line], lines + [e], keep)
  {
    NotInWindow(lines, e, keep);
    assert (lines + [e])[..|lines + [e]| - 1] == lines;
  }

  lemma NotInWindow(lines: seq<LineEvent>, e: LineEvent, keep: int)
    requires Increasing(lines + [e])
    ensures e.line !in WindowOf(lines, keep)
  {
    LinesBelowLast(lines, e);
    WindowIndexes(lines, keep);
  }

  lemma NothingRecent()
    ensures RecentIs(map[], [], [], 1)
  {
  }

  /** The window kept after one line reaches back far enough for the next one. */
  lemma KeepReaches(lines: seq<LineEvent>, p: nat, before: nat)
    requires Increasing(lines) && p < |lines|
    ensures lines[..p + 1] == lines[..p] + [lines[p]] && Increasing(lines[..p]) && Increasing(lines[..p + 1])
    ensures 1 <= lines[p].line
    ensures KeepAfter(lines, p, before) <= Max(lines[p].line - before, 1)
  {
    assert p > 0 ==> lines[p - 1].line < lines[p].line;
  }

  /** The recent window gives a new match exactly its naive context. */
  lemma ContextIsNaive(index: map<int, string>, order: seq<int>, lines: seq<LineEvent>, keep: int, line: int,
          before: nat)
    requires Increasing(lines) && RecentIs(index, order, lines, keep)
    requires keep <= Max(line - before, 1) && 1 <= line
    ensures InRange(index, Max(line - before, 1), line) == Lines(lines, line - before, line)
  {
    var lo := Max(line - before, 1);
    WindowIndexes(lines, keep);
    WindowGivesContext(index, lines, keep, lo, line);
    if line - before < 1 {
      LinesFromOne(lines, line - before, line);
    } else if before == 0 {
      EmptyRange(lines, line);
    }
  }

  lemma RecentIsNaive(index: map<int, string>, order: seq<int>, lines: seq<LineEvent>, p: nat, before: nat)
    requires Increasing(lines) && p < |lines|
    requires RecentIs(index, order, lines[..p], KeepAfter(lines, p, before))
    ensures InRange(index, Max(lines[p].line - before, 1), lines[p].line)
      == Lines(lines[..p], lines[p].line - before, lines[p].line)
  {
    KeepReaches(lines, p, before);
    ContextIsNaive(index, order, lines[..p], KeepAfter(lines, p, before), lines[p].line, before);
  }

  /** Flushing up to a bound no later line of the file lies below releases final items only. */
  lemma ReleasedAt(files: seq<FileEvents>, f: nat, p: nat, pending: seq<Open>, seen: nat, bound: Option<int>,
          before: nat, after: nat)
    requires WellFormed(files) && f < |files| && p <= |files[f].lines|
    requires Waits(pending, Known(files, f, p, before, after), seen, after)
    requires |Naive(files[..f], before, after)| <= seen && |pending| <= MAX_PENDING_CONTENT_MATCHES
    requires p < |files[f].lines| ==> bound.Some? && bound.value <= files[f].lines[p].line
    ensures Released(pending, Naive(files, before, after), Crowded(files, before, after), seen, bound)
  {
    forall k | 0 <= k < |pending| && (bound.None? || pending[k].through < bound.value)
      ensures seen + k < |Naive(files, before, after)| && Naive(files, before, after)[seen + k] == pending[k].item
      ensures seen + k !in Crowded(files, before, after)
    {
      KnownIsFinal(files, f, p, seen + k, before, after);
      NotCrowded(files, f, p, seen + k, before, after);
    }
  }

  /** A match whose context ends before the next line of its file, or with its file, is not
      crowded out unless a thousand matches after it are known already. */
  lemma NotCrowded(files: seq<FileEvents>, f: nat, p: nat, m: nat, before: nat, after: nat)
    requires WellFormed(files) && f < |files| && p <= |files[f].lines|
    requires |Naive(files[..f], before, after)| <= m < |Known(files, f, p, before, after)|
    requires |Known(files, f, p, before, after)| <= m + MAX_PENDING_CONTENT_MATCHES
    requires p < |files[f].lines| ==> Known(files, f, p, before, after)[m].line + after < files[f].lines[p].line
    ensures !IsCrowded(files, m, before, after)
  {
    if IsCrowded(files, m, before, after) {
      var g: nat :| FromFile(files, g, m, before, after)
                    && FromFile(files, g, m + MAX_PENDING_CONTENT_MATCHES, before, after);
      KnownHeads(files, f, p, before, after);
      OneFile(files, f, g, m, before, after);
      ItemsToCome(files, f, p, m + MAX_PENDING_CONTENT_MATCHES, before, after);
    }
  }

  /** Every item comes from one file only. */
  lemma OneFile(files: seq<FileEvents>, f: nat, g: nat, m: nat, before: nat, after: nat)
    requires FromFile(files, f, m, before, after) && FromFile(files, g, m, before, after)
    ensures f == g
  {
    if f < g {
      assert files[..g][..f + 1] == files[..f + 1];
      NaivePrefix(files[..g], f + 1, before, after);
    } else if g < f {
      assert files[..f][..g + 1] == files[..g + 1];
      NaivePrefix(files[..f], g + 1, before, after);
    }
  }

  /** The items of one file carry its path. */
  lemma {:induction false} ItemsCarryPath(path: string, events: seq<LineEvent>, lines: seq<LineEvent>, before: nat,
          after: nat)
    ensures forall k :: 0 <= k < |MatchItems(path, events, lines, before, after)| ==>
      MatchItems(path, events, lines, before, after)[k].path == path
  {
    if events != [] {
      ItemsCarryPath(path, events[..|events| - 1], lines, before, after);
    }
  }

  /** A match is crowded out by the match a thousand places on, which is in the same file and
      starts within the context of the first. */
  lemma CrowdedMeans(files: seq<FileEvents>, m: nat, before: nat, after: nat)
    requires m in Crowded(files, before, after)
    ensures var total, n := Naive(files, before, after), m + MAX_PENDING_CONTENT_MATCHES;
      n < |total| && total[n].path == total[m].path && total[n].line <= total[m].line + after
  {
    var f: nat :| FromFile(files, f, m, before, after)
                  && FromFile(files, f, m + MAX_PENDING_CONTENT_MATCHES, before, after);
    NaiveUpTo(files, f, before, after);
    ItemsCarryPath(files[f].path, files[f].lines, files[f].lines, before, after);
  }

  lemma OneLineItems(path: string, e: LineEvent, ended: bool, before: nat, after: nat)
    requires e.hits.Some?
    ensures Naive([FileEvents(path, [e], ended)], before, after) == HitItems(path, e, e.hits.value, [e], before, after)
  {
    var lines, files := [e], [FileEvents(path, [e], ended)];
    assert lines[..|lines| - 1] == [] && files[..|files| - 1] == [];
    assert MatchItems(path, lines[..|lines| - 1], lines, before, after) == [];
    assert FileItems(path, lines, before, after) == HitItems(path, e, e.hits.value, lines, before, after);
    assert Naive(files[..|files| - 1], before, after) == [];
  }

  lemma OnlyFile(files: seq<FileEvents>, k: nat, before: nat, after: nat)
    requires |files| == 1 && k < |Naive(files, before, after)|
    ensures FromFile(files, 0, k, before, after)
  {
    assert files[..0] == [] && files[..1] == files;
  }

  /** A line with more than a thousand hits crowds out its first, so the page from there is empty. */
  lemma OneLineCrowds(path: string, text: string, hits: seq<string>)
    requires |hits| > MAX_PENDING_CONTENT_MATCHES
    ensures var files := [FileEvents(path, [LineEvent(1, text, Some(hits))], true)];
      WellFormed(files) && 0 in Crowded(files, 0, 0)
  {
    var files := [FileEvents(path, [LineEvent(1, text, Some(hits))], true)];
    OneLineItems(path, LineEvent(1, text, Some(hits)), true, 0, 0);
    OnlyFile(files, 0, 0, 0);
    OnlyFile(files, 0 + MAX_PENDING_CONTENT_MATCHES, 0, 0);
  }

  /** Waiting matches of a known list crowd each other out when they are a thousand apart. */
  ghost predicate CrowdsOut(known: seq<Item>, total: seq<Item>, crowded: set<nat>, first: nat, after: nat) {
    && |known| <= |total|
    && forall m: nat :: first <= m && Overlaps(known, m, after) ==> m in crowded
  }

  lemma CrowdsOutPrefix(known: seq<Item>, n: nat, total: seq<Item>, crowded: set<nat>, first: nat, after: nat)
    requires CrowdsOut(known, total, crowded, first, after) && n <= |known|
    ensures CrowdsOut(known[..n], total, crowded, first, after)
  {
    forall m: nat | first <= m && Overlaps(known[..n], m, after) ensures m in crowded {
      assert Overlaps(known, m, after);
    }
  }

  /** The known matches of the current file crowd out what they should. */
  lemma KnownCrowdsOut(files: seq<FileEvents>, f: nat, p: nat, before: nat, after: nat)
    requires WellFormed(files) && f < |files| && p <= |files[f].lines|
    ensures CrowdsOut(Known(files, f, p, before, after), Naive(files, before, after), Crowded(files, before, after),
                      |Naive(files[..f], before, after)|, after)
  {
    KnownHeads(files, f, p, before, after);
    var known, total := Known(files, f, p, before, after), Naive(files, before, after);
    forall m: nat | |Naive(files[..f], before, after)| <= m && Overlaps(known, m, after)
      ensures m in Crowded(files, before, after)
    {
      var n := m + MAX_PENDING_CONTENT_MATCHES;
      assert total[n].line == known[n].line && total[m].line == known[m].line;
      assert FromFile(files, f, m, before, after) && FromFile(files, f, n, before, after);
    }
  }

  /** What is known once a file is complete is what the finished files give. */
  lemma KnownAtEnd(files: seq<FileEvents>, f: nat, before: nat, after: nat)
    requires f < |files|
    ensures Naive(files[..f + 1], before, after) == Known(files, f, |files[f].lines|, before, after)
    ensures Known(files, f + 1, 0, before, after) == Naive(files[..f + 1], before, after)
  {
    assert files[..f + 1][..f] == files[..f];
    assert files[f].lines[..|files[f].lines|] == files[f].lines;
    if f + 1 < |files| {
      assert files[f + 1].lines[..0] == [];
    }
  }

  /** The items that a new line brings. */
  function NewItems(path: string, lines: seq<LineEvent>, e: LineEvent, before: nat): (r: seq<Item>)
    ensures |r| == if e.hits.None? then 0 else |e.hits.value|
    ensures e.hits.Some? ==> forall k :: 0 <= k < |r| ==>
      r[k] == Item(path, e.line, e.hits.value[k], Lines(lines, e.line - before, e.line), [])
  {
    if e.hits.None? then []
    else seq(|e.hits.value|, k requires 0 <= k < |e.hits.value| =>
               Item(path, e.line, e.hits.value[k], Lines(lines, e.line - before, e.line), []))
  }

  /** What was known, as the new line changes it. */
  function GrownKnown(files: seq<FileEvents>, f: nat, p: nat, before: nat, after: nat): seq<Item>
    requires f < |files| && p < |files[f].lines|
  {
    Naive(files[..f], before, after)
    + GrowAll(FileItems(files[f].path, files[f].lines[..p], before, after), files[f].lines[p], after)
  }

  lemma KnownNext(files: seq<FileEvents>, f: nat, p: nat, before: nat, after: nat)
    requires WellFormed(files) && f < |files| && p < |files[f].lines|
    ensures Known(files, f, p + 1, before, after)
      == GrownKnown(files, f, p, before, after)
         + NewItems(files[f].path, files[f].lines[..p], files[f].lines[p], before)
  {
    var lines, e := files[f].lines, files[f].lines[p];
    assert lines[..p + 1] == lines[..p] + [e];
    assert Increasing(lines[..p] + [e]);
    FileItemsAppend(files[f].path, lines[..p], e, before, after);
    assert NewItems(files[f].path, lines[..p], e, before)
      == if e.hits.None? then []
         else seq(|e.hits.value|, k requires 0 <= k < |e.hits.value| =>
                    Item(files[f].path, e.line, e.hits.value[k], Lines(lines[..p], e.line - before, e.line), []));
  }

  /** What the next line makes of what is known: as it grows, and with the new items. */
  lemma NextKnown(files: seq<FileEvents>, f: nat, p: nat, before: nat, after: nat)
      returns (grown: seq<Item>, next: seq<Item>)
    requires WellFormed(files) && f < |files| && p < |files[f].lines|
    ensures grown == GrownKnown(files, f, p, before, after)
    ensures next == grown + NewItems(files[f].path, files[f].lines[..p], files[f].lines[p], before)
    ensures next == Known(files, f, p + 1, before, after)
    ensures CrowdsOut(next, Naive(files, before, after), Crowded(files, before, after),
                      |Naive(files[..f], before, after)|, after)
  {
    KnownNext(files, f, p, before, after);
    KnownCrowdsOut(files, f, p + 1, before, after);
    grown, next := GrownKnown(files, f, p, before, after), Known(files, f, p + 1, before, after);
  }

  /** Extending the waiting matches keeps them in step with what is known. */
  lemma ExtendedWaits(files: seq<FileEvents>, f: nat, p: nat, pending: seq<Open>, extended: seq<Open>, seen: nat,
          before: nat, after: nat)
    requires f < |files| && p < |files[f].lines|
    requires Waits(pending, Known(files, f, p, before, after), seen, after)
    requires |Naive(files[..f], before, after)| <= seen && NumbersBelow(pending, files[f].lines[p].line)
    requires |extended| == |pending|
    requires forall k :: 0 <= k < |pending| ==> extended[k] == Extend(pending[k], files[f].lines[p])
    ensures Waits(extended, GrownKnown(files, f, p, before, after), seen, after)
    ensures NumbersBelow(extended, files[f].lines[p].line + 1)
  {
    var e, base := files[f].lines[p], Naive(files[..f], before, after);
    var grown := GrownKnown(files, f, p, before, after);
    forall k | 0 <= k < |extended|
      ensures extended[k].item == grown[seen + k] && extended[k].through == extended[k].item.line + after
    {
      assert e.line !in pending[k].numbers;
      assert grown[seen + k] == Grow(pending[k].item, e, after);
    }
    forall k, n | 0 <= k < |extended| && n in extended[k].numbers ensures n < e.line + 1 {
      assert n in pending[k].numbers || n == e.line;
    }
  }

  /** What one line event does to a waiting match. */
  function Extend(o: Open, e: LineEvent): Open {
    if o.item.line < e.line <= o.through && e.line !in o.numbers
    then Open(o.item.(after := o.item.after + [e.text]), o.through, o.numbers + {e.line})
    else o
  }

  lemma LinesBelowLast(lines: seq<LineEvent>, e: LineEvent)
    requires Increasing(lines + [e])
    ensures Increasing(lines) && 1 <= e.line
    ensures forall i :: 0 <= i < |lines| ==> lines[i].line < e.line
  {
    var all := lines + [e];
    assert all[|lines|] == e;
    forall i | 0 <= i < |lines| ensures lines[i].line < e.line && 1 <= lines[i].line {
      assert all[i].line < all[|lines|].line;
      assert 1 <= all[i].line;
    }
    forall i, j | 0 <= i < j < |lines| ensures lines[i].line < lines[j].line {
      assert all[i].line < all[j].line;
    }
  }

  /** The answer of one search page. */
  datatype Answer = Answer(items: seq<Item>, truncated: bool, nextOffset: Option<nat>, stopReason: StopReason)

  /** One page of the naive result: all of it from offset on, or a stretch from offset with
      the offset that continues it. */
  ghost predicate IsPage(total: seq<Item>, crowded: set<nat>, offset: nat, limit: nat, fits: seq<Item> -> bool,
          r: Answer) {
    && Admitted(crowded, offset, limit, fits, r.items)
    && if r.truncated then
         && StopIsRight(total, crowded, offset, limit, fits, r.items, r.stopReason)
         && r.nextOffset == Some(offset + |r.items|)
       else
         && r.items == (if offset <= |total| then total[offset..] else [])
         && r.nextOffset == None
         && r.stopReason == EndOfResults
  }

  /** Where a sound collector is in the stream: it has stopped, or it has been fed some whole
      files and some lines. */
  datatype Place = Broken | Stopped | At(files: nat, lines: nat)

  ghost function PlaceOf(c: ContentCollector): Place
    reads c, c.page
  {
    if !c.Valid() then Broken else if c.page.shouldStop then Stopped else At(c.f, c.p)
  }

  /** The collector stands before file i, or has stopped; a file without an end event is left
      when the next one begins. */
  ghost predicate Before(c: ContentCollector, i: nat)
    reads c, c.page
  {
    && i <= |c.files|
    && (PlaceOf(c) == Stopped
        || PlaceOf(c) == if i > 0 && !c.files[i - 1].ended then At(i - 1, |c.files[i - 1].lines|) else At(i, 0))
  }

  /** The collector has been fed k lines of file i, or has stopped. */
  ghost predicate Within(c: ContentCollector, i: nat, k: nat)
    reads c, c.page
  {
    if k == 0 then Before(c, i) else PlaceOf(c) == Stopped || PlaceOf(c) == At(i, k)
  }

  /** The next line event of file i. */
  method FeedEvent(c: ContentCollector, file: FileEvents, k: nat, ghost i: nat)
    requires Within(c, i, k) && i < |c.files| && c.files[i] == file && k < |file.lines|
    modifies c, c.page
    ensures Within(c, i, k + 1)
  {
    c.Feed(file.path, file.lines[k], k == 0 && i > 0 && !c.files[i - 1].ended);
  }

  /** The end event of file i, if it has one. */
  method EndFile(c: ContentCollector, file: FileEvents, ghost i: nat)
    requires i < |c.files| && c.files[i] == file && file.lines != [] && Within(c, i, |file.lines|)
    modifies c, c.page
    ensures Before(c, i + 1)
  {
    if file.ended && !c.page.shouldStop {
      c.FinishFile(true);
    }
  }

  /** The events of file i, with its end event if it has one. */
  method FeedFile(c: ContentCollector, file: FileEvents, ghost i: nat)
    requires Before(c, i) && i < |c.files| && c.files[i] == file && file.lines != []
    modifies c, c.page
    ensures Before(c, i + 1)
  {
    for k := 0 to |file.lines|
      invariant Within(c, i, k)
    {
      FeedEvent(c, file, k, i);
    }
    EndFile(c, file, i);
  }

  method FeedFiles(c: ContentCollector, files: seq<FileEvents>)
    requires Before(c, 0) && c.files == files && WellFormed(files)
    modifies c, c.page
    ensures Before(c, |files|)
  {
    var i := 0;
    while i < |files|
      invariant i <= |files| && Before(c, i)
    {
      FeedFile(c, files[i], i);
      i := i + 1;
    }
  }

  /** The end of the search: a file without an end event is finished too. */
  method FinishAll(c: ContentCollector)
    requires Before(c, |c.files|)
    modifies c, c.page
    ensures c.page.Holds(Naive(c.files, c.before, c.after), Crowded(c.files, c.before, c.after))
    ensures !c.page.shouldStop ==> c.page.seen == |Naive(c.files, c.before, c.after)|
  {
    if !c.page.shouldStop {
      c.FinishFile(|c.files| > 0 && !c.files[|c.files| - 1].ended);
      assert c.files[..|c.files|] == c.files;
    }
  }

  method Conclude(c: ContentCollector) returns (r: Answer)
    requires Before(c, |c.files|)
    modifies c, c.page
    ensures IsPage(Naive(c.files, c.before, c.after), Crowded(c.files, c.before, c.after), c.page.offset, c.page.limit,
                   c.page.fits, r)
  {
    FinishAll(c);
    r := PageAnswer(c.page, Naive(c.files, c.before, c.after), Crowded(c.files, c.before, c.after));
  }

  method PageAnswer(page: PageCollector, ghost total: seq<Item>, ghost crowded: set<nat>) returns (r: Answer)
    requires page.Holds(total, crowded) && (!page.shouldStop ==> page.seen == |total|)
    ensures IsPage(total, crowded, page.offset, page.limit, page.fits, r)
  {
    r := Answer(page.items, page.truncated, page.NextOffset(), page.stopReason);
  }

  /** Feeding the whole stream and finishing gives exactly one page of the naive result,
      for any context widths, offset, limit and budget. */
  method CollectContent(files: seq<FileEvents>, before: nat, after: nat, offset: nat, limit: nat,
          fits: seq<Item> -> bool)
      returns (r: Answer)
    requires WellFormed(files)
    ensures IsPage(Naive(files, before, after), Crowded(files, before, after), offset, limit, fits, r)
  {
    var page := new PageCollector(offset, limit, fits);
    var collector := new ContentCollector(page, before, after, files);
    FeedFiles(collector, files);
    r := Conclude(collector);
  }

  /** The contract of a page leaves no choice: the collector computes a function of the naive
      result, the offset, the limit and the budget. */
  lemma PageIsUnique(total: seq<Item>, crowded: set<nat>, offset: nat, limit: nat, fits: seq<Item> -> bool, r1: Answer,
          r2: Answer)
    requires IsPage(total, crowded, offset, limit, fits, r1) && IsPage(total, crowded, offset, limit, fits, r2)
    ensures r1 == r2
  {
    NotLonger(total, crowded, offset, limit, fits, r1, r2);
    NotLonger(total, crowded, offset, limit, fits, r2, r1);
  }

  lemma NotLonger(total: seq<Item>, crowded: set<nat>, offset: nat, limit: nat, fits: seq<Item> -> bool, r1: Answer,
          r2: Answer)
    requires IsPage(total, crowded, offset, limit, fits, r1) && IsPage(total, crowded, offset, limit, fits, r2)
    ensures |r2.items| <= |r1.items|
  {
    TookNext(total, crowded, offset, limit, fits, r2, |r1.items|);
  }

  lemma TookNext(total: seq<Item>, crowded: set<nat>, offset: nat, limit: nat, fits: seq<Item> -> bool, r: Answer, n: nat)
    requires IsPage(total, crowded, offset, limit, fits, r)
    ensures n < |r.items| ==> offset + n < |total| && fits(total[offset..offset + n] + [total[offset + n]])
  {
    if n < |r.items| {
      assert r.items[..n + 1] == total[offset..offset + n] + [total[offset + n]];
    }
  }

  /** A page before the end of the results is empty exactly when its first item is crowded out
      or does not fit even alone. */
  lemma PageIsEmptyIff(total: seq<Item>, crowded: set<nat>, offset: nat, limit: nat, fits: seq<Item> -> bool, r: Answer)
    requires IsPage(total, crowded, offset, limit, fits, r) && offset < |total|
    ensures r.items == [] <==> offset in crowded || !fits([total[offset]])
  {
    if r.items == [] {
      assert r.items + [total[offset]] == [total[offset]];
    } else {
      assert r.items[..1] == [total[offset]];
    }
  }

  /** Two pages in a row put together are one longer stretch: nothing is lost or repeated
      where one page stops and the next begins. */
  lemma PagesJoin(total: seq<Item>, crowded: set<nat>, offset: nat, limit: nat, fits: seq<Item> -> bool,
          first: Answer, second: Answer)
    requires IsPage(total, crowded, offset, limit, fits, first) && first.truncated
    requires IsPage(total, crowded, first.nextOffset.value, limit, fits, second)
    ensures IsStretch(total, offset, first.items + second.items)
    ensures !second.truncated ==> first.items + second.items == total[offset..]
  {
    if first.items == [] {
      assert first.items + second.items == second.items;
    } else if second.items == [] {
      assert first.items + second.items == first.items;
    }
  }

  /** Following next_offset from 0 ends, and gives all of the naive result unless a page comes
      back empty, which happens exactly at an item that is crowded out or does not fit alone.
      The budget of a page may depend on its offset, which the response shows. */
  method SearchAll(files: seq<FileEvents>, before: nat, after: nat, limit: nat, fits: (nat, seq<Item>) -> bool)
      returns (items: seq<Item>, stuck: bool)
    requires WellFormed(files)
    ensures var total := Naive(files, before, after); var n := |items|;
      && items <= total
      && (stuck <==> n < |total|)
      && (stuck ==> n in Crowded(files, before, after) || !fits(n, [total[n]]))
      && forall m: nat :: m < n ==> m !in Crowded(files, before, after)
  {
    ghost var total, crowded := Naive(files, before, after), Crowded(files, before, after);
    items, stuck := [], false;
    while true
      invariant items <= total
      invariant forall m: nat :: m < |items| ==> m !in crowded
      decreases |total| - |items|
    {
      var at := |items|;
      var r := CollectContent(files, before, after, at, limit, page => fits(at, page));
      if at < |total| {
        PageIsEmptyIff(total, crowded, at, limit, page => fits(at, page), r);
      }
      items := items + r.items;
      if !r.truncated || r.items == [] {
        stuck := r.truncated;
        return;
      }
    }
  }
}
