/** What a content search should return, stated with the whole stream at hand: index all
    emitted lines of a file, then give every match its surrounding lines. */
module SearchNaive {
  import opened Options

  /** One emitted line of one file; a match carries the texts it is to be reported with. */
  datatype LineEvent = LineEvent(line: int, text: string, hits: Option<seq<string>>)

  /** The events of one file; ended says whether its end event arrives. */
  datatype FileEvents = FileEvents(path: string, lines: seq<LineEvent>, ended: bool)

  datatype Item = Item(path: string, line: int, text: string, before: seq<string>, after: seq<string>)

  ghost predicate Increasing(lines: seq<LineEvent>) {
    && (forall i :: 0 <= i < |lines| ==> 1 <= lines[i].line)
    && (forall i, j :: 0 <= i < j < |lines| ==> lines[i].line < lines[j].line)
  }

  /** Files arrive one after the other; a file without an end event is told apart from the
      next one by its path. */
  ghost predicate WellFormed(files: seq<FileEvents>) {
    && (forall f :: 0 <= f < |files| ==> files[f].lines != [] && Increasing(files[f].lines))
    && (forall f, g :: 0 <= f < g < |files| && !files[f].ended ==> files[g].path != files[f].path)
  }

  /** The emitted lines numbered from lo up to but not including hi, in order. */
  function Lines(lines: seq<LineEvent>, lo: int, hi: int): seq<string> {
    if lines == [] then []
    else
      var last := lines[|lines| - 1];
      Lines(lines[..|lines| - 1], lo, hi) + if lo <= last.line < hi then [last.text] else []
  }

  function HitItem(path: string, e: LineEvent, hit: string, lines: seq<LineEvent>, before: nat, after: nat): Item {
    Item(path, e.line, hit, Lines(lines, e.line - before, e.line), Lines(lines, e.line + 1, e.line + after + 1))
  }

  function HitItems(path: string, e: LineEvent, hits: seq<string>, lines: seq<LineEvent>, before: nat,
          after: nat): (r: seq<Item>)
    ensures |r| == |hits|
    ensures forall k :: 0 <= k < |hits| ==> r[k] == HitItem(path, e, hits[k], lines, before, after)
  {
    seq(|hits|, k requires 0 <= k < |hits| => HitItem(path, e, hits[k], lines, before, after))
  }

  /** The items of the matches among some events, with context taken from lines. */
  function MatchItems(path: string, events: seq<LineEvent>, lines: seq<LineEvent>, before: nat, after: nat): seq<Item> {
    if events == [] then []
    else
      var last := events[|events| - 1];
      MatchItems(path, events[..|events| - 1], lines, before, after)
      + if last.hits.Some? then HitItems(path, last, last.hits.value, lines, before, after) else []
  }

  function FileItems(path: string, lines: seq<LineEvent>, before: nat, after: nat): seq<Item> {
    MatchItems(path, lines, lines, before, after)
  }

  function Naive(files: seq<FileEvents>, before: nat, after: nat): seq<Item> {
    if files == [] then []
    else
      var last := files[|files| - 1];
      Naive(files[..|files| - 1], before, after) + FileItems(last.path, last.lines, before, after)
  }

  // ----- one more line -----

  /** A line event seen later adds itself to the context of an earlier item. */
  function Grow(item: Item, e: LineEvent, after: nat): Item {
    if item.line < e.line <= item.line + after then item.(after := item.after + [e.text]) else item
  }

  function GrowAll(items: seq<Item>, e: LineEvent, after: nat): (r: seq<Item>)
    ensures |r| == |items|
    ensures forall k :: 0 <= k < |items| ==> r[k] == Grow(items[k], e, after)
  {
    seq(|items|, k requires 0 <= k < |items| => Grow(items[k], e, after))
  }

  lemma LinesAppend(lines: seq<LineEvent>, e: LineEvent, lo: int, hi: int)
    ensures Lines(lines + [e], lo, hi) == Lines(lines, lo, hi) + if lo <= e.line < hi then [e.text] else []
  {
    assert (lines + [e])[..|lines|] == lines;
  }

  lemma {:induction false} MatchItemsGrow(path: string, events: seq<LineEvent>, lines: seq<LineEvent>,
          e: LineEvent, before: nat, after: nat)
    requires forall i :: 0 <= i < |events| ==> events[i].line < e.line
    ensures MatchItems(path, events, lines + [e], before, after)
      == GrowAll(MatchItems(path, events, lines, before, after), e, after)
  {
    if events != [] {
      var n := |events| - 1;
      var last := events[n];
      MatchItemsGrow(path, events[..n], lines, e, before, after);
      if last.hits.Some? {
        HitItemsGrow(path, last, last.hits.value, lines, e, before, after);
        GrowAppend(MatchItems(path, events[..n], lines, before, after),
                   HitItems(path, last, last.hits.value, lines, before, after), e, after);
      }
    }
  }

  lemma HitItemsGrow(path: string, last: LineEvent, hits: seq<string>, lines: seq<LineEvent>, e: LineEvent,
          before: nat, after: nat)
    requires last.line < e.line
    ensures HitItems(path, last, hits, lines + [e], before, after)
      == GrowAll(HitItems(path, last, hits, lines, before, after), e, after)
  {
    LinesAppend(lines, e, last.line - before, last.line);
    LinesAppend(lines, e, last.line + 1, last.line + after + 1);
    var was := HitItems(path, last, hits, lines, before, after);
    forall k | 0 <= k < |was| ensures HitItem(path, last, hits[k], lines + [e], before, after) == Grow(was[k], e, after) {
    }
  }

  lemma GrowAppend(a: seq<Item>, b: seq<Item>, e: LineEvent, after: nat)
    ensures GrowAll(a + b, e, after) == GrowAll(a, e, after) + GrowAll(b, e, after)
  {
  }

  /** The items of a file after one more line: the earlier ones grow, new ones follow. */
  lemma FileItemsAppend(path: string, lines: seq<LineEvent>, e: LineEvent, before: nat, after: nat)
    requires Increasing(lines + [e])
    ensures FileItems(path, lines + [e], before, after)
      == GrowAll(FileItems(path, lines, before, after), e, after)
         + if e.hits.None? then []
           else seq(|e.hits.value|, k requires 0 <= k < |e.hits.value| =>
                      Item(path, e.line, e.hits.value[k], Lines(lines, e.line - before, e.line), []))
  {
    var all := lines + [e];
    assert all[..|lines|] == lines;
    forall i | 0 <= i < |lines| ensures lines[i].line < e.line {
      assert all[i].line < all[|lines|].line;
    }
    MatchItemsGrow(path, lines, lines, e, before, after);
    if e.hits.Some? {
      LinesAppend(lines, e, e.line - before, e.line);
      LinesAppend(lines, e, e.line + 1, e.line + after + 1);
      NoLineBeyond(lines, e.line + 1, e.line + after + 1);
      forall k | 0 <= k < |e.hits.value|
        ensures HitItem(path, e, e.hits.value[k], all, before, after)
          == Item(path, e.line, e.hits.value[k], Lines(lines, e.line - before, e.line), [])
      {
      }
      assert HitItems(path, e, e.hits.value, all, before, after)
        == seq(|e.hits.value|, k requires 0 <= k < |e.hits.value| =>
                 Item(path, e.line, e.hits.value[k], Lines(lines, e.line - before, e.line), []));
    }
  }

  lemma {:induction false} NoLineBeyond(lines: seq<LineEvent>, lo: int, hi: int)
    requires forall i :: 0 <= i < |lines| ==> lines[i].line < lo
    ensures Lines(lines, lo, hi) == []
  {
    if lines != [] {
      NoLineBeyond(lines[..|lines| - 1], lo, hi);
    }
  }

  // ----- items that no later line can change -----

  /** The items known after all of the first f files and p lines of the next one. */
  function Known(files: seq<FileEvents>, f: nat, p: nat, before: nat, after: nat): seq<Item>
    requires f <= |files| && (if f < |files| then p <= |files[f].lines| else p == 0)
  {
    Naive(files[..f], before, after)
    + if f < |files| then FileItems(files[f].path, files[f].lines[..p], before, after) else []
  }

  lemma {:induction false} MatchItemsAppend(path: string, a: seq<LineEvent>, b: seq<LineEvent>,
          lines: seq<LineEvent>, before: nat, after: nat)
    ensures MatchItems(path, a + b, lines, before, after)
      == MatchItems(path, a, lines, before, after) + MatchItems(path, b, lines, before, after)
  {
    if b == [] {
      assert a + b == a;
    } else {
      var n := |b| - 1;
      assert (a + b)[..|a + b| - 1] == a + b[..n];
      MatchItemsAppend(path, a, b[..n], lines, before, after);
    }
  }

  /** Item k of the first p lines is final once its context ends before line p. */
  lemma {:induction false} ClosedItem(path: string, events: seq<LineEvent>, lines: seq<LineEvent>, p: nat, k: nat,
          before: nat, after: nat)
    requires Increasing(lines) && p <= |lines|
    requires forall i :: 0 <= i < |events| ==> forall j :: p <= j < |lines| ==> events[i].line < lines[j].line
    requires var items := MatchItems(path, events, lines[..p], before, after);
      k < |items| && (p < |lines| ==> items[k].line + after < lines[p].line)
    ensures var items := MatchItems(path, events, lines[..p], before, after);
      k < |MatchItems(path, events, lines, before, after)|
      && MatchItems(path, events, lines, before, after)[k] == items[k]
    decreases |lines|
  {
    if p == |lines| {
      assert lines[..p] == lines;
    } else {
      var n := |lines| - 1;
      var shorter := lines[..n];
      assert shorter[..p] == lines[..p] && shorter + [lines[n]] == lines;
      ClosedItem(path, events, shorter, p, k, before, after);
      MatchItemsGrow(path, events, shorter, lines[n], before, after);
      assert lines[p].line <= lines[n].line;
    }
  }

  /** A known item is final if its file is complete, or no line still to come is in its context. */
  lemma KnownIsFinal(files: seq<FileEvents>, f: nat, p: nat, k: nat, before: nat, after: nat)
    requires WellFormed(files) && f < |files| && p <= |files[f].lines|
    requires var known := Known(files, f, p, before, after);
      && k < |known|
      && (k < |Naive(files[..f], before, after)|
          || p == |files[f].lines|
          || known[k].line + after < files[f].lines[p].line)
    ensures k < |Naive(files, before, after)|
    ensures Naive(files, before, after)[k] == Known(files, f, p, before, after)[k]
  {
    var lines, path := files[f].lines, files[f].path;
    var base := Naive(files[..f], before, after);
    NaivePrefix(files, f + 1, before, after);
    assert files[..f + 1][..f] == files[..f];
    if k >= |base| {
      ClosedItem(path, lines[..p], lines, p, k - |base|, before, after);
      MatchItemsAppend(path, lines[..p], lines[p..], lines, before, after);
      assert lines[..p] + lines[p..] == lines;
    }
  }

  lemma {:induction false} NaivePrefix(files: seq<FileEvents>, f: nat, before: nat, after: nat)
    requires f <= |files|
    ensures Naive(files[..f], before, after) <= Naive(files, before, after)
    decreases |files|
  {
    if f == |files| {
      assert files[..f] == files;
    } else {
      var n := |files| - 1;
      assert files[..n][..f] == files[..f];
      NaivePrefix(files[..n], f, before, after);
    }
  }

  // ----- which line an item belongs to -----

  /** Context does not move items: the same events give items of the same lines. */
  lemma {:induction false} ContextMovesNothing(path: string, events: seq<LineEvent>, a: seq<LineEvent>,
          b: seq<LineEvent>, before: nat, after: nat)
    ensures |MatchItems(path, events, a, before, after)| == |MatchItems(path, events, b, before, after)|
    ensures forall k :: 0 <= k < |MatchItems(path, events, a, before, after)| ==>
      MatchItems(path, events, a, before, after)[k].line == MatchItems(path, events, b, before, after)[k].line
  {
    if events != [] {
      ContextMovesNothing(path, events[..|events| - 1], a, b, before, after);
    }
  }

  lemma {:induction false} ItemsFollowEvents(path: string, events: seq<LineEvent>, lines: seq<LineEvent>, lo: int,
          before: nat, after: nat)
    requires forall i :: 0 <= i < |events| ==> lo <= events[i].line
    ensures forall k :: 0 <= k < |MatchItems(path, events, lines, before, after)| ==>
      lo <= MatchItems(path, events, lines, before, after)[k].line
  {
    if events != [] {
      ItemsFollowEvents(path, events[..|events| - 1], lines, lo, before, after);
    }
  }

  /** The items of a file are those of its first p lines and those of the rest. */
  lemma FileItemsSplit(path: string, lines: seq<LineEvent>, p: nat, before: nat, after: nat)
    requires p <= |lines|
    ensures FileItems(path, lines, before, after)
      == MatchItems(path, lines[..p], lines, before, after) + MatchItems(path, lines[p..], lines, before, after)
    ensures |FileItems(path, lines[..p], before, after)| == |MatchItems(path, lines[..p], lines, before, after)|
  {
    assert lines[..p] + lines[p..] == lines;
    MatchItemsAppend(path, lines[..p], lines[p..], lines, before, after);
    ContextMovesNothing(path, lines[..p], lines[..p], lines, before, after);
  }

  lemma NaiveUpTo(files: seq<FileEvents>, f: nat, before: nat, after: nat)
    requires f < |files|
    ensures Naive(files[..f + 1], before, after)
      == Naive(files[..f], before, after) + FileItems(files[f].path, files[f].lines, before, after)
    ensures Naive(files[..f + 1], before, after) <= Naive(files, before, after)
  {
    assert files[..f + 1][..f] == files[..f];
    NaivePrefix(files, f + 1, before, after);
  }

  /** What is known has its place and line in the naive result, whatever context is missing. */
  lemma KnownHeads(files: seq<FileEvents>, f: nat, p: nat, before: nat, after: nat)
    requires f < |files| && p <= |files[f].lines|
    ensures |Known(files, f, p, before, after)| <= |Naive(files[..f + 1], before, after)| <= |Naive(files, before, after)|
    ensures forall k :: 0 <= k < |Known(files, f, p, before, after)| ==>
      Naive(files, before, after)[k].line == Known(files, f, p, before, after)[k].line
  {
    var path, lines := files[f].path, files[f].lines;
    NaiveUpTo(files, f, before, after);
    FileItemsSplit(path, lines, p, before, after);
    ContextMovesNothing(path, lines[..p], lines[..p], lines, before, after);
  }

  /** The items of a file that are not known yet belong to lines still to come. */
  lemma ItemsToCome(files: seq<FileEvents>, f: nat, p: nat, n: nat, before: nat, after: nat)
    requires WellFormed(files) && f < |files| && p <= |files[f].lines|
    requires |Known(files, f, p, before, after)| <= n < |Naive(files[..f + 1], before, after)|
    ensures n < |Naive(files, before, after)| && p < |files[f].lines|
    ensures files[f].lines[p].line <= Naive(files, before, after)[n].line
  {
    var path, lines := files[f].path, files[f].lines;
    var base := Naive(files[..f], before, after);
    NaiveUpTo(files, f, before, after);
    FileItemsSplit(path, lines, p, before, after);
    var rest := MatchItems(path, lines[p..], lines, before, after);
    assert rest != [];
    ItemsFollowEvents(path, lines[p..], lines, lines[p].line, before, after);
    assert Naive(files, before, after)[n] == rest[n - |Known(files, f, p, before, after)|];
  }

  // ----- the window of recent lines -----

  /** The texts found in an index of lines for the numbers of a range. */
  function InRange(index: map<int, string>, lo: int, hi: int): seq<string>
    decreases hi - lo
  {
    if lo >= hi then [] else InRange(index, lo, hi - 1) + if hi - 1 in index then [index[hi - 1]] else []
  }

  /** An index that holds exactly the lines numbered from keep on. */
  ghost predicate Indexes(index: map<int, string>, lines: seq<LineEvent>, keep: int) {
    && (forall i :: 0 <= i < |lines| && keep <= lines[i].line ==> lines[i].line in index && index[lines[i].line] == lines[i].text)
    && (forall n :: n in index ==> keep <= n && exists i :: 0 <= i < |lines| && lines[i].line == n)
  }

  /** The lines numbered from keep on, by number, and their numbers in order. */
  function WindowOf(lines: seq<LineEvent>, keep: int): map<int, string> {
    if lines == [] then map[]
    else
      var last := lines[|lines| - 1];
      var window := WindowOf(lines[..|lines| - 1], keep);
      if keep <= last.line then window[last.line := last.text] else window
  }

  function OrderOf(lines: seq<LineEvent>, keep: int): seq<int> {
    if lines == [] then []
    else
      var last := lines[|lines| - 1];
      OrderOf(lines[..|lines| - 1], keep) + if keep <= last.line then [last.line] else []
  }

  lemma {:induction false} WindowIndexes(lines: seq<LineEvent>, keep: int)
    requires Increasing(lines)
    ensures Indexes(WindowOf(lines, keep), lines, keep)
    decreases |lines|
  {
    if lines != [] {
      var m := |lines| - 1;
      var shorter, last := lines[..m], lines[m];
      WindowIndexes(shorter, keep);
      forall i | 0 <= i < m ensures lines[i] == shorter[i] && lines[i].line < last.line {
      }
      forall n | n in WindowOf(lines, keep) ensures keep <= n && exists i :: 0 <= i < |lines| && lines[i].line == n {
        if n in WindowOf(shorter, keep) {
          var i :| 0 <= i < m && shorter[i].line == n;
          assert lines[i].line == n;
        } else {
          assert lines[m].line == n;
        }
      }
    }
  }

  lemma {:induction false} OrderWithin(lines: seq<LineEvent>, keep: int)
    requires Increasing(lines)
    ensures forall n :: n in OrderOf(lines, keep) ==> lines != [] && keep <= n <= lines[|lines| - 1].line
    decreases |lines|
  {
    if lines != [] {
      OrderWithin(lines[..|lines| - 1], keep);
    }
  }

  lemma {:induction false} NoOrderNoWindow(lines: seq<LineEvent>, keep: int)
    requires OrderOf(lines, keep) == []
    ensures WindowOf(lines, keep) == map[]
    decreases |lines|
  {
    if lines != [] {
      NoOrderNoWindow(lines[..|lines| - 1], keep);
    }
  }

  lemma {:induction false} NothingKept(lines: seq<LineEvent>, keep: int)
    requires forall i :: 0 <= i < |lines| ==> lines[i].line < keep
    ensures OrderOf(lines, keep) == [] && WindowOf(lines, keep) == map[]
    decreases |lines|
  {
    if lines != [] {
      NothingKept(lines[..|lines| - 1], keep);
    }
  }

  /** Dropping the oldest number leaves the window from the next number on. */
  lemma {:induction false} DropOldest(lines: seq<LineEvent>, keep: int)
    requires Increasing(lines) && OrderOf(lines, keep) != []
    ensures DropsTo(lines, keep, OrderOf(lines, keep)[0])
    decreases |lines|
  {
    var shorter, last := lines[..|lines| - 1], lines[|lines| - 1];
    if OrderOf(shorter, keep) == [] {
      NoOrderNoWindow(shorter, keep);
      AllBelowLast(lines, shorter);
      NothingKept(shorter, last.line + 1);
    } else {
      DropOldest(shorter, keep);
      OldestBelowLast(lines, keep);
      DropsWithLast(lines, keep, OrderOf(shorter, keep)[0]);
    }
  }

  ghost predicate DropsTo(lines: seq<LineEvent>, keep: int, oldest: int)
    requires OrderOf(lines, keep) != []
  {
    && OrderOf(lines, oldest + 1) == OrderOf(lines, keep)[1..]
    && WindowOf(lines, oldest + 1) == WindowOf(lines, keep) - {oldest}
  }

  lemma DropsWithLast(lines: seq<LineEvent>, keep: int, oldest: int)
    requires lines != [] && keep <= oldest < lines[|lines| - 1].line
    requires OrderOf(lines[..|lines| - 1], keep) != [] && DropsTo(lines[..|lines| - 1], keep, oldest)
    ensures OrderOf(lines, keep) != [] && DropsTo(lines, keep, oldest)
  {
  }

  lemma AllBelowLast(lines: seq<LineEvent>, shorter: seq<LineEvent>)
    requires Increasing(lines) && lines != [] && shorter == lines[..|lines| - 1]
    ensures forall i :: 0 <= i < |shorter| ==> shorter[i].line < lines[|lines| - 1].line
  {
    forall i | 0 <= i < |shorter| ensures shorter[i].line < lines[|lines| - 1].line {
      assert lines[i].line < lines[|lines| - 1].line;
    }
  }

  lemma OldestBelowLast(lines: seq<LineEvent>, keep: int)
    requires Increasing(lines) && lines != [] && OrderOf(lines[..|lines| - 1], keep) != []
    ensures keep <= OrderOf(lines[..|lines| - 1], keep)[0] < lines[|lines| - 1].line
  {
    var shorter := lines[..|lines| - 1];
    OrderWithin(shorter, keep);
    AllBelowLast(lines, shorter);
    assert OrderOf(shorter, keep)[0] in OrderOf(shorter, keep);
    assert shorter[|shorter| - 1].line < lines[|lines| - 1].line;
  }

  /** A window that already starts late enough is the later window. */
  lemma {:induction false} SameWindow(lines: seq<LineEvent>, keep: int, later: int)
    requires Increasing(lines) && keep <= later
    requires OrderOf(lines, keep) == [] || later <= OrderOf(lines, keep)[0]
    ensures OrderOf(lines, later) == OrderOf(lines, keep) && WindowOf(lines, later) == WindowOf(lines, keep)
    decreases |lines|
  {
    if lines != [] {
      SameWindow(lines[..|lines| - 1], keep, later);
      if OrderOf(lines[..|lines| - 1], keep) != [] {
        OldestBelowLast(lines, keep);
      }
    }
  }

  lemma {:induction false} LinesOfOneNumber(lines: seq<LineEvent>, n: int, i: nat)
    requires Increasing(lines) && i < |lines| && lines[i].line == n
    ensures Lines(lines, n, n + 1) == [lines[i].text]
    decreases |lines|
  {
    var m := |lines| - 1;
    var shorter := lines[..m];
    if i == m {
      forall j | 0 <= j < |shorter| ensures shorter[j].line < n { assert lines[j].line < lines[m].line; }
      NoLineBeyond(shorter, n, n + 1);
    } else {
      assert lines[i].line < lines[m].line;
      LinesOfOneNumber(shorter, n, i);
    }
  }

  lemma {:induction false} NoSuchLine(lines: seq<LineEvent>, n: int)
    requires forall i :: 0 <= i < |lines| ==> lines[i].line != n
    ensures Lines(lines, n, n + 1) == []
  {
    if lines != [] {
      NoSuchLine(lines[..|lines| - 1], n);
    }
  }

  lemma {:induction false} LinesSplit(lines: seq<LineEvent>, lo: int, mid: int, hi: int)
    requires Increasing(lines) && lo <= mid <= hi
    ensures Lines(lines, lo, hi) == Lines(lines, lo, mid) + Lines(lines, mid, hi)
    decreases |lines|
  {
    if lines != [] {
      LinesSplit(lines[..|lines| - 1], lo, mid, hi);
      LastLineSplits(lines, lo, mid, hi);
    }
  }

  lemma LastLineSplits(lines: seq<LineEvent>, lo: int, mid: int, hi: int)
    requires Increasing(lines) && lo <= mid <= hi && lines != []
    requires var shorter := lines[..|lines| - 1]; Lines(shorter, lo, hi) == Lines(shorter, lo, mid) + Lines(shorter, mid, hi)
    ensures Lines(lines, lo, hi) == Lines(lines, lo, mid) + Lines(lines, mid, hi)
  {
    var m := |lines| - 1;
    var shorter, last := lines[..m], lines[m];
    assert lines == shorter + [last];
    LinesAppend(shorter, last, lo, hi);
    LinesAppend(shorter, last, lo, mid);
    LinesAppend(shorter, last, mid, hi);
    if last.line < mid {
      forall j | 0 <= j < m ensures shorter[j].line < mid { assert lines[j].line < last.line; }
      NoLineBeyond(shorter, mid, hi);
    }
  }

  lemma EmptyRange(lines: seq<LineEvent>, n: int)
    ensures Lines(lines, n, n) == []
  {
    if lines != [] {
      EmptyRange(lines[..|lines| - 1], n);
    }
  }

  /** The range lookup in the recent window is the naive context. */
  lemma {:induction false} WindowGivesContext(index: map<int, string>, lines: seq<LineEvent>, keep: int, lo: int,
          hi: int)
    requires Increasing(lines) && Indexes(index, lines, keep) && keep <= lo
    ensures InRange(index, lo, hi) == Lines(lines, lo, if lo < hi then hi else lo)
    decreases hi - lo
  {
    if lo >= hi {
      EmptyRange(lines, lo);
    } else {
      var n := hi - 1;
      WindowGivesContext(index, lines, keep, lo, n);
      LinesSplit(lines, lo, n, hi);
      if n in index {
        var i :| 0 <= i < |lines| && lines[i].line == n;
        LinesOfOneNumber(lines, n, i);
      } else {
        NoSuchLine(lines, n);
      }
    }
  }

  /** Line numbers below 1 do not exist, so the lookup may start at 1. */
  lemma LinesFromOne(lines: seq<LineEvent>, lo: int, hi: int)
    requires Increasing(lines) && lo <= 1 <= hi
    ensures Lines(lines, lo, hi) == Lines(lines, 1, hi)
    decreases |lines|
  {
    if lines != [] {
      LinesFromOne(lines[..|lines| - 1], lo, hi);
    }
  }
}
