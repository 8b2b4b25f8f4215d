/** The bounded head/tail capture of one byte stream, _BoundedStreamCapture in
    shell.py, and the line count it reports without keeping the stream. */
module StreamCapture {
  import opened Bytes
  import opened Options

  const LF: byte := 10
  const CR: byte := 13

  function Min(a: int, b: int): int { if a < b then a else b }

  function Count(s: seq<byte>, b: byte): nat {
    if s == [] then 0 else (if s[0] == b then 1 else 0) + Count(s[1..], b)
  }

  /** Number of places where CR is followed at once by LF. */
  function CountCrLf(s: seq<byte>): nat {
    if |s| < 2 then 0 else (if s[0] == CR && s[1] == LF then 1 else 0) + CountCrLf(s[1..])
  }

  function LineBreaks(s: seq<byte>): int {
    Count(s, LF) + Count(s, CR) - CountCrLf(s)
  }

  function CountLines(s: seq<byte>): int {
    if s == [] then 0 else LineBreaks(s) + if s[|s| - 1] !in {LF, CR} then 1 else 0
  }

  /** Lines as an editor sees them: LF, CR and the pair CR LF each end one line, and
      bytes after the last ending are one more line. */
  function LinesOf(s: seq<byte>): nat
    decreases |s|
  {
    if s == [] then 0
    else if s[0] == LF then 1 + LinesOf(s[1..])
    else if s[0] == CR then 1 + LinesOf(if |s| > 1 && s[1] == LF then s[2..] else s[1..])
    else if |s| == 1 then 1
    else LinesOf(s[1..])
  }

  /** The arithmetic on break counts counts the lines. */
  lemma {:induction false} CountLinesCountsLines(s: seq<byte>)
    ensures CountLines(s) == LinesOf(s)
    decreases |s|
  {
    if |s| == 1 {
      assert s[1..] == [];
    } else if |s| >= 2 {
      if s[0] == CR && s[1] == LF {
        var t := s[1..];
        assert t[0] == LF && t[1..] == s[2..];
        CountLinesCountsLines(s[2..]);
        assert Count(s, LF) == 1 + Count(s[2..], LF) && Count(s, CR) == 1 + Count(s[2..], CR);
        assert CountCrLf(t) == CountCrLf(s[2..]);
      } else {
        var t := s[1..];
        assert t[0] == s[1] && t[|t| - 1] == s[|s| - 1];
        CountLinesCountsLines(t);
      }
    }
  }

  lemma {:induction false} CountAppend(a: seq<byte>, c: seq<byte>, b: byte)
    ensures Count(a + c, b) == Count(a, b) + Count(c, b)
  {
    if a == [] {
      assert a + c == c;
    } else {
      assert (a + c)[1..] == a[1..] + c;
      CountAppend(a[1..], c, b);
    }
  }

  /** A pair split between two chunks is missed by both and must be added. */
  lemma {:induction false} CountCrLfAppend(a: seq<byte>, c: seq<byte>)
    ensures CountCrLf(a + c) == CountCrLf(a) + CountCrLf(c)
      + if a != [] && c != [] && a[|a| - 1] == CR && c[0] == LF then 1 else 0
  {
    if a == [] {
      assert a + c == c;
    } else {
      assert (a + c)[1..] == a[1..] + c;
      CountCrLfAppend(a[1..], c);
      if |a| == 1 && c != [] {
        assert (a + c)[1] == c[0];
      }
    }
  }

  function LastByte(s: seq<byte>): Option<byte> {
    if s == [] then None else Some(s[|s| - 1])
  }

  /** The breaks a chunk adds, given the byte before it. */
  function ChunkBreaks(previousLast: Option<byte>, chunk: seq<byte>): int
    requires chunk != []
  {
    Count(chunk, LF) + Count(chunk, CR) - CountCrLf(chunk)
    - if previousLast == Some(CR) && chunk[0] == LF then 1 else 0
  }

  lemma LineBreaksAppend(a: seq<byte>, c: seq<byte>)
    requires c != []
    ensures LineBreaks(a + c) == LineBreaks(a) + ChunkBreaks(LastByte(a), c)
    ensures LastByte(a + c) == LastByte(c)
  {
    CountAppend(a, c, LF);
    CountAppend(a, c, CR);
    CountCrLfAppend(a, c);
  }

  /** What a capture of a whole stream must hold: its first bytes, and the last bytes of
      what lies behind those. */
  ghost predicate Windows(s: seq<byte>, maxBytes: nat, head: seq<byte>, tail: seq<byte>) {
    && |head| == Min(|s|, (maxBytes + 1) / 2)
    && |tail| == Min(|s| - |head|, maxBytes / 2)
    && head == s[..|head|]
    && tail == s[|s| - |tail|..]
  }

  class BoundedStreamCapture {
    const maxBytes: nat
    var head: seq<byte>
    var tail: seq<byte>
    var totalBytes: nat
    var lineBreaks: int
    var lastByte: Option<byte>
    ghost var stream: seq<byte>

    /** The fields are those of a capture that has seen exactly the bytes of stream. */
    ghost predicate Valid()
      reads this
    {
      && Windows(stream, maxBytes, head, tail)
      && totalBytes == |stream|
      && lineBreaks == LineBreaks(stream)
      && lastByte == LastByte(stream)
    }

    constructor (maxBytes: int)
      ensures Valid() && stream == [] && this.maxBytes == if maxBytes < 0 then 0 else maxBytes
    {
      this.maxBytes := if maxBytes < 0 then 0 else maxBytes;
      head, tail, totalBytes, lineBreaks, lastByte, stream := [], [], 0, 0, None, [];
      new;
      NothingCaptured(this.maxBytes);
    }

    method Add(chunk: seq<byte>)
      requires Valid()
      modifies this
      ensures Valid() && stream == old(stream) + chunk
    {
      if chunk == [] {
        assert stream + chunk == stream;
        return;
      }
      CountChunk(chunk);
      SlideWindows(chunk);
      stream := stream + chunk;
    }

    /** The first half of add: the counters take the chunk in, a CRLF split before it included. */
    method CountChunk(chunk: seq<byte>)
      requires chunk != []
      requires totalBytes == |stream| && lineBreaks == LineBreaks(stream) && lastByte == LastByte(stream)
      modifies this`totalBytes, this`lineBreaks, this`lastByte
      ensures totalBytes == |stream + chunk| && lineBreaks == LineBreaks(stream + chunk) && lastByte == LastByte(stream + chunk)
    {
      totalBytes := totalBytes + |chunk|;
      lineBreaks := lineBreaks + ChunkBreaks(lastByte, chunk);
      lastByte := LastByte(chunk);
      LineBreaksAppend(stream, chunk);
    }

    method SlideWindows(chunk: seq<byte>)
      requires Windows(stream, maxBytes, head, tail)
      modifies this`head, this`tail
      ensures Windows(stream + chunk, maxBytes, head, tail)
    {
      ghost var newHead, newTail := WindowsGrow(stream, chunk, maxBytes, head, tail);
      Keep(chunk);
      assert head == newHead;
      assert tail == newTail;
    }

    /** The second half of add: fill the head window, then let the tail window slide. */
    method Keep(bytes: seq<byte>)
      requires |head| <= (maxBytes + 1) / 2 && |tail| <= maxBytes / 2
      modifies this`head, this`tail
      ensures var room := Min((maxBytes + 1) / 2 - |old(head)|, |bytes|);
        && head == old(head) + bytes[..room]
        && tail == Last(old(tail) + bytes[room..], maxBytes / 2)
    {
      var chunk := bytes;
      var headLimit := (maxBytes + 1) / 2;
      var tailLimit := maxBytes - headLimit;
      var headRemaining := headLimit - |head|;
      if headRemaining > 0 {
        head := head + chunk[..Min(headRemaining, |chunk|)];
        chunk := chunk[Min(headRemaining, |chunk|)..];
      }
      LastByOverflow(tail, chunk, tailLimit);
      if chunk == [] || tailLimit <= 0 {
        return;
      }
      tail := tail + chunk;
      var overflow := |tail| - tailLimit;
      if overflow > 0 {
        tail := tail[overflow..];
      }
    }

    function RetainedBytes(): nat
      reads this
    {
      |head| + |tail|
    }

    function DroppedBytes(): nat
      reads this
    {
      if totalBytes < RetainedBytes() then 0 else totalBytes - RetainedBytes()
    }

    function TotalLines(): int
      reads this
    {
      if totalBytes == 0 then 0
      else lineBreaks + if lastByte !in {Some(LF), Some(CR)} then 1 else 0
    }

    /** The derived counts are facts about the whole stream, most of which is gone. */
    method Report() returns (r: Summary)
      requires Valid()
      ensures IsSummary(stream, maxBytes, r)
    {
      CountLinesCountsLines(stream);
      r := Summary(head, tail, DroppedBytes(), TotalLines());
    }
  }

  datatype Summary = Summary(head: seq<byte>, tail: seq<byte>, dropped: nat, totalLines: int)

  ghost predicate IsSummary(s: seq<byte>, maxBytes: nat, r: Summary) {
    && Windows(s, maxBytes, r.head, r.tail)
    && r.dropped == (if |s| > maxBytes then |s| - maxBytes else 0)
    && r.totalLines == CountLines(s) == LinesOf(s)
  }

  /** A stream within the limit is kept whole. */
  lemma NothingDropped(s: seq<byte>, maxBytes: nat, r: Summary)
    requires IsSummary(s, maxBytes, r) && r.dropped == 0
    ensures r.head + r.tail == s
  {
    assert s == s[..|r.head|] + s[|r.head|..];
  }

  lemma NothingCaptured(maxBytes: nat)
    ensures Windows([], maxBytes, [], []) && LineBreaks([]) == 0
  {
  }

  /** The two windows after more bytes arrive, by what the code does with them. */
  lemma WindowsGrow(was: seq<byte>, bytes: seq<byte>, maxBytes: nat, head: seq<byte>, tail: seq<byte>)
      returns (newHead: seq<byte>, newTail: seq<byte>)
    requires Windows(was, maxBytes, head, tail)
    ensures |head| <= (maxBytes + 1) / 2 && |tail| <= maxBytes / 2
    ensures Windows(was + bytes, maxBytes, newHead, newTail)
    ensures var room := Min((maxBytes + 1) / 2 - |head|, |bytes|);
      && newHead == head + bytes[..room]
      && newTail == Last(tail + bytes[room..], maxBytes / 2)
  {
    var room := Min((maxBytes + 1) / 2 - |head|, |bytes|);
    newHead := head + bytes[..room];
    newTail := Last(tail + bytes[room..], maxBytes / 2);
  }

  /** The last n elements, or all when there are fewer. */
  function Last(s: seq<byte>, n: nat): seq<byte> {
    s[|s| - Min(|s|, n)..]
  }

  lemma LastByOverflow(tail: seq<byte>, chunk: seq<byte>, n: nat)
    requires |tail| <= n
    ensures chunk == [] || n == 0 ==> Last(tail + chunk, n) == tail
    ensures |tail + chunk| > n ==> Last(tail + chunk, n) == (tail + chunk)[|tail + chunk| - n..]
    ensures |tail + chunk| <= n ==> Last(tail + chunk, n) == tail + chunk
  {
  }

  function Concat(chunks: seq<seq<byte>>): seq<byte> {
    if chunks == [] then [] else Concat(chunks[..|chunks| - 1]) + chunks[|chunks| - 1]
  }

  /** However a stream is cut into chunks, the capture keeps its first and last bytes,
      and knows how much it dropped and how many lines went by. */
  method Drain(chunks: seq<seq<byte>>, maxBytes: nat) returns (r: Summary)
    ensures IsSummary(Concat(chunks), maxBytes, r)
  {
    var capture := new BoundedStreamCapture(maxBytes);
    for i := 0 to |chunks|
      invariant capture.Valid() && capture.stream == Concat(chunks[..i])
      invariant fresh(capture) && capture.maxBytes == maxBytes
    {
      assert chunks[..i + 1][..i] == chunks[..i];
      capture.Add(chunks[i]);
    }
    assert chunks[..|chunks|] == chunks;
    r := capture.Report();
  }
}
