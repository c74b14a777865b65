/** Reads of a file inside a torrent, assembled from cached and fetched pieces. */
module FileReader {
  import opened Types
  import opened ReadPlan

  datatype Error = NoError | EOF | UnexpectedEOF | InvalidName | Closed | Cancelled | Failed(code: nat)

  datatype Reply = Reply(data: Bytes, err: Error)

  /** What the outside answers, call by call: the cache, the loader, and whether the read was cancelled
      or the file closed meanwhile. */
  datatype Outside = Outside(
    cached: (nat, int) -> Option<Bytes>, load: (nat, int, int) -> Reply, cancelled: nat -> bool, closed: nat -> bool)

  datatype File = File(start: int, size: int, pieceLength: int, torrentSize: int)

  const ATTEMPTS := 5

  /** The bytes of one piece; the last one may be short. */
  function PieceBytes(content: Bytes, pieceLength: int, index: int): Bytes
    requires 0 < pieceLength && 0 <= index && index * pieceLength <= |content|
  {
    content[index * pieceLength..Min((index + 1) * pieceLength, |content|)]
  }

  ghost predicate Inside(content: Bytes, start: int, length: int) {
    0 <= start && 0 <= length && start + length <= |content|
  }

  /** Cached pieces and complete loader reads hold the torrent's bytes. */
  ghost predicate Honest(o: Outside, content: Bytes, pieceLength: int)
    requires 0 < pieceLength
  {
    && (forall t, i :: 0 <= i && i * pieceLength <= |content| && o.cached(t, i).Some? ==>
          o.cached(t, i).value == PieceBytes(content, pieceLength, i))
    && (forall t, s, n :: Inside(content, s, n) ==>
          |o.load(t, s, n).data| <= n && (|o.load(t, s, n).data| == n ==> o.load(t, s, n).data == content[s..s + n]))
  }

  predicate Clean(e: Error) {
    e == NoError || e == EOF
  }

  /** At that call the loader gave less than was asked for, without an error of its own. */
  predicate ShortAt(o: Outside, t: nat, start: int, length: int) {
    |o.load(t, start, length).data| < length && Clean(o.load(t, start, length).err)
  }

  /** As many calls in a row as are attempted all gave less than was asked for. */
  ghost predicate KeepsShort(o: Outside, clock: nat, start: int, length: int) {
    forall t: nat :: clock <= t < clock + ATTEMPTS ==> ShortAt(o, t, start, length)
  }

  /** Nothing is cancelled or closed, and the loader has no error of its own and answers every request
      inside the torrent in full at least once in as many calls as are attempted. */
  ghost predicate Willing(o: Outside, content: Bytes) {
    && (forall t :: !o.cancelled(t) && !o.closed(t))
    && (forall t, s, n :: Inside(content, s, n) ==> Clean(o.load(t, s, n).err))
    && (forall t, s, n :: Inside(content, s, n) ==> !KeepsShort(o, t, s, n))
  }

  /** What an error other than EOF comes from: the read was cancelled, the file closed, the loader reported
      that error, or it kept answering short. */
  ghost predicate Blamed(o: Outside, content: Bytes, e: Error) {
    || (e == Cancelled && exists t :: o.cancelled(t))
    || (e == Closed && exists t :: o.closed(t))
    || (!Clean(e) && exists t, s, n :: Inside(content, s, n) && o.load(t, s, n).err == e)
    || (e == UnexpectedEOF && exists t, s, n :: Inside(content, s, n) && KeepsShort(o, t, s, n))
  }

  function Zeros(n: int): Bytes {
    if n < 0 then [] else seq(n, _ => 0 as byte)
  }

  /** A loader that holds a torrent of zeros and answers every other call short is willing and honest. */
  lemma SomebodyIsWilling(size: nat, pieceLength: int) returns (o: Outside)
    requires 0 < pieceLength
    ensures Willing(o, Zeros(size)) && Honest(o, Zeros(size), pieceLength)
    ensures forall s, n :: 0 < n ==> ShortAt(o, 0, s, n)
  {
    o := Outside((t, i) => None, (t, s, n) => Reply(if t % 2 == 0 then [] else Zeros(n), EOF), t => false, t => false);
    forall t: nat, s, n | Inside(Zeros(size), s, n) ensures !KeepsShort(o, t, s, n) {
      assert !ShortAt(o, t, s, n) || !ShortAt(o, t + 1, s, n);
    }
    assert Honest(o, Zeros(size), pieceLength);
  }

  /** A file of its torrent, with room for one more piece in 64 bits. */
  ghost predicate Placed(f: File, content: Bytes) {
    && 0 < f.pieceLength && f.torrentSize == |content| && |content| + f.pieceLength <= MAX64
    && Int64(f.start) && Int64(f.size) && 0 <= f.start && 0 <= f.size && (f.size > 0 ==> content != [])
  }

  /** How much of the file lies inside the torrent; all of it, unless the two disagree. */
  function Extent(f: File): int {
    if f.start + f.size <= f.torrentSize then f.size else if f.start <= f.torrentSize then f.torrentSize - f.start else 0
  }

  /** A place in the file lies before that extent exactly when the file and the torrent both reach it. */
  lemma ExtentMeans(f: File, off: nat)
    ensures off < Extent(f) <==> off < f.size && f.start + off < f.torrentSize
  {
  }

  /** Fetches one piece, again after a short answer, up to a fixed number of attempts. */
  method ReadPiece(o: Outside, clock: nat, start: int, length: int, ghost content: Bytes, ghost pieceLength: int)
    returns (data: Bytes, err: Error, now: nat)
    requires 0 < pieceLength && Honest(o, content, pieceLength) && Inside(content, start, length)
    ensures err == NoError ==> data == content[start..start + length]
    ensures err != EOF && (err != NoError ==> Blamed(o, content, err)) && (Willing(o, content) ==> err == NoError)
    ensures err == UnexpectedEOF ==>
      (exists t :: o.load(t, start, length).err == UnexpectedEOF) || KeepsShort(o, clock, start, length)
  {
    now := clock;
    var attempt := 1;
    while true
      invariant 1 <= attempt <= ATTEMPTS && now == clock + attempt - 1
      invariant forall t: nat :: clock <= t < now ==> ShortAt(o, t, start, length)
      decreases ATTEMPTS - attempt
    {
      var reply := o.load(now, start, length);
      now := now + 1;
      data, err := reply.data, reply.err;
      if |data| == length && Clean(err) {
        return data, NoError, now;
      }
      var short := |data| < length && Clean(err);
      if !short || attempt == ATTEMPTS {
        break;
      }
      if o.cancelled(now) {
        return data, Cancelled, now;
      }
      attempt := attempt + 1;
    }
    if err != NoError && err != EOF {
      return data, err, now;
    }
    assert KeepsShort(o, clock, start, length);
    return data, UnexpectedEOF, now;
  }

  lemma PieceRange(content: Bytes, pieceLength: int, index: int)
    requires 0 < pieceLength && 0 <= index && index * pieceLength < |content|
    ensures var start := index * pieceLength;
      var length := if |content| - start < pieceLength then |content| - start else pieceLength;
      0 < length && Inside(content, start, length) && content[start..start + length] == PieceBytes(content, pieceLength, index)
  {
    assert (index + 1) * pieceLength == index * pieceLength + pieceLength;
  }

  /** One whole piece, from the cache or the loader. */
  method GetPiece(o: Outside, clock: nat, f: File, index: int, ghost content: Bytes)
    returns (data: Bytes, err: Error, now: nat)
    requires Placed(f, content) && Honest(o, content, f.pieceLength) && 0 <= index && index * f.pieceLength < |content|
    ensures err == NoError ==> data == PieceBytes(content, f.pieceLength, index)
    ensures err != EOF && (err != NoError ==> Blamed(o, content, err)) && (Willing(o, content) ==> err == NoError)
  {
    PieceRange(content, f.pieceLength, index);
    now := clock + 1;
    var hit := o.cached(clock, index);
    if hit.Some? {
      return hit.value, NoError, now;
    }
    var start := index * f.pieceLength;
    var length := f.pieceLength;
    if f.torrentSize - start < length {
      length := f.torrentSize - start;
    }
    data, err, now := ReadPiece(o, now, start, length, content, f.pieceLength);
    if err == NoError && o.closed(now) {
      err := Closed;
    }
  }

  /** The part of a piece a span names. */
  method GetSpan(o: Outside, clock: nat, f: File, span: PieceSpan, ghost content: Bytes)
    returns (data: Bytes, err: Error, now: nat)
    requires Placed(f, content) && Honest(o, content, f.pieceLength) && InPiece(span, f.pieceLength)
    requires End(span, f.pieceLength) <= |content|
    ensures err == NoError ==> data == content[Begin(span, f.pieceLength)..End(span, f.pieceLength)]
    ensures err != EOF && (err != NoError ==> Blamed(o, content, err)) && (Willing(o, content) ==> err == NoError)
  {
    var end := span.offset + span.length;
    now := clock + 1;
    var hit := o.cached(clock, span.index);
    if hit.Some? {
      data, err := hit.value, NoError;
    } else {
      data, err, now := GetPiece(o, now, f, span.index, content);
    }
    if err != NoError {
      return;
    }
    SpanInPiece(content, f.pieceLength, span);
    if end > |data| {
      return data, UnexpectedEOF, now;
    }
    data := data[span.offset..end];
  }

  lemma SpanInPiece(content: Bytes, pieceLength: int, span: PieceSpan)
    requires 0 < pieceLength && InPiece(span, pieceLength) && End(span, pieceLength) <= |content|
    ensures span.index * pieceLength <= |content|
    ensures var piece := PieceBytes(content, pieceLength, span.index);
      && span.offset + span.length <= |piece|
      && piece[span.offset..span.offset + span.length] == content[Begin(span, pieceLength)..End(span, pieceLength)]
  {
    var start := span.index * pieceLength;
    assert (span.index + 1) * pieceLength == start + pieceLength;
    assert start >= 0;
    SliceOfSlice(content, start, Min(start + pieceLength, |content|), span.offset, span.offset + span.length);
  }

  lemma SliceOfSlice<T>(s: seq<T>, a: int, b: int, c: int, d: int)
    requires 0 <= a <= b <= |s| && 0 <= c <= d <= b - a
    ensures s[a..b][c..d] == s[a + c..a + d]
  {
    var l, r := s[a..b][c..d], s[a + c..a + d];
    assert |l| == |r|;
    assert forall i :: 0 <= i < |l| ==> l[i] == s[a + c + i] && r[i] == s[a + c + i];
  }

  /** The first spans of a tiling cover a prefix of its range. */
  lemma {:induction false} TilingEnds(spans: seq<PieceSpan>, pieceLength: int, start: int, end: int, k: nat)
    requires Tiles(spans, pieceLength, start, end) && k < |spans|
    ensures start <= Begin(spans[k], pieceLength) && End(spans[k], pieceLength) <= end
    ensures Begin(spans[k], pieceLength) < End(spans[k], pieceLength)
    decreases |spans| - k
  {
    TilingBegins(spans, pieceLength, start, end, k);
    assert InPiece(spans[k], pieceLength);
    if k + 1 < |spans| {
      TilingEnds(spans, pieceLength, start, end, k + 1);
      assert Begin(spans[k + 1], pieceLength) == End(spans[k + 1 - 1], pieceLength);
    }
  }

  lemma {:induction false} TilingBegins(spans: seq<PieceSpan>, pieceLength: int, start: int, end: int, k: nat)
    requires Tiles(spans, pieceLength, start, end) && k < |spans|
    ensures start <= Begin(spans[k], pieceLength)
  {
    if k > 0 {
      TilingBegins(spans, pieceLength, start, end, k - 1);
      assert InPiece(spans[k - 1], pieceLength);
      assert Begin(spans[k], pieceLength) == End(spans[k - 1], pieceLength);
    }
  }

  /** Where the bytes delivered after k spans end. */
  ghost function Reached(spans: seq<PieceSpan>, pieceLength: int, k: nat): int
    requires k <= |spans| && spans != []
  {
    if k == 0 then Begin(spans[0], pieceLength) else End(spans[k - 1], pieceLength)
  }

  function Asks(f: File, off: int, length: int): Request {
    Request(off, length, f.start, f.size, f.pieceLength, f.torrentSize)
  }

  /** A file's wanted range is the request cut at the end of the file, or of the torrent if that comes first. */
  lemma WantedInFile(f: File, content: Bytes, off: int, length: int)
    requires Placed(f, content) && 0 <= off && 0 < length <= MAX64 && Int64(off)
    ensures Machine(Asks(f, off, length))
    ensures Wanted(Asks(f, off, length)).None? <==> Extent(f) <= off
    ensures off < Extent(f) ==>
      && Wanted(Asks(f, off, length)) == Some((f.start + off, f.start + Min(off + length, Extent(f))))
      && Fits(f.start + Min(off + length, Extent(f)), f.pieceLength)
  {
    if off < Extent(f) {
      var end := f.start + Min(off + length, Extent(f));
      PieceOf(end - 1, f.pieceLength);
      var i := (end - 1) / f.pieceLength;
      assert (i + 1) * f.pieceLength == i * f.pieceLength + f.pieceLength;
    }
  }

  /** Copies into the buffer from position `written` on. */
  method CopyInto(p: array<byte>, written: nat, data: Bytes) returns (n: nat)
    requires written <= p.Length
    modifies p
    ensures n == Min(p.Length - written, |data|) as nat
    ensures p[..written] == old(p[..written]) && p[written..written + n] == data[..n]
    ensures p[written + n..] == old(p[written + n..])
  {
    n := if p.Length - written < |data| then p.Length - written else |data|;
    forall i | 0 <= i < n {
      p[written + i] := data[i];
    }
  }

  /** Appends one span's bytes to what the buffer holds. */
  method Deliver(p: array<byte>, written: nat, data: Bytes, ghost content: Bytes, ghost start: int)
    returns (now: nat)
    requires written + |data| <= p.Length && 0 <= start && start + written + |data| <= |content|
    requires p[..written] == content[start..start + written]
    requires data == content[start + written..start + written + |data|]
    modifies p
    ensures now == written + |data| && p[..now] == content[start..start + now] && p[now..] == old(p[now..])
  {
    var n := CopyInto(p, written, data);
    assert p[..written + n] == p[..written] + p[written..written + n];
    assert data[..n] == data;
    AppendBytes(p[..written + n], p[..written], data, content, start, written);
    return written + n;
  }

  /** Delivers span after span until one fails. */
  method ReadSpans(o: Outside, clock: nat, f: File, spans: seq<PieceSpan>, p: array<byte>, ghost content: Bytes,
                   ghost start: int, ghost end: int)
    returns (written: nat, err: Error)
    requires Placed(f, content) && Honest(o, content, f.pieceLength)
    requires Tiles(spans, f.pieceLength, start, end) && 0 <= start <= end <= |content| && end - start <= p.Length
    modifies p
    ensures written <= end - start && p[..written] == content[start..start + written]
    ensures p[written..] == old(p[written..])
    ensures err == NoError ==> written == end - start
    ensures err != EOF && (err != NoError ==> Blamed(o, content, err)) && (Willing(o, content) ==> err == NoError)
  {
    written, err := 0, NoError;
    var now := clock;
    for k := 0 to |spans|
      invariant err == NoError && written <= end - start && start + written == Reached(spans, f.pieceLength, k)
      invariant p[..written] == content[start..start + written] && p[written..] == old(p[written..])
    {
      if o.cancelled(now) {
        return written, Cancelled;
      }
      TilingEnds(spans, f.pieceLength, start, end, k);
      assert start + written == Begin(spans[k], f.pieceLength);
      var data;
      data, err, now := GetSpan(o, now, f, spans[k], content);
      if err != NoError {
        return;
      }
      written := Deliver(p, written, data, content, start);
    }
  }

  lemma AppendBytes(all: Bytes, front: Bytes, data: Bytes, content: Bytes, start: int, written: nat)
    requires 0 <= start && start + written + |data| <= |content|
    requires all == front + data && front == content[start..start + written]
    requires data == content[start + written..start + written + |data|]
    ensures all == content[start..start + written + |data|]
  {
  }

  /** A read of the file. Success fills the buffer with exactly the bytes asked for; EOF means that the
      request passes the end of the file, and the buffer then holds everything up to that end; after any
      other error the buffer still holds a prefix of what was asked for, and nothing else is touched. */
  method ReadAt(o: Outside, f: File, p: array<byte>, off: int, ghost content: Bytes) returns (written: nat, err: Error)
    requires Placed(f, content) && Honest(o, content, f.pieceLength) && Int64(off) && p.Length <= MAX64
    modifies p
    ensures err == InvalidName <== off < 0
    ensures written <= p.Length && p[written..] == old(p[written..])
    ensures written > 0 ==> 0 <= off && off + written <= Extent(f)
    ensures written > 0 ==> p[..written] == content[f.start + off..f.start + off + written]
    ensures err == NoError ==> written == p.Length
    ensures err == EOF ==> 0 <= off && off + p.Length > Extent(f) && (off < Extent(f) ==> written == Extent(f) - off)
    ensures 0 <= off && err != NoError && err != EOF ==> Blamed(o, content, err)
    ensures Willing(o, content) && 0 <= off ==> err == if p.Length == 0 || off + p.Length <= Extent(f) then NoError else EOF
  {
    if off < 0 {
      return 0, InvalidName;
    }
    if p.Length == 0 {
      return 0, NoError;
    }
    if o.closed(0) {
      return 0, Closed;
    }
    if o.cancelled(0) {
      return 0, Cancelled;
    }
    WantedInFile(f, content, off, p.Length);
    var spans := Plan(Asks(f, off, p.Length));
    if spans == [] {
      return 0, EOF;
    }
    written, err := ReadSpans(o, 0, f, spans, p, content, f.start + off, f.start + Min(off + p.Length, Extent(f)));
    if err == NoError && written < p.Length {
      err := EOF;
    }
  }
}
