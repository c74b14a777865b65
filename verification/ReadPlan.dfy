/** From a read inside a file to the pieces of the torrent it needs. */
module ReadPlan {
  import opened Types

  const MAX64 := 0x7FFF_FFFF_FFFF_FFFF

  predicate Int64(x: int) {
    -MAX64 - 1 <= x <= MAX64
  }

  /** 64-bit addition wraps around. */
  function Wrap(x: int): (r: int)
    ensures Int64(r) && (Int64(x) ==> r == x)
  {
    (x + MAX64 + 1) % (2 * MAX64 + 2) - MAX64 - 1
  }

  datatype Request = Request(offset: int, length: int, fileStart: int, fileSize: int, pieceLength: int, torrentLength: int)

  predicate Machine(q: Request) {
    && Int64(q.offset) && Int64(q.length) && Int64(q.fileStart) && Int64(q.fileSize)
    && Int64(q.pieceLength) && Int64(q.torrentLength)
  }

  datatype PieceSpan = PieceSpan(index: int, offset: int, length: int)

  function Min(a: int, b: int): int {
    if a < b then a else b
  }

  /** The torrent bytes a request asks for, over unbounded integers: none, or a nonempty range. */
  function Wanted(q: Request): Option<(int, int)> {
    if q.offset < 0 || q.length <= 0 || q.fileSize <= q.offset || q.pieceLength <= 0 then None
    else
      var start := q.fileStart + q.offset;
      var inFile := Min(start + q.length, q.fileStart + q.fileSize);
      var end := if q.torrentLength > 0 then Min(inFile, q.torrentLength) else inFile;
      if start < 0 || end <= start || end > MAX64 then None else Some((start, end))
  }

  /** A byte of the torrent that the request asks for: in the requested part of the file, and, where the
      length of the torrent is known, in the torrent. */
  predicate AsksFor(q: Request, b: int) {
    && q.fileStart + q.offset <= b < q.fileStart + q.offset + q.length && b < q.fileStart + q.fileSize
    && (q.torrentLength > 0 ==> b < q.torrentLength)
  }

  /** A well-placed request wants exactly the bytes it asks for; it wants none only when it asks for none, or
      for one past the largest 64-bit number. */
  lemma WantedMeans(q: Request, b: int)
    ensures q.offset < 0 || q.pieceLength <= 0 || q.fileStart + q.offset < 0 ==> Wanted(q).None?
    ensures Wanted(q).Some? ==>
      && Wanted(q).value.0 == q.fileStart + q.offset && Wanted(q).value.0 < Wanted(q).value.1 <= MAX64
      && (Wanted(q).value.0 <= b < Wanted(q).value.1 <==> AsksFor(q, b))
    ensures Wanted(q).None? && q.offset >= 0 && q.pieceLength > 0 && q.fileStart + q.offset >= 0 ==>
      !AsksFor(q, b) || exists c :: c >= MAX64 && AsksFor(q, c)
  {
    var inFile := Min(q.fileStart + q.offset + q.length, q.fileStart + q.fileSize);
    var end := if q.torrentLength > 0 then Min(inFile, q.torrentLength) else inFile;
    assert AsksFor(q, b) ==> AsksFor(q, end - 1);
  }

  /** Consecutive nonempty spans, each inside its piece, that cover [start, end) and nothing else. */
  ghost predicate Tiles(spans: seq<PieceSpan>, pieceLength: int, start: int, end: int) {
    && 0 < pieceLength && spans != []
    && (forall k :: 0 <= k < |spans| ==> InPiece(spans[k], pieceLength))
    && Begin(spans[0], pieceLength) == start && End(spans[|spans| - 1], pieceLength) == end
    && (forall k :: 0 < k < |spans| ==>
          spans[k].index == spans[0].index + k && Begin(spans[k], pieceLength) == End(spans[k - 1], pieceLength))
  }

  predicate InPiece(s: PieceSpan, pieceLength: int) {
    0 <= s.index && 0 <= s.offset && 0 < s.length && s.offset + s.length <= pieceLength
  }

  function Begin(s: PieceSpan, pieceLength: int): int {
    s.index * pieceLength + s.offset
  }

  function End(s: PieceSpan, pieceLength: int): int {
    s.index * pieceLength + s.offset + s.length
  }

  /** The end of the last piece touched is a 64-bit number. */
  predicate Fits(end: int, pieceLength: int)
    requires 0 < pieceLength
  {
    ((end - 1) / pieceLength + 1) * pieceLength <= MAX64
  }

  lemma PieceOf(x: int, pieceLength: int)
    requires 0 <= x && 0 < pieceLength
    ensures var i := x / pieceLength; 0 <= i && i * pieceLength <= x < (i + 1) * pieceLength
  {
    var i := x / pieceLength;
    assert x == i * pieceLength + x % pieceLength;
    assert (i + 1) * pieceLength == i * pieceLength + pieceLength;
    assert i < 0 ==> (i + 1) * pieceLength <= 0;
  }

  /** Steps 1 to 3: validation and clamping, in machine arithmetic. */
  method Clamp(q: Request) returns (range: Option<(int, int)>)
    requires Machine(q)
    ensures range == Wanted(q)
  {
    if q.offset < 0 || q.length <= 0 || q.fileSize <= q.offset || q.pieceLength <= 0 {
      return None;
    }
    var length := q.length;
    var available := q.fileSize - q.offset;
    if length > available {
      length := available;
    }
    var start := Wrap(q.fileStart + q.offset);
    if start < q.fileStart || start < 0 {
      return None;
    }
    if q.torrentLength > 0 {
      if start >= q.torrentLength {
        return None;
      }
      available := q.torrentLength - start;
      if length > available {
        length := available;
      }
    }
    var end := Wrap(start + length);
    if end < start {
      return None;
    }
    return Some((start, end));
  }

  /** The span of one piece within the range. */
  function SpanOf(index: int, pieceLength: int, start: int, end: int): PieceSpan {
    var pieceStart := index * pieceLength;
    var pieceEnd := Wrap(pieceStart + pieceLength);
    var from := if start < pieceStart then pieceStart else start;
    var to := if end > pieceEnd then pieceEnd else end;
    PieceSpan(index, from - pieceStart, to - from)
  }

  /** Where a piece that the range touches lies relative to the range. */
  lemma PieceInRange(index: int, pieceLength: int, start: int, end: int)
    requires 0 < pieceLength && 0 <= start < end && start / pieceLength <= index <= (end - 1) / pieceLength
    ensures 0 <= index && 0 <= index * pieceLength < end && start < (index + 1) * pieceLength
    ensures (index + 1) * pieceLength == index * pieceLength + pieceLength
    ensures if index == start / pieceLength then index * pieceLength <= start else start < index * pieceLength
    ensures if index == (end - 1) / pieceLength then end <= (index + 1) * pieceLength else (index + 1) * pieceLength < end
  {
    PieceOf(start, pieceLength);
    PieceOf(end - 1, pieceLength);
    var first, last := start / pieceLength, (end - 1) / pieceLength;
    Multiples(0, index, pieceLength);
    Multiples(first, index, pieceLength);
    Multiples(index, last, pieceLength);
  }

  lemma Multiples(a: int, b: int, n: int)
    requires a <= b && 0 < n
    ensures a * n <= b * n && (a + 1) * n == a * n + n && (b + 1) * n == b * n + n
    ensures a < b ==> (a + 1) * n <= b * n
  {
    assert a < b ==> (a + 1) * n <= b * n;
  }

  lemma SpanFits(index: int, pieceLength: int, start: int, end: int)
    requires 0 < pieceLength && 0 <= start < end && start / pieceLength <= index <= (end - 1) / pieceLength
    requires (index + 1) * pieceLength <= MAX64
    ensures var s := SpanOf(index, pieceLength, start, end);
      && InPiece(s, pieceLength)
      && Begin(s, pieceLength) == (if index == start / pieceLength then start else index * pieceLength)
      && End(s, pieceLength) == (if index == (end - 1) / pieceLength then end else (index + 1) * pieceLength)
  {
    PieceInRange(index, pieceLength, start, end);
  }

  /** If the end of the last piece does not fit, its span comes out with a negative length. */
  lemma SpanBreaks(pieceLength: int, start: int, end: int)
    requires 0 < pieceLength <= MAX64 && 0 <= start < end <= MAX64 && !Fits(end, pieceLength)
    ensures !InPiece(SpanOf((end - 1) / pieceLength, pieceLength, start, end), pieceLength)
  {
    PieceOf(end - 1, pieceLength);
    var last := (end - 1) / pieceLength;
    assert (last + 1) * pieceLength == last * pieceLength + pieceLength;
    assert Wrap(last * pieceLength + pieceLength) < 0;
  }

  /** The last byte of the largest torrent, in pieces of two bytes: the end of its piece wraps around, and
      the only span of the plan has a negative length. */
  lemma LastByteWraps()
    ensures var q := Request(MAX64 - 1, 1, 0, MAX64, 2, MAX64);
      var (start, end) := (MAX64 - 1, MAX64);
      var span := SpanOf(start / 2, 2, start, end);
      && Machine(q) && Wanted(q) == Some((start, end)) && !Fits(end, 2)
      && span.length < 0 && !Tiles([span], 2, start, end)
  {
    SpanBreaks(2, MAX64 - 1, MAX64);
  }

  /** Plans a read: nothing when nothing is wanted; otherwise spans that tile the wanted range exactly,
      if and only if the end of the last piece is a 64-bit number. */
  method Plan(q: Request) returns (spans: seq<PieceSpan>)
    requires Machine(q)
    ensures Wanted(q).None? <==> spans == []
    ensures Wanted(q).Some? ==>
      var (start, end) := Wanted(q).value;
      Tiles(spans, q.pieceLength, start, end) <==> Fits(end, q.pieceLength)
  {
    var range := Clamp(q);
    if range == None {
      return [];
    }
    var (start, end) := range.value;
    var first, last := start / q.pieceLength, (end - 1) / q.pieceLength + 1;
    Ordered(start, end, q.pieceLength);
    spans := [];
    for index := first to last
      invariant |spans| == index - first
      invariant forall k :: 0 <= k < |spans| ==> spans[k] == SpanOf(first + k, q.pieceLength, start, end)
    {
      spans := spans + [SpanOf(index, q.pieceLength, start, end)];
    }
    if Fits(end, q.pieceLength) {
      SpansTile(spans, q.pieceLength, start, end);
    } else {
      SpanBreaks(q.pieceLength, start, end);
      assert spans[last - 1 - first] == SpanOf(last - 1, q.pieceLength, start, end);
    }
  }

  lemma Grows(a: int, b: int, n: int)
    requires 0 < n
    ensures a <= b ==> a * n <= b * n
  {
    if a <= b {
      Multiples(a, b, n);
    }
  }

  lemma Ordered(start: int, end: int, pieceLength: int)
    requires 0 < pieceLength && 0 <= start < end
    ensures 0 <= start / pieceLength <= (end - 1) / pieceLength
  {
    PieceOf(start, pieceLength);
    PieceOf(end - 1, pieceLength);
    var first, last := start / pieceLength, (end - 1) / pieceLength;
    Grows(last + 1, first, pieceLength);
  }

  lemma SpansTile(spans: seq<PieceSpan>, pieceLength: int, start: int, end: int)
    requires 0 < pieceLength && 0 <= start < end && Fits(end, pieceLength)
    requires |spans| == (end - 1) / pieceLength + 1 - start / pieceLength
    requires forall k :: 0 <= k < |spans| ==> spans[k] == SpanOf(start / pieceLength + k, pieceLength, start, end)
    ensures Tiles(spans, pieceLength, start, end)
  {
    Ordered(start, end, pieceLength);
    var first, last := start / pieceLength, (end - 1) / pieceLength;
    forall k | 0 <= k < |spans| ensures PlacedAt(spans[k], pieceLength, start, end, first + k) {
      SpanPlaced(first + k, pieceLength, start, end);
    }
    assert PlacedAt(spans[0], pieceLength, start, end, first);
    assert PlacedAt(spans[last - first], pieceLength, start, end, last);
    forall k | 0 < k < |spans|
      ensures spans[k].index == spans[0].index + k && Begin(spans[k], pieceLength) == End(spans[k - 1], pieceLength)
    {
      assert PlacedAt(spans[k], pieceLength, start, end, first + k);
      assert PlacedAt(spans[k - 1], pieceLength, start, end, first + k - 1);
    }
  }

  ghost predicate PlacedAt(s: PieceSpan, pieceLength: int, start: int, end: int, index: int)
    requires 0 < pieceLength
  {
    && s.index == index && InPiece(s, pieceLength)
    && Begin(s, pieceLength) == (if index == start / pieceLength then start else index * pieceLength)
    && End(s, pieceLength) == (if index == (end - 1) / pieceLength then end else (index + 1) * pieceLength)
  }

  lemma SpanPlaced(index: int, pieceLength: int, start: int, end: int)
    requires 0 < pieceLength && 0 <= start < end && Fits(end, pieceLength)
    requires start / pieceLength <= index <= (end - 1) / pieceLength
    ensures PlacedAt(SpanOf(index, pieceLength, start, end), pieceLength, start, end, index)
  {
    assert (index + 1) * pieceLength <= ((end - 1) / pieceLength + 1) * pieceLength;
    SpanFits(index, pieceLength, start, end);
  }
}
