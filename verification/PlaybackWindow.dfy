/** The pieces that read-ahead wants: those of the playback window ahead of the cursor. */
module PlaybackWindow {
  import opened Spans
  import opened Playback
  import C = CacheModel
  import opened PlayerModel

  /** The torrent bytes read-ahead may fetch: from the cursor to the end of the window, the file or the
      torrent, whichever comes first. */
  function WindowBytes(a: Anchor): (int, int) {
    var from := a.fileStart + a.cursor;
    var end := Min(from + PLAYBACK_WINDOW, a.fileStart + a.fileSize);
    (from, if a.torrentSize > 0 && end > a.torrentSize then a.torrentSize else end)
  }

  /** The piece holds some of those bytes. */
  ghost predicate InWindowBytes(a: Anchor, i: nat) {
    var (from, end) := WindowBytes(a);
    0 < a.pieceLength && from < end && i * a.pieceLength < end && from < (i + 1) * a.pieceLength
  }

  /** How many of those bytes the piece holds. */
  function Overlap(a: Anchor, i: nat): int {
    if a.pieceLength <= 0 then 0
    else
      var from := Max(i * a.pieceLength, a.fileStart + a.cursor);
      var end := Min((i + 1) * a.pieceLength, a.fileStart + a.fileSize);
      var to := if a.torrentSize > 0 && end > a.torrentSize then a.torrentSize else end;
      if to <= from then 0 else to - from
  }

  ghost function Overlaps(a: Anchor, pieces: seq<nat>): int {
    if pieces == [] then 0 else Overlaps(a, pieces[..|pieces| - 1]) + Overlap(a, pieces[|pieces| - 1])
  }

  lemma OverlapsSnoc(a: Anchor, pieces: seq<nat>, k: nat)
    requires k < |pieces|
    ensures Overlaps(a, pieces[..k + 1]) == Overlaps(a, pieces[..k]) + Overlap(a, pieces[k])
  {
    assert pieces[..k + 1][..k] == pieces[..k];
  }

  ghost predicate IsWindow(a: Anchor, desired: seq<nat>) {
    C.NoDuplicates(desired) && forall i: nat :: i in desired <==> InWindowBytes(a, i)
  }

  lemma TouchedPieces(from: int, end: int, n: int, i: int)
    requires 0 <= from < end && 0 < n
    ensures from / n <= i <= (end - 1) / n <==> i * n < end && from < (i + 1) * n
  {
    Quotient(from, n, i);
    Quotient(end - 1, n, i);
  }

  lemma Quotient(x: int, n: int, i: int)
    requires 0 <= x && 0 < n
    ensures i <= x / n <==> i * n <= x
    ensures x / n <= i <==> x < (i + 1) * n
  {
    var q := x / n;
    assert q * n <= x < q * n + n;
    Scaled(i, q, n);
    Scaled(q + 1, i, n);
    Scaled(q, i, n);
    Scaled(i + 1, q, n);
  }

  lemma Scaled(a: int, b: int, n: int)
    requires 0 < n
    ensures a <= b ==> a * n <= b * n
    ensures (a + 1) * n == a * n + n
  {
    if a <= b {
      assert 0 <= (b - a) * n;
    }
  }

  method PiecesBetween(from: int, end: int, n: int) returns (pieces: seq<nat>)
    requires 0 <= from < end && 0 < n
    ensures C.NoDuplicates(pieces) && forall i: nat :: i in pieces <==> i * n < end && from < (i + 1) * n
    ensures forall k :: 0 <= k < |pieces| ==> pieces[k] == pieces[0] + k
  {
    var first, last := from / n, (end - 1) / n + 1;
    TouchedPieces(from, end, n, first);
    TouchedPieces(from, end, n, last);
    Quotient(from, n, 0);
    var index := first;
    pieces := [];
    while index < last
      invariant 0 <= first <= index && |pieces| == index - first && (index <= last || index == first)
      invariant forall k :: 0 <= k < |pieces| ==> pieces[k] == first + k
      decreases last - index
    {
      pieces := pieces + [index];
      index := index + 1;
    }
    forall i: nat ensures i in pieces <==> i * n < end && from < (i + 1) * n {
      TouchedPieces(from, end, n, i);
      Between(pieces, first, last, i);
    }
  }

  lemma Between(pieces: seq<nat>, first: int, last: int, i: nat)
    requires 0 <= first && |pieces| == (if first < last then last - first else 0)
    requires forall k :: 0 <= k < |pieces| ==> pieces[k] == first + k
    ensures i in pieces <==> first <= i < last
  {
    if first <= i < last {
      assert pieces[i - first] == i;
    }
  }

  /** A torrent byte that playback may come to: at or after the cursor, in the file, and, where the size of
      the torrent is known, in the torrent. */
  predicate Ahead(a: Anchor, b: int) {
    a.fileStart + a.cursor <= b < a.fileStart + a.fileSize && (a.torrentSize > 0 ==> b < a.torrentSize)
  }

  /** Read-ahead may fetch exactly the bytes ahead within 32 MiB of the cursor. */
  lemma WindowBytesMeans(a: Anchor, b: int)
    ensures WindowBytes(a).0 <= b < WindowBytes(a).1 <==> Ahead(a, b) && b < a.fileStart + a.cursor + 33554432
  {
  }

  /** The bytes ahead that lie in a piece are consecutive, and there are as many as its overlap. */
  lemma OverlapMeans(a: Anchor, i: nat, b: int)
    requires 0 < a.pieceLength
    ensures var first := Max(i * a.pieceLength, a.fileStart + a.cursor);
      && 0 <= Overlap(a, i)
      && (first <= b < first + Overlap(a, i) <==> i * a.pieceLength <= b < (i + 1) * a.pieceLength && Ahead(a, b))
  {
  }
}
