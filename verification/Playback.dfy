/** The playback cursor: merging the spans that reads delivered and advancing over them. */
module Playback {
  import opened Spans

  const PLAYBACK_WINDOW := 33554432  // 32 MiB, also the prefetch high mark
  const SEEK_CLEAR := 67108864       // 64 MiB
  const SEEK_LOCALITY := 8388608     // 8 MiB
  const SEEK_CONFIRMATIONS := 2

  function ClampCursor(cursor: int, size: int): int {
    if cursor < 0 then 0 else if cursor > size then size else cursor
  }

  /** The part of a read of n bytes at off that lies inside the file; (0, 0) when none does. */
  function ClampReadSpan(off: int, n: int, size: int): (r: (int, int))
    ensures r.0 < r.1 <==> n > 0 && size > 0 && off < size && off + n > 0
    ensures r.0 < r.1 ==> r == (Max(off, 0), Min(off + n, size))
    ensures r.0 >= r.1 ==> r == (0, 0)
  {
    if n <= 0 || size <= 0 then (0, 0)
    else
      var start, end := ClampCursor(off, size), ClampCursor(off + n, size);
      if end <= start then (0, 0) else (start, end)
  }

  // --------------------------------------------------------------------- merging

  predicate Before(a: Span, b: Span) {
    a.start < b.start || (a.start == b.start && a.end <= b.end)
  }

  function Place(s: Span, sorted: seq<Span>): seq<Span> {
    if sorted == [] || Before(s, sorted[0]) then [s] + sorted else [sorted[0]] + Place(s, sorted[1..])
  }

  function Sort(spans: seq<Span>): seq<Span> {
    if spans == [] then [] else Place(spans[0], Sort(spans[1..]))
  }

  ghost predicate Ascending(spans: seq<Span>) {
    forall i, j :: 0 <= i < j < |spans| ==> spans[i].start <= spans[j].start
  }

  lemma {:induction false} PlaceSorted(s: Span, sorted: seq<Span>)
    requires Ascending(sorted)
    ensures Ascending(Place(s, sorted))
    ensures forall x :: x in Place(s, sorted) <==> x == s || x in sorted
  {
    if sorted != [] && !Before(s, sorted[0]) {
      PlaceSorted(s, sorted[1..]);
      var rest := Place(s, sorted[1..]);
      assert forall x :: x in sorted <==> x == sorted[0] || x in sorted[1..];
      forall j | 0 <= j < |rest| ensures sorted[0].start <= rest[j].start {
        assert rest[j] in rest;
      }
    }
  }

  lemma {:induction false} SortSorted(spans: seq<Span>)
    ensures Ascending(Sort(spans))
    ensures forall x :: x in Sort(spans) <==> x in spans
  {
    if spans != [] {
      SortSorted(spans[1..]);
      PlaceSorted(spans[0], Sort(spans[1..]));
      assert forall x :: x in spans <==> x == spans[0] || x in spans[1..];
    }
  }

  /** Some span of the list contains b. */
  ghost predicate Under(spans: seq<Span>, b: int) {
    exists x :: x in spans && x.start <= b < x.end
  }

  lemma UnderHas(spans: seq<Span>, b: int)
    ensures Under(spans, b) <==> Has(spans, b)
  {
    if Has(spans, b) {
      var i :| 0 <= i < |spans| && spans[i].start <= b < spans[i].end;
      assert spans[i] in spans;
    }
    if Under(spans, b) {
      var x :| x in spans && x.start <= b < x.end;
      var i :| 0 <= i < |spans| && spans[i] == x;
    }
  }

  /** One turn of the merging loop. */
  function Fuse(merged: seq<Span>, s: Span): seq<Span> {
    if s.end <= s.start then merged
    else if merged == [] || s.start > merged[|merged| - 1].end then merged + [s]
    else if s.end > merged[|merged| - 1].end then
      merged[|merged| - 1 := Span(merged[|merged| - 1].start, s.end)]
    else merged
  }

  lemma FuseSeparated(merged: seq<Span>, s: Span)
    requires Separated(merged)
    requires forall i :: 0 <= i < |merged| ==> merged[i].start <= s.start
    ensures Separated(Fuse(merged, s))
    ensures forall i :: 0 <= i < |Fuse(merged, s)| ==> Fuse(merged, s)[i].start <= s.start
  {
  }

  lemma FuseDenotes(merged: seq<Span>, s: Span, b: int)
    requires Separated(merged)
    requires forall i :: 0 <= i < |merged| ==> merged[i].start <= s.start
    ensures Has(Fuse(merged, s), b) <==> Has(merged, b) || s.start <= b < s.end
  {
    var out := Fuse(merged, s);
    if Has(merged, b) {
      var i :| 0 <= i < |merged| && merged[i].start <= b < merged[i].end;
      assert i < |out| && out[i].start <= b < out[i].end;
    }
    if s.start <= b < s.end {
      var last := |out| - 1;
      assert out[last].start <= b < out[last].end;
    }
    if Has(out, b) && !(s.start <= b < s.end) {
      var i :| 0 <= i < |out| && out[i].start <= b < out[i].end;
      assert i < |merged|;
      assert merged[i].start <= b < merged[i].end;
    }
  }

  /** Sorts the spans together with the new one, fuses what touches, and counts the new bytes. */
  method MergeByteSpan(spans: seq<Span>, added: Span) returns (merged: seq<Span>, gained: int)
    requires Separated(spans)
    ensures Separated(merged)
    ensures forall b :: Has(merged, b) <==> Has(spans, b) || added.start <= b < added.end
    ensures gained == Total(merged) - Total(spans) >= 0
    ensures (gained > 0 <==> exists b :: added.start <= b < added.end && !Has(spans, b))
    ensures merged == if added.start < added.end then Absorb(spans, added.start, added.end, false) else spans
  {
    if added.end <= added.start {
      return spans, 0;
    }
    var all := Sort(spans + [added]);
    SortSorted(spans + [added]);
    merged := [];
    for i := 0 to |all|
      invariant Separated(merged)
      invariant forall j, k :: 0 <= j < |merged| && i <= k < |all| ==> merged[j].start <= all[k].start
      invariant forall b :: Has(merged, b) <==> Has(all[..i], b)
    {
      FuseSeparated(merged, all[i]);
      forall b ensures Has(Fuse(merged, all[i]), b) <==> Has(all[..i + 1], b) {
        FuseDenotes(merged, all[i], b);
        HasSnoc(all, i, b);
      }
      merged := Fuse(merged, all[i]);
    }
    assert all[..|all|] == all;
    forall b ensures Has(merged, b) <==> Has(spans, b) || added.start <= b < added.end {
      UnderHas(all, b);
      UnderHas(spans + [added], b);
      UnderHas(spans, b);
      assert forall x :: x in spans + [added] <==> x in spans || x == added;
    }
    AbsorbExact(spans, added.start, added.end);
    Canonical(merged, Absorb(spans, added.start, added.end, false));
    AbsorbGain(spans, added.start, added.end);
    gained := Total(merged) - Total(spans);
  }

  lemma HasSnoc(all: seq<Span>, i: nat, b: int)
    requires i < |all|
    ensures Has(all[..i + 1], b) <==> Has(all[..i], b) || all[i].start <= b < all[i].end
  {
    if Has(all[..i + 1], b) {
      var j :| 0 <= j < i + 1 && all[..i + 1][j].start <= b < all[..i + 1][j].end;
      if j < i {
        assert all[..i][j] == all[..i + 1][j];
      }
    }
    if Has(all[..i], b) {
      var j :| 0 <= j < i && all[..i][j].start <= b < all[..i][j].end;
      assert all[..i + 1][j] == all[..i][j];
    }
    if all[i].start <= b < all[i].end {
      assert all[..i + 1][i] == all[i];
    }
  }

  // ------------------------------------------------------------------- advancing

  /** Walks the spans in order: the cursor jumps over every span it touches. */
  function Advance(spans: seq<Span>, cursor: int): (int, seq<Span>) {
    if spans == [] then (cursor, [])
    else if spans[0].end <= cursor then Advance(spans[1..], cursor)
    else if spans[0].start <= cursor then Advance(spans[1..], spans[0].end)
    else
      var (c, rest) := Advance(spans[1..], cursor);
      (c, [spans[0]] + rest)
  }

  method AdvanceLoop(spans: seq<Span>, from: int) returns (cursor: int, remaining: seq<Span>)
    ensures cursor == Advance(spans, from).0 && remaining == Advance(spans, from).1
  {
    cursor, remaining := from, [];
    assert spans[0..] == spans;
    for i := 0 to |spans|
      invariant Advance(spans, from).0 == Advance(spans[i..], cursor).0
      invariant Advance(spans, from).1 == remaining + Advance(spans[i..], cursor).1
    {
      var span := spans[i];
      assert spans[i..][1..] == spans[i + 1..];
      if span.end <= cursor {
        continue;
      }
      if span.start <= cursor {
        cursor := span.end;
        continue;
      }
      remaining := remaining + [span];
    }
  }

  lemma {:induction false} AdvanceFar(spans: seq<Span>, cursor: int)
    requires Separated(spans) && After(spans, cursor)
    ensures Advance(spans, cursor) == (cursor, spans)
  {
    if spans != [] {
      Tail(spans);
      AdvanceFar(spans[1..], cursor);
    }
  }

  /** Everything skipped over was denoted, nothing denoted beyond the new cursor is lost, and the
      cursor rests on a position that is not denoted. */
  lemma {:induction false} AdvanceExact(spans: seq<Span>, cursor: int)
    requires Separated(spans)
    ensures var (c, rest) := Advance(spans, cursor);
      && cursor <= c && Separated(rest) && After(rest, c)
      && (forall b :: cursor <= b < c ==> Has(spans, b))
      && (forall b :: c <= b ==> (Has(rest, b) <==> Has(spans, b)))
  {
    if spans != [] {
      Tail(spans);
      var first := spans[0];
      forall b ensures Has(spans, b) <==> first.start <= b < first.end || Has(spans[1..], b) {
        HasFirst(spans, b);
      }
      if first.end <= cursor {
        AdvanceExact(spans[1..], cursor);
      } else if first.start <= cursor {
        AdvanceFar(spans[1..], first.end);
      } else {
        AdvanceFar(spans[1..], cursor);
        assert [first] + spans[1..] == spans;
      }
    }
  }

  // ------------------------------------------------------------------ one anchor

  /** What the coordinator keeps while an anchor is held: the cursor, and delivered spans that the
      cursor has not reached yet. */
  datatype Track = Track(size: int, cursor: int, consumed: seq<Span>)

  /** A successful read of [s, e) inside the file. */
  function Record(t: Track, s: int, e: int): Track {
    var (c, rest) := Advance(Absorb(t.consumed, s, e, false), t.cursor);
    Track(t.size, ClampCursor(c, t.size), rest)
  }

  ghost predicate InFile(log: seq<Span>, size: int) {
    forall x :: x in log ==> 0 <= x.start < x.end <= size
  }

  /** The track is what the anchor start and the log of successful reads determine. */
  ghost predicate Follows(t: Track, start: int, log: seq<Span>) {
    && 0 <= start <= t.cursor <= t.size && InFile(log, t.size)
    && Separated(t.consumed) && After(t.consumed, t.cursor)
    && (forall b :: start <= b < t.cursor ==> Under(log, b))
    && (forall b :: t.cursor <= b ==> (Has(t.consumed, b) <==> Under(log, b)))
  }

  lemma UnderSnoc(log: seq<Span>, x: Span, b: int)
    ensures Under(log + [x], b) <==> Under(log, b) || x.start <= b < x.end
  {
    if Under(log, b) {
      var y :| y in log && y.start <= b < y.end;
      assert y in log + [x];
    }
    if x.start <= b < x.end {
      assert x in log + [x];
    }
  }

  /** Recording a read keeps the track faithful to the log; the cursor never moves back. */
  lemma RecordFollows(t: Track, start: int, log: seq<Span>, s: int, e: int)
    requires Follows(t, start, log) && 0 <= s < e <= t.size
    ensures Follows(Record(t, s, e), start, log + [Span(s, e)])
    ensures Record(t, s, e).cursor >= t.cursor
  {
    var all := Absorb(t.consumed, s, e, false);
    AbsorbExact(t.consumed, s, e);
    var (c, rest) := Advance(all, t.cursor);
    AdvanceExact(all, t.cursor);
    var log' := log + [Span(s, e)];
    forall b ensures Under(log', b) <==> Under(log, b) || s <= b < e {
      UnderSnoc(log, Span(s, e), b);
    }
    assert c > t.size ==> Has(all, t.size) && Under(log', t.size);
  }

  /** The first position at or after `start` that no logged read delivered. */
  ghost predicate FirstGap(start: int, log: seq<Span>, c: int) {
    start <= c && !Under(log, c) && forall b :: start <= b < c ==> Under(log, b)
  }

  lemma FollowsFirstGap(t: Track, start: int, log: seq<Span>)
    requires Follows(t, start, log)
    ensures FirstGap(start, log, t.cursor)
  {
  }

  function Opening(size: int, start: int): Track {
    Track(size, start, [])
  }

  /** The cursor after a whole log of reads, recorded in the order they finished. */
  ghost function Play(size: int, start: int, log: seq<Span>): Track {
    if log == [] then Opening(size, start)
    else
      var last := log[|log| - 1];
      Record(Play(size, start, log[..|log| - 1]), last.start, last.end)
  }

  lemma {:induction false} PlayFollows(size: int, start: int, log: seq<Span>)
    requires 0 <= start <= size && InFile(log, size)
    ensures Follows(Play(size, start, log), start, log) && Play(size, start, log).size == size
  {
    if log != [] {
      var front, last := log[..|log| - 1], log[|log| - 1];
      assert last in log && forall x :: x in front ==> x in log;
      PlayFollows(size, start, front);
      assert log == front + [Span(last.start, last.end)];
      RecordFollows(Play(size, start, front), start, front, last.start, last.end);
    }
  }

  /** Any two logs that delivered the same bytes, in whatever order and however split, leave the
      cursor at the same place: the first byte that is missing. */
  lemma CursorOrderFree(size: int, start: int, a: seq<Span>, b: seq<Span>)
    requires 0 <= start <= size && InFile(a, size) && InFile(b, size)
    requires forall p :: Under(a, p) <==> Under(b, p)
    ensures Play(size, start, a).cursor == Play(size, start, b).cursor
    ensures FirstGap(start, a, Play(size, start, a).cursor)
  {
    PlayFollows(size, start, a);
    PlayFollows(size, start, b);
    var p, q := Play(size, start, a).cursor, Play(size, start, b).cursor;
    FollowsFirstGap(Play(size, start, a), start, a);
    FollowsFirstGap(Play(size, start, b), start, b);
  }
}
