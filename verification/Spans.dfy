/** Half-open byte spans: sorted, separated lists that denote a set of positions. */
module Spans {
  import opened Sums

  datatype Span = Span(start: int, end: int)

  /** Position b is denoted by the list. */
  ghost predicate Has(spans: seq<Span>, b: int) {
    exists i :: 0 <= i < |spans| && spans[i].start <= b < spans[i].end
  }

  /** Nonempty, increasing, and never adjacent. */
  ghost predicate Separated(spans: seq<Span>) {
    && (forall i :: 0 <= i < |spans| ==> spans[i].start < spans[i].end)
    && (forall i, j :: 0 <= i < j < |spans| ==> spans[i].end < spans[j].start)
  }

  lemma HasFirst(spans: seq<Span>, b: int)
    requires spans != []
    ensures Has(spans, b) <==> spans[0].start <= b < spans[0].end || Has(spans[1..], b)
  {
    if Has(spans, b) {
      var i :| 0 <= i < |spans| && spans[i].start <= b < spans[i].end;
      if i > 0 {
        assert spans[1..][i - 1] == spans[i];
      }
    }
    if Has(spans[1..], b) {
      var i :| 0 <= i < |spans[1..]| && spans[1..][i].start <= b < spans[1..][i].end;
      assert spans[i + 1] == spans[1..][i];
    }
  }

  /** Everything in the list starts after `lo`. */
  ghost predicate After(spans: seq<Span>, lo: int) {
    forall i :: 0 <= i < |spans| ==> lo < spans[i].start
  }

  lemma Cons(s: Span, rest: seq<Span>)
    requires s.start < s.end && Separated(rest) && After(rest, s.end)
    ensures Separated([s] + rest) && ([s] + rest)[1..] == rest
  {
    assert forall i :: 0 < i < |[s] + rest| ==> ([s] + rest)[i] == rest[i - 1];
  }

  lemma Tail(spans: seq<Span>)
    requires spans != [] && Separated(spans)
    ensures Separated(spans[1..]) && After(spans[1..], spans[0].end)
    ensures spans[0].start < spans[0].end && spans == [spans[0]] + spans[1..]
  {
  }

  /** Merging [start, end) into a list: spans before it stay, spans after it stay, and every span
      that touches it is absorbed. */
  function Absorb(rest: seq<Span>, start: int, end: int, placed: bool): seq<Span> {
    if rest == [] then
      if placed then [] else [Span(start, end)]
    else if rest[0].end < start then
      [rest[0]] + Absorb(rest[1..], start, end, placed)
    else if end < rest[0].start then
      (if placed then [] else [Span(start, end)]) + [rest[0]] + Absorb(rest[1..], start, end, true)
    else
      Absorb(rest[1..], Min(rest[0].start, start), Max(rest[0].end, end), placed)
  }

  function Min(a: int, b: int): int {
    if a < b then a else b
  }

  function Max(a: int, b: int): int {
    if a > b then a else b
  }

  lemma {:induction false} AbsorbPlaced(rest: seq<Span>, start: int, end: int)
    requires Separated(rest) && start < end && After(rest, end)
    ensures Absorb(rest, start, end, true) == rest
  {
    if rest != [] {
      Tail(rest);
      AbsorbPlaced(rest[1..], start, end);
    }
  }

  lemma AbsorbFirst(rest: seq<Span>, start: int, end: int)
    requires rest != [] && Separated(rest) && start < end
    ensures Separated(rest[1..])
    ensures rest[0].end < start ==>
      Absorb(rest, start, end, false) == [rest[0]] + Absorb(rest[1..], start, end, false)
    ensures end < rest[0].start ==> Absorb(rest, start, end, false) == [Span(start, end)] + rest
    ensures rest[0].start <= end && start <= rest[0].end ==>
      Absorb(rest, start, end, false) == Absorb(rest[1..], Min(rest[0].start, start), Max(rest[0].end, end), false)
  {
    Tail(rest);
    if end < rest[0].start {
      AbsorbPlaced(rest[1..], start, end);
    }
  }

  /** `lo` is a position before everything that is still to be emitted. */
  lemma {:induction false} AbsorbSeparated(rest: seq<Span>, start: int, end: int, lo: int, out: seq<Span>)
    requires Separated(rest) && start < end && lo < start && After(rest, lo)
    requires out == Absorb(rest, start, end, false)
    ensures Separated(out) && After(out, lo)
    decreases |rest|, 1
  {
    if rest != [] {
      AbsorbFirst(rest, start, end);
      if rest[0].end < start {
        SeparatedBefore(rest, start, end, lo, out);
      } else if end < rest[0].start {
        Cons(Span(start, end), rest);
      } else {
        AbsorbSeparated(rest[1..], Min(rest[0].start, start), Max(rest[0].end, end), lo, out);
      }
    }
  }

  lemma {:induction false} SeparatedBefore(rest: seq<Span>, start: int, end: int, lo: int, out: seq<Span>)
    requires Separated(rest) && start < end && lo < start && After(rest, lo)
    requires rest != [] && rest[0].end < start
    requires out == [rest[0]] + Absorb(rest[1..], start, end, false)
    ensures Separated(out) && After(out, lo)
    decreases |rest|, 0
  {
    Tail(rest);
    var more := Absorb(rest[1..], start, end, false);
    AbsorbSeparated(rest[1..], start, end, rest[0].end, more);
    Cons(rest[0], more);
  }

  lemma HasCons(s: Span, rest: seq<Span>, b: int)
    ensures Has([s] + rest, b) <==> s.start <= b < s.end || Has(rest, b)
  {
    HasFirst([s] + rest, b);
    assert ([s] + rest)[1..] == rest;
  }

  lemma {:induction false} AbsorbDenotes(rest: seq<Span>, start: int, end: int, out: seq<Span>, b: int)
    requires Separated(rest) && start < end
    requires out == Absorb(rest, start, end, false)
    ensures Has(out, b) <==> Has(rest, b) || start <= b < end
    decreases |rest|
  {
    if rest == [] {
      HasCons(Span(start, end), [], b);
      assert out == [Span(start, end)] + [];
    } else {
      AbsorbFirst(rest, start, end);
      HasFirst(rest, b);
      if rest[0].end < start {
        var more := Absorb(rest[1..], start, end, false);
        AbsorbDenotes(rest[1..], start, end, more, b);
        HasCons(rest[0], more, b);
      } else if end < rest[0].start {
        HasCons(Span(start, end), rest, b);
      } else {
        AbsorbDenotes(rest[1..], Min(rest[0].start, start), Max(rest[0].end, end), out, b);
      }
    }
  }

  /** Recording a span keeps the list canonical and adds exactly that span. */
  lemma AbsorbExact(spans: seq<Span>, start: int, end: int)
    requires Separated(spans) && start < end
    ensures Separated(Absorb(spans, start, end, false))
    ensures forall b :: Has(Absorb(spans, start, end, false), b) <==> Has(spans, b) || start <= b < end
  {
    var lo := if spans == [] then start - 1 else Min(start, spans[0].start) - 1;
    var out := Absorb(spans, start, end, false);
    AbsorbSeparated(spans, start, end, lo, out);
    forall b ensures Has(Absorb(spans, start, end, false), b) <==> Has(spans, b) || start <= b < end {
      AbsorbDenotes(spans, start, end, out, b);
    }
  }

  /** One span of the list contains the whole window. */
  predicate Covers(spans: seq<Span>, start: int, end: int) {
    exists i :: 0 <= i < |spans| && spans[i].start <= start && end <= spans[i].end
  }

  lemma CoversPart(spans: seq<Span>, length: int, start: int, end: int)
    requires 0 <= start <= end <= length
    ensures Covers(spans, 0, length) ==> Covers(spans, start, end)
  {
    if Covers(spans, 0, length) {
      var i :| 0 <= i < |spans| && spans[i].start <= 0 && length <= spans[i].end;
    }
  }

  /** In a canonical list the single-span test decides exactly whether every byte is there. */
  lemma CoversExact(spans: seq<Span>, start: int, end: int)
    requires Separated(spans) && start < end
    ensures Covers(spans, start, end) <==> forall b :: start <= b < end ==> Has(spans, b)
  {
    if forall b :: start <= b < end ==> Has(spans, b) {
      assert Has(spans, start);
      var i :| 0 <= i < |spans| && spans[i].start <= start < spans[i].end;
      if spans[i].end < end {
        assert Has(spans, spans[i].end);
        var j :| 0 <= j < |spans| && spans[j].start <= spans[i].end < spans[j].end;
        assert i < j || j < i;
      }
    }
  }

  /** The loop over the recorded ranges that does the merge. */
  method Cover(received: seq<Span>, start0: int, end0: int) returns (merged: seq<Span>)
    requires Separated(received)
    ensures start0 >= end0 ==> merged == received
    ensures start0 < end0 ==> merged == Absorb(received, start0, end0, false)
    ensures Separated(merged)
    ensures forall b :: Has(merged, b) <==> Has(received, b) || start0 <= b < end0
  {
    if start0 >= end0 {
      return received;
    }
    AbsorbExact(received, start0, end0);
    var start, end := start0, end0;
    merged := [];
    var placed := false;
    for i := 0 to |received|
      invariant merged + Absorb(received[i..], start, end, placed) == Absorb(received, start0, end0, false)
    {
      var span := received[i];
      assert received[i..][1..] == received[i + 1..];
      if span.end < start {
        merged := merged + [span];
      } else if end < span.start {
        if !placed {
          merged := merged + [Span(start, end)];
          placed := true;
        }
        merged := merged + [span];
      } else {
        if span.start < start {
          start := span.start;
        }
        if span.end > end {
          end := span.end;
        }
      }
    }
    if !placed {
      merged := merged + [Span(start, end)];
    }
  }

  // ------------------------------------------------------- canonical form and size

  /** Two canonical lists that denote the same positions are the same list. */
  lemma {:induction false} Canonical(a: seq<Span>, c: seq<Span>)
    requires Separated(a) && Separated(c) && (forall b :: Has(a, b) <==> Has(c, b))
    ensures a == c
    decreases |a|
  {
    if a == [] || c == [] {
      EmptyCanonical(a, c);
      EmptyCanonical(c, a);
    } else {
      FirstSpan(a, c);
      FirstSpan(c, a);
      Tail(a);
      Tail(c);
      forall b ensures Has(a[1..], b) <==> Has(c[1..], b) {
        HasFirst(a, b);
        HasFirst(c, b);
        if b <= a[0].end {
          TailMisses(a, b);
          TailMisses(c, b);
        }
      }
      Canonical(a[1..], c[1..]);
    }
  }

  lemma EmptyCanonical(a: seq<Span>, c: seq<Span>)
    requires Separated(c) && (forall b :: Has(a, b) <==> Has(c, b))
    ensures a == [] ==> c == []
  {
    if c != [] {
      assert Has(c, c[0].start);
    }
  }

  lemma TailMisses(a: seq<Span>, b: int)
    requires a != [] && Separated(a) && b <= a[0].end
    ensures !Has(a[1..], b)
  {
    Tail(a);
  }

  /** The first span of one list lies inside the first span of the other. */
  lemma FirstSpan(a: seq<Span>, c: seq<Span>)
    requires a != [] && c != [] && Separated(a) && Separated(c) && (forall b :: Has(a, b) <==> Has(c, b))
    ensures c[0].start <= a[0].start && a[0].end <= c[0].end
  {
    assert Has(a, a[0].start) && Has(c, c[0].start);
    HasFirst(a, c[0].start);
    HasFirst(c, a[0].start);
    if a[0].end > c[0].end {
      assert Has(a, c[0].end);
      HasFirst(c, c[0].end);
      TailMisses(c, c[0].end);
    }
  }

  /** Number of positions in the list. */
  function Total(spans: seq<Span>): int {
    if spans == [] then 0
    else (if spans[0].end > spans[0].start then spans[0].end - spans[0].start else 0) + Total(spans[1..])
  }

  ghost function Range(start: int, end: int): set<int>
    decreases end - start
  {
    if start < end then Range(start, end - 1) + {end - 1} else {}
  }

  lemma {:induction false} RangeExact(start: int, end: int)
    requires start <= end
    ensures (forall b :: b in Range(start, end) <==> start <= b < end) && |Range(start, end)| == end - start
    decreases end - start
  {
    if start < end {
      RangeExact(start, end - 1);
    }
  }

  ghost function Points(spans: seq<Span>): set<int> {
    if spans == [] then {} else Range(spans[0].start, spans[0].end) + Points(spans[1..])
  }

  lemma {:induction false} PointsExact(spans: seq<Span>)
    requires Separated(spans)
    ensures (forall b :: b in Points(spans) <==> Has(spans, b)) && |Points(spans)| == Total(spans)
  {
    if spans != [] {
      Tail(spans);
      PointsExact(spans[1..]);
      RangeExact(spans[0].start, spans[0].end);
      forall b ensures b in Points(spans) <==> Has(spans, b) {
        HasFirst(spans, b);
      }
      forall b | b in Range(spans[0].start, spans[0].end) ensures b !in Points(spans[1..]) {
        TailMisses(spans, b);
      }
      DisjointSize(Range(spans[0].start, spans[0].end), Points(spans[1..]));
    }
  }

  /** The size grows exactly when some position of the recorded span was missing. */
  lemma AbsorbGain(spans: seq<Span>, start: int, end: int)
    requires Separated(spans) && start < end
    ensures Total(Absorb(spans, start, end, false)) >= Total(spans)
    ensures Total(Absorb(spans, start, end, false)) > Total(spans)
       <==> exists b :: start <= b < end && !Has(spans, b)
  {
    var out := Absorb(spans, start, end, false);
    AbsorbExact(spans, start, end);
    PointsExact(spans);
    PointsExact(out);
    forall b | b in Points(spans) ensures b in Points(out) {
      assert Has(spans, b);
    }
    SubsetSize(Points(spans), Points(out));
    if Total(out) == Total(spans) {
      forall b | start <= b < end ensures Has(spans, b) {
        assert b in Points(out);
      }
    }
    if forall b :: start <= b < end ==> Has(spans, b) {
      forall b | b in Points(out) ensures b in Points(spans) {
        assert Has(out, b);
      }
      SubsetSize(Points(out), Points(spans));
    }
  }
}
