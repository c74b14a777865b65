/** The daily upload window: which limit is in force, and when it changes next. Times are seconds. */
module UploadRate {
  import opened Types

  const MINUTE := 60
  const DAY := 86400
  const LOOKAHEAD := 26 * 3600

  /** A limit, and optionally the half-open window of minutes after midnight in which it applies. */
  datatype Policy = Policy(limit: int, scheduled: bool, startMinute: int, endMinute: int)

  /** A time zone: the offset of local time at each instant. */
  type Zone = int -> int

  function MinuteOfDay(zone: Zone, x: int): int {
    (x + zone(x)) % DAY / MINUTE
  }

  predicate LimitedAt(p: Policy, zone: Zone, x: int) {
    !p.scheduled || p.startMinute <= MinuteOfDay(zone, x) < p.endMinute
  }

  /** The limit applies exactly when some day's window, from the first of its start minute to the first of
      its end minute, holds the local time. */
  lemma LimitedMeans(p: Policy, zone: Zone, x: int)
    requires p.scheduled ==> 0 <= p.startMinute <= p.endMinute <= 1440
    ensures LimitedAt(p, zone, x) <==>
      !p.scheduled || exists day :: day * 86400 + p.startMinute * 60 <= x + zone(x) < day * 86400 + p.endMinute * 60
  {
    var y := x + zone(x);
    if p.scheduled {
      var day := y / DAY;
      assert y == day * 86400 + y % DAY;
      if other :| other * 86400 + p.startMinute * 60 <= y < other * 86400 + p.endMinute * 60 {
        SameDay(y, other);
      }
    }
  }

  lemma SameDay(y: int, day: int)
    requires day * 86400 <= y < (day + 1) * 86400
    ensures y / DAY == day && y % DAY == y - day * 86400
  {
  }

  /** None is unlimited. */
  function EffectiveLimit(p: Policy, zone: Zone, x: int): Option<int> {
    if p.limit <= 0 || !LimitedAt(p, zone, x) then None else Some(p.limit)
  }

  // -------------------------------------------------------------------- settings

  function TwoDigits(n: nat): string
    requires n < 100
  {
    [(('0' as int) + n / 10) as char, (('0' as int) + n % 10) as char]
  }

  function Clock(minute: nat): string
    requires minute < 1440
  {
    TwoDigits(minute / 60) + ":" + TwoDigits(minute % 60)
  }

  predicate IsDigit(c: char) {
    '0' <= c <= '9'
  }

  function ParseClock(raw: string): Option<int> {
    if |raw| != 5 || raw[2] != ':' || !IsDigit(raw[0]) || !IsDigit(raw[1]) || !IsDigit(raw[3]) || !IsDigit(raw[4]) then None
    else
      var hour := (raw[0] as int - '0' as int) * 10 + (raw[1] as int - '0' as int);
      var minute := (raw[3] as int - '0' as int) * 10 + (raw[4] as int - '0' as int);
      if hour > 23 || minute > 59 then None else Some(hour * 60 + minute)
  }

  /** The parser accepts exactly the 1440 canonical times, and reads each back. */
  lemma ClockRoundTrip(raw: string, minute: nat)
    requires minute < 1440
    ensures ParseClock(Clock(minute)) == Some(minute)
    ensures ParseClock(raw) == Some(minute) ==> raw == Clock(minute)
  {
    var c := Clock(minute);
    assert c[0] == TwoDigits(minute / 60)[0] && c[1] == TwoDigits(minute / 60)[1] && c[2] == ':';
    assert c[3] == TwoDigits(minute % 60)[0] && c[4] == TwoDigits(minute % 60)[1];
    if ParseClock(raw) == Some(minute) {
      var h := (raw[0] as int - '0' as int) * 10 + (raw[1] as int - '0' as int);
      var m := (raw[3] as int - '0' as int) * 10 + (raw[4] as int - '0' as int);
      assert h == minute / 60 && m == minute % 60;
      assert raw[0] == c[0] && raw[1] == c[1] && raw[3] == c[3] && raw[4] == c[4];
      assert raw == [raw[0], raw[1], raw[2], raw[3], raw[4]];
    }
  }

  /** Valid settings compile to a nonempty window within one day. */
  function Compile(limit: int, window: Option<(string, string)>): (r: Option<Policy>)
    ensures r.Some? && r.value.scheduled ==> Proper(r.value)
    ensures r.Some? <==> 0 <= limit && (window.Some? ==> 0 < limit && Window(window.value.0, window.value.1))
  {
    if limit < 0 then None
    else if window.None? then Some(Policy(limit, false, 0, 0))
    else
      var (from, to) := window.value;
      var s, e := ParseClock(from), ParseClock(to);
      CompileWindows(from, to);
      if limit <= 0 || s.None? || e.None? || s.value >= e.value then None
      else Some(Policy(limit, true, s.value, e.value))
  }

  /** Two canonical times of one day, the first before the second. */
  ghost predicate Window(from: string, to: string) {
    exists s: nat, e: nat :: s < e < 1440 && from == Clock(s) && to == Clock(e)
  }

  lemma CompileWindows(from: string, to: string)
    ensures (ParseClock(from).Some? && ParseClock(to).Some? && ParseClock(from).value < ParseClock(to).value) <==>
      Window(from, to)
  {
    if ParseClock(from).Some? && ParseClock(to).Some? && ParseClock(from).value < ParseClock(to).value {
      var s, e := ParseClock(from).value, ParseClock(to).value;
      ClockRoundTrip(from, s);
      ClockRoundTrip(to, e);
    }
    if s: nat, e: nat :| s < e < 1440 && from == Clock(s) && to == Clock(e) {
      ClockRoundTrip(from, s);
      ClockRoundTrip(to, e);
    }
  }

  predicate Proper(p: Policy) {
    0 < p.limit && p.scheduled && 0 <= p.startMinute < p.endMinute < 1440
  }

  // ------------------------------------------------------------------- transitions

  function BlockStart(x: int, phase: int): int {
    x - (x - phase) % MINUTE
  }

  /** The state only changes at whole minutes of some phase. */
  ghost predicate ByMinute(p: Policy, zone: Zone, phase: int) {
    forall x :: LimitedAt(p, zone, x) == LimitedAt(p, zone, BlockStart(x, phase))
  }

  /** The offset only changes where local time shows a whole minute, before and after. */
  ghost predicate WholeMinuteZone(zone: Zone, phase: int) {
    forall x :: zone(x) == zone(BlockStart(x, phase)) && (zone(x) + phase) % MINUTE == 0
  }

  /** Nothing changes from t to the end, both included. */
  ghost predicate Steady(p: Policy, zone: Zone, t: int, end: int) {
    forall x :: t <= x <= end ==> LimitedAt(p, zone, x) == LimitedAt(p, zone, t)
  }

  /** The state is the one at t at every whole minute after t, up to the end. */
  ghost predicate ProbesAgree(p: Policy, zone: Zone, t: int, end: int) {
    forall x :: t <= x <= end && (x - t) % MINUTE == 0 ==> LimitedAt(p, zone, x) == LimitedAt(p, zone, t)
  }

  /** The state is the one at t at every second from one place up to another. */
  ghost predicate Agree(p: Policy, zone: Zone, t: int, from: int, to: int) {
    forall x :: from <= x < to ==> LimitedAt(p, zone, x) == LimitedAt(p, zone, t)
  }

  /** The earliest later second whose state differs from the one at t. */
  ghost predicate FirstFlip(p: Policy, zone: Zone, t: int, x: int) {
    t < x && Steady(p, zone, t, x - 1) && LimitedAt(p, zone, x) != LimitedAt(p, zone, t)
  }

  /** The first whole minute after t that is not before x. */
  function ProbeFrom(t: int, x: int): int {
    t + (x - t + MINUTE - 1) / MINUTE * MINUTE
  }

  /** If there is a first flip within the lookahead, it has not been undone at the next whole minute
      counted from t. */
  ghost predicate FlipLasts(p: Policy, zone: Zone, t: int) {
    forall x :: FirstFlip(p, zone, t, x) && x <= t + LOOKAHEAD ==>
      LimitedAt(p, zone, ProbeFrom(t, x)) != LimitedAt(p, zone, t)
  }

  /** What the search is for: the first flip, or the end of the lookahead when there is none in it. */
  ghost predicate Exact(p: Policy, zone: Zone, t: int, next: int) {
    FirstFlip(p, zone, t, next) || (next == t + LOOKAHEAD && Steady(p, zone, t, next))
  }

  /** What the search finds: the first second that differs after the last of the minute probes that
      agree, or the end of the lookahead when all agree. */
  ghost predicate Found(p: Policy, zone: Zone, t: int, next: int) {
    if ProbesAgree(p, zone, t, t + LOOKAHEAD) then next == t + LOOKAHEAD
    else
      var probe := ProbeFrom(t, next);
      && t < next && ProbesAgree(p, zone, t, probe - MINUTE) && LimitedAt(p, zone, probe) != LimitedAt(p, zone, t)
      && Agree(p, zone, t, probe - MINUTE, next) && LimitedAt(p, zone, next) != LimitedAt(p, zone, t)
  }

  lemma {:induction false} Earliest(p: Policy, zone: Zone, t: int, x: int) returns (first: int)
    requires t < x && LimitedAt(p, zone, x) != LimitedAt(p, zone, t)
    ensures first <= x && FirstFlip(p, zone, t, first)
    decreases x - t
  {
    if y :| t < y < x && LimitedAt(p, zone, y) != LimitedAt(p, zone, t) {
      first := Earliest(p, zone, t, y);
    } else {
      first := x;
    }
  }

  lemma ProbePlace(t: int, x: int)
    ensures x <= ProbeFrom(t, x) < x + MINUTE && (ProbeFrom(t, x) - t) % MINUTE == 0
    ensures x <= t + LOOKAHEAD ==> ProbeFrom(t, x) <= t + LOOKAHEAD
  {
  }

  lemma ProbeApart(t: int, a: int, b: int)
    requires (a - t) % MINUTE == 0 && (b - t) % MINUTE == 0 && a < b
    ensures a + MINUTE <= b
  {
  }

  /** The search is exact if and only if the first flip lasts until it is probed. */
  lemma ExactIffLasts(p: Policy, zone: Zone, t: int, next: int)
    requires Found(p, zone, t, next) && next <= t + LOOKAHEAD
    ensures Exact(p, zone, t, next) <==> FlipLasts(p, zone, t)
  {
    if FlipLasts(p, zone, t) && !Exact(p, zone, t, next) {
      var y := EarlierFlip(p, zone, t, next);
      var x := Earliest(p, zone, t, y);
      MissedFlip(p, zone, t, next, x);
    }
  }

  /** An inexact answer has a differing second before it. */
  lemma EarlierFlip(p: Policy, zone: Zone, t: int, next: int) returns (y: int)
    requires Found(p, zone, t, next) && next <= t + LOOKAHEAD && !Exact(p, zone, t, next)
    ensures t < y < next && LimitedAt(p, zone, y) != LimitedAt(p, zone, t)
  {
    y :| t < y < next && LimitedAt(p, zone, y) != LimitedAt(p, zone, t);
  }

  /** A flip before the answer was undone when it was probed. */
  lemma MissedFlip(p: Policy, zone: Zone, t: int, next: int, x: int)
    requires Found(p, zone, t, next) && next <= t + LOOKAHEAD && t < x < next && LimitedAt(p, zone, x) != LimitedAt(p, zone, t)
    ensures LimitedAt(p, zone, ProbeFrom(t, x)) == LimitedAt(p, zone, t)
  {
    ProbePlace(t, x);
    ProbePlace(t, next);
    if !ProbesAgree(p, zone, t, t + LOOKAHEAD) && ProbeFrom(t, x) > ProbeFrom(t, next) - MINUTE {
      ProbeApart(t, ProbeFrom(t, next) - MINUTE, ProbeFrom(t, x));
    }
  }

  lemma SameBlock(x: int, y: int, phase: int)
    requires BlockStart(x, phase) <= y < BlockStart(x, phase) + MINUTE
    ensures BlockStart(y, phase) == BlockStart(x, phase)
  {
    var b := BlockStart(x, phase);
    assert (b - phase) % MINUTE == 0;
  }

  /** Where the state changes at whole minutes, of whatever phase, every flip lasts. */
  lemma ByMinuteLasts(p: Policy, zone: Zone, phase: int, t: int)
    requires ByMinute(p, zone, phase)
    ensures FlipLasts(p, zone, t)
  {
    forall x | FirstFlip(p, zone, t, x) ensures LimitedAt(p, zone, ProbeFrom(t, x)) == LimitedAt(p, zone, x) {
      assert LimitedAt(p, zone, x - 1) == LimitedAt(p, zone, t);
      if BlockStart(x, phase) < x {
        SameBlock(x, x - 1, phase);
      }
      ProbePlace(t, x);
      SameBlock(x, ProbeFrom(t, x), phase);
    }
  }

  /** Searches for the earliest later second that differs. It finds it, or knows that there is none in the
      lookahead, if and only if the first flip lasts until it is probed. */
  method NextTransition(p: Policy, zone: Zone, t: int) returns (next: Option<int>)
    ensures next.None? <==> !p.scheduled
    ensures next.Some? ==> t < next.value <= t + LOOKAHEAD && Found(p, zone, t, next.value)
    ensures next.Some? ==> (Exact(p, zone, t, next.value) <==> FlipLasts(p, zone, t))
  {
    if !p.scheduled {
      return None;
    }
    var want := LimitedAt(p, zone, t);
    var previous := t;
    var probe := t + MINUTE;
    while probe - t <= LOOKAHEAD
      invariant probe == previous + MINUTE && t <= previous <= t + LOOKAHEAD && (previous - t) % MINUTE == 0
      invariant LimitedAt(p, zone, previous) == want && ProbesAgree(p, zone, t, previous)
      decreases t + LOOKAHEAD - previous
    {
      if LimitedAt(p, zone, probe) == want {
        OneMoreProbe(p, zone, t, previous);
        previous := probe;
        probe := probe + MINUTE;
        continue;
      }
      var found := ScanSeconds(p, zone, t, previous, probe);
      FoundFlip(p, zone, t, previous, found);
      return Some(found);
    }
    FoundNone(p, zone, t, previous);
    return Some(t + LOOKAHEAD);
  }

  lemma FoundFlip(p: Policy, zone: Zone, t: int, previous: int, found: int)
    requires t <= previous && (previous - t) % MINUTE == 0 && ProbesAgree(p, zone, t, previous)
    requires previous < found <= previous + MINUTE <= t + LOOKAHEAD && Agree(p, zone, t, previous, found)
    requires LimitedAt(p, zone, previous + MINUTE) != LimitedAt(p, zone, t) && LimitedAt(p, zone, found) != LimitedAt(p, zone, t)
    ensures Found(p, zone, t, found) && (Exact(p, zone, t, found) <==> FlipLasts(p, zone, t))
  {
    SameProbe(t, previous, found);
    assert (previous + MINUTE - t) % MINUTE == 0;
    ExactIffLasts(p, zone, t, found);
  }

  lemma FoundNone(p: Policy, zone: Zone, t: int, previous: int)
    requires previous <= t + LOOKAHEAD < previous + MINUTE && (previous - t) % MINUTE == 0 && ProbesAgree(p, zone, t, previous)
    ensures previous == t + LOOKAHEAD && Found(p, zone, t, t + LOOKAHEAD)
    ensures Exact(p, zone, t, t + LOOKAHEAD) <==> FlipLasts(p, zone, t)
  {
    ExactIffLasts(p, zone, t, t + LOOKAHEAD);
  }

  lemma OneMoreProbe(p: Policy, zone: Zone, t: int, previous: int)
    requires ProbesAgree(p, zone, t, previous) && (previous - t) % MINUTE == 0
    requires LimitedAt(p, zone, previous + MINUTE) == LimitedAt(p, zone, t)
    ensures ProbesAgree(p, zone, t, previous + MINUTE)
  {
    forall x | previous < x <= previous + MINUTE && (x - t) % MINUTE == 0
      ensures LimitedAt(p, zone, x) == LimitedAt(p, zone, t)
    {
      ProbeApart(t, previous, x);
    }
  }

  lemma SameProbe(t: int, previous: int, x: int)
    requires (previous - t) % MINUTE == 0 && previous < x <= previous + MINUTE
    ensures ProbeFrom(t, x) == previous + MINUTE
  {
  }

  /** The first changed second after `previous`, at the latest `probe`. */
  method ScanSeconds(p: Policy, zone: Zone, t: int, previous: int, probe: int) returns (found: int)
    requires t <= previous < probe && LimitedAt(p, zone, probe) != LimitedAt(p, zone, t)
    requires LimitedAt(p, zone, previous) == LimitedAt(p, zone, t)
    ensures previous < found <= probe && LimitedAt(p, zone, found) != LimitedAt(p, zone, t)
    ensures Agree(p, zone, t, previous, found)
  {
    found := previous + 1;
    while found < probe && LimitedAt(p, zone, found) == LimitedAt(p, zone, t)
      invariant previous < found <= probe && Agree(p, zone, t, previous, found)
    {
      found := found + 1;
    }
  }

  ghost predicate InForce(p: Policy, zone: Zone, from: int, to: int, limit: Option<int>) {
    forall x :: from <= x < to ==> EffectiveLimit(p, zone, x) == limit
  }

  /** Until the transition that was found the limit in force is the one applied now, so one timer is
      enough, exactly when the transition is the right one or nothing is limited at all. */
  lemma LimitHolds(p: Policy, zone: Zone, t: int, next: int)
    requires Found(p, zone, t, next) && t < next
    ensures InForce(p, zone, t, next, EffectiveLimit(p, zone, t)) <==> p.limit <= 0 || Exact(p, zone, t, next)
  {
    if p.limit > 0 {
      assert InForce(p, zone, t, next, EffectiveLimit(p, zone, t)) ==> Steady(p, zone, t, next - 1) by {
        assert forall x :: t <= x < next && EffectiveLimit(p, zone, x) == EffectiveLimit(p, zone, t) ==>
          LimitedAt(p, zone, x) == LimitedAt(p, zone, t);
      }
    }
  }

  /** Owns the limiter and keeps it in step with the window. */
  class Controller {
    var policy: Policy
    var limit: Option<int>

    method Apply(zone: Zone, when: int)
      modifies this`limit
      ensures limit == EffectiveLimit(policy, zone, when)
    {
      var next := EffectiveLimit(policy, zone, when);
      if next != limit {
        limit := next;
      }
    }

    method SetPolicy(p: Policy, zone: Zone, when: int)
      modifies this
      ensures policy == p && limit == EffectiveLimit(p, zone, when)
    {
      policy := p;
      Apply(zone, when);
    }

    /** One round of the runner, from a single reading of the clock. The limiter is right from that
        reading until the boundary the runner then waits for, if and only if the next flip lasts until it
        is probed or nothing is limited; without a schedule, for ever. */
    method Round(zone: Zone, now: int) returns (next: Option<int>)
      modifies this`limit
      ensures next.None? ==> forall x :: EffectiveLimit(policy, zone, x) == limit
      ensures next.Some? ==> now < next.value && (InForce(policy, zone, now, next.value, limit) <==>
        policy.limit <= 0 || FlipLasts(policy, zone, now))
    {
      Apply(zone, now);
      next := NextTransition(policy, zone, now);
      if next.Some? {
        LimitHolds(policy, zone, now, next.value);
      }
    }
  }

  // ---------------------------------------------------------------- constant offset

  function Constant(offset: int): Zone {
    x => offset
  }

  lemma WholeMinutes(y: int)
    ensures (y - y % MINUTE) % DAY / MINUTE == y % DAY / MINUTE
  {
    var q, d := y / DAY, y % DAY;
    var r := d % MINUTE;
    assert y == q * DAY + d;
    assert y % MINUTE == r;
    assert (y - r) % DAY == d - r;
    assert d - r == d / MINUTE * MINUTE;
  }

  lemma SameMinute(x: int, z: int, phase: int)
    requires (z + phase) % MINUTE == 0
    ensures (BlockStart(x, phase) + z) % DAY / MINUTE == (x + z) % DAY / MINUTE
  {
    WholeMinutes(x + z);
    SameSecond(x + z, x - phase);
  }

  lemma SameSecond(a: int, b: int)
    requires (a - b) % MINUTE == 0
    ensures a % MINUTE == b % MINUTE
  {
    var q := (a - b) / MINUTE;
    assert a == b + q * MINUTE;
  }

  /** Where offsets change at whole minutes of local time, so does the state. */
  lemma WholeMinuteStates(p: Policy, zone: Zone, phase: int)
    requires WholeMinuteZone(zone, phase)
    ensures ByMinute(p, zone, phase)
  {
    forall x ensures LimitedAt(p, zone, x) == LimitedAt(p, zone, BlockStart(x, phase)) {
      var z := zone(x);
      assert zone(BlockStart(x, phase)) == z && (z + phase) % MINUTE == 0;
      SameMinute(x, z, phase);
    }
  }

  lemma ConstantLasts(p: Policy, offset: int, t: int)
    ensures FlipLasts(p, Constant(offset), t)
  {
    WholeMinuteStates(p, Constant(offset), -offset);
    ByMinuteLasts(p, Constant(offset), -offset, t);
  }

  lemma SecondsAhead(y: int, d: int)
    requires 0 <= d && y % DAY + d < DAY
    ensures (y + d) % DAY == y % DAY + d
  {
    assert y + d == (y / DAY) * DAY + (y % DAY + d);
  }

  lemma NextMidnight(y: int, m: int)
    requires 0 <= m < DAY
    ensures (y + (DAY - y % DAY) + m) % DAY == m
  {
    assert y + (DAY - y % DAY) + m == (y / DAY + 1) * DAY + m;
  }

  /** In a constant-offset zone a proper window flips within a day, from any instant. */
  lemma FlipsDaily(p: Policy, offset: int, t: int) returns (x: int)
    requires Proper(p)
    ensures t < x <= t + DAY && LimitedAt(p, Constant(offset), x) != LimitedAt(p, Constant(offset), t)
  {
    var y := t + offset;
    var d := y % DAY;
    if LimitedAt(p, Constant(offset), t) {
      x := t + (p.endMinute * MINUTE - d);
      SecondsAhead(y, p.endMinute * MINUTE - d);
    } else if d < p.startMinute * MINUTE {
      x := t + (p.startMinute * MINUTE - d);
      SecondsAhead(y, p.startMinute * MINUTE - d);
    } else {
      x := t + (DAY - d) + p.startMinute * MINUTE;
      NextMidnight(y, p.startMinute * MINUTE);
    }
  }

  /** In a constant-offset zone the result is the earliest later second whose state differs, at most a
      day ahead: the minute probe never steps over a flip. */
  method NextTransitionConstant(p: Policy, offset: int, t: int) returns (next: int)
    requires Proper(p)
    ensures t < next <= t + DAY
    ensures LimitedAt(p, Constant(offset), next) != LimitedAt(p, Constant(offset), t)
    ensures forall x :: t <= x < next ==> LimitedAt(p, Constant(offset), x) == LimitedAt(p, Constant(offset), t)
  {
    ConstantLasts(p, offset, t);
    ghost var flip := FlipsDaily(p, offset, t);
    var found := NextTransition(p, Constant(offset), t);
    next := found.value;
  }

  // ---------------------------------------------------------------- daylight saving

  /** Clocks go forward from 02:00 to 03:00 on the second day. */
  function SpringForward(): Zone {
    x => if x < DAY + 2 * 3600 then 0 else 3600
  }

  /** A window inside the skipped hour: from 03:00 on the day before, nothing changes for more than
      26 hours, so the lookahead ends without a flip. */
  lemma SkippedWindowDoesNotFlip()
    ensures var p := Policy(1, true, 120, 180);
      Proper(p) && Steady(p, SpringForward(), 3 * 3600, 3 * 3600 + LOOKAHEAD)
  {
    var p := Policy(1, true, 120, 180);
    var zone := SpringForward();
    forall x | 3 * 3600 <= x <= 3 * 3600 + LOOKAHEAD ensures !LimitedAt(p, zone, x) {
      var y := x + zone(x);
      if x < DAY {
        assert y % DAY == x;
      } else {
        assert y % DAY == y - DAY;
      }
    }
  }

  /** Clocks go forward by 28 seconds at half a minute past 04:00. */
  function Nudged(): Zone {
    x => if x < 4 * 3600 + 30 then 0 else 28
  }

  /** A one-minute window from 04:00 is cut to 32 seconds, and the probes from 03:58:59 step over it: the
      flip at 04:00 does not last until it is probed. */
  lemma ShortenedWindowIsSteppedOver()
    ensures var p, t := Policy(1, true, 240, 241), 4 * 3600 - 61;
      && Proper(p) && FirstFlip(p, Nudged(), t, 4 * 3600) && !FlipLasts(p, Nudged(), t)
  {
    var p, t := Policy(1, true, 240, 241), 4 * 3600 - 61;
    forall x | t <= x < 4 * 3600 ensures !LimitedAt(p, Nudged(), x) {
      assert (x + Nudged()(x)) % DAY == x;
    }
    assert FirstFlip(p, Nudged(), t, 4 * 3600);
    assert ProbeFrom(t, 4 * 3600) == 4 * 3600 + 59;
  }
}
