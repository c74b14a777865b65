/** What a coordinator knows of playback: the anchor and its cursor, the seek candidate, and what each
    read in flight means for them. Nothing here depends on the cache or the budget. */
module PlayerModel {
  import opened Types
  import opened Spans
  import opened Playback
  import opened PrefetchModel

  datatype Anchor = Anchor(file: File, fileStart: int, fileSize: int, pieceLength: int, torrentSize: int, cursor: int)

  /** Reads away from the playback window that may turn out to be a seek. */
  datatype Candidate = Candidate(
    id: nat, generation: nat, file: File, start: int, spans: seq<Span>,
    successfulTickets: set<nat>, uniqueBytes: int, successfulReadings: int)

  /** What a read in flight means for playback. */
  datatype Tag = Tag(generation: nat, file: File, kind: Kind, candidate: nat)

  datatype Player = Player(
    closed: bool, hasAnchor: bool, confirmed: bool, anchor: Anchor, generation: nat, nextTicket: nat, nextCandidate: nat,
    consumed: seq<Span>, candidate: Option<Candidate>, tags: map<nat, Tag>,
    start: int,           // where the current anchor began
    log: seq<Span>,       // successful reads since then
    sightings: seq<Span>) // successful reads of the current candidate

  // ------------------------------------------------------------------- operations

  function Abs(x: int): int {
    if x < 0 then -x else x
  }

  function WindowEnd(start: int, fileSize: int): int {
    var from := if start < 0 then 0 else start;
    if from >= fileSize || from + PLAYBACK_WINDOW > fileSize then fileSize else from + PLAYBACK_WINDOW
  }

  function AnchorAt(f: File, cursor: int): Anchor {
    Anchor(f, f.offset, f.size, f.pieceLength, f.torrentSize, cursor)
  }

  predicate InWindow(a: Anchor, f: File, requestStart: int) {
    && a.file == f && a.fileStart == f.offset && a.fileSize == f.size
    && (if a.cursor - SEEK_LOCALITY < 0 then 0 else a.cursor - SEEK_LOCALITY) <= requestStart
    && requestStart < WindowEnd(a.cursor, a.fileSize)
  }

  predicate NearCandidate(candidate: Option<Candidate>, generation: nat, f: File, requestStart: int) {
    && candidate.Some? && candidate.value.file == f && candidate.value.generation == generation
    && Abs(requestStart - candidate.value.start) <= SEEK_LOCALITY
  }

  /** A candidate that the cursor has left far behind is forgotten. */
  function Nearby(candidate: Option<Candidate>, cursor: int): Option<Candidate> {
    if candidate.Some? && Abs(cursor - candidate.value.start) > SEEK_CLEAR then None else candidate
  }

  /** A read begins: it sets the anchor, belongs to the window, belongs to the candidate, or opens a new
      candidate. */
  function Classified(p: Player, f: File, requestStart: int): (Player, Kind, nat) {
    if !p.hasAnchor then
      (p.(generation := p.generation + 1, hasAnchor := true, confirmed := false, anchor := AnchorAt(f, requestStart),
          consumed := [], candidate := None, start := requestStart, log := []), CurrentWindow, 0)
    else if InWindow(p.anchor, f, requestStart) then (p, CurrentWindow, 0)
    else if NearCandidate(p.candidate, p.generation, f, requestStart) then (p, CandidateRead, p.candidate.value.id)
    else
      var id := p.nextCandidate + 1;
      (p.(nextCandidate := id, candidate := Some(Candidate(id, p.generation, f, requestStart, [], {}, 0, 0)), sightings := []),
       ForegroundOnly, id)
  }

  function Begun(p: Player, f: File, requestStart: int, requestEnd: int): Player {
    if requestStart >= requestEnd || p.closed then p
    else
      var (q, kind, candidate) := Classified(p, f, requestStart);
      var id := q.nextTicket + 1;
      q.(nextTicket := id, tags := q.tags[id := Tag(q.generation, f, kind, candidate)])
  }

  /** A delivered read of the anchor's own window. */
  function Recorded(p: Player, off: int, n: int): Player {
    var (s, e) := ClampReadSpan(off, n, p.anchor.fileSize);
    if e <= s then p
    else
      var t := Record(Track(p.anchor.fileSize, p.anchor.cursor, p.consumed), s, e);
      p.(consumed := t.consumed, anchor := p.anchor.(cursor := t.cursor), log := p.log + [Span(s, e)],
         confirmed := p.confirmed || t.cursor > p.anchor.cursor, candidate := Nearby(p.candidate, t.cursor))
  }

  function Credit(c: Candidate, id: nat, merged: seq<Span>, added: int): Candidate {
    c.(spans := merged, successfulTickets := c.successfulTickets + {id},
       uniqueBytes := c.uniqueBytes + added, successfulReadings := c.successfulReadings + 1)
  }

  /** The read belongs to the candidate and has not been counted yet. */
  predicate Counts(candidate: Option<Candidate>, id: nat, t: Tag, off: int, n: int) {
    && candidate.Some? && t.candidate == candidate.value.id && t.generation == candidate.value.generation
    && t.file == candidate.value.file && id !in candidate.value.successfulTickets
    && var (s, e) := ClampReadSpan(off, n, candidate.value.file.size); s < e
  }

  /** What such a read makes of the candidate: its bytes are merged, and it is counted if some were new. */
  function Sighted(c: Candidate, id: nat, off: int, n: int): Candidate {
    var (s, e) := ClampReadSpan(off, n, c.file.size);
    var merged := Absorb(c.spans, s, e, false);
    var added := Total(merged) - Total(c.spans);
    if added <= 0 then c.(spans := merged) else Credit(c, id, merged, added)
  }

  /** A read that counts, brings new bytes and is one of enough: it completes the confirmation. */
  predicate Confirms(candidate: Option<Candidate>, id: nat, t: Tag, off: int, n: int) {
    Counts(candidate, id, t, off, n) && Enough(candidate.value, id, off, n)
  }

  predicate Enough(c: Candidate, id: nat, off: int, n: int) {
    var d := Sighted(c, id, off, n);
    d.successfulReadings > c.successfulReadings && d.successfulReadings >= SEEK_CONFIRMATIONS
  }

  function Noted(p: Player, id: nat, t: Tag, off: int, n: int): Player {
    if !Counts(p.candidate, id, t, off, n) then p
    else
      var (s, e) := ClampReadSpan(off, n, p.candidate.value.file.size);
      p.(candidate := Some(Sighted(p.candidate.value, id, off, n)), sightings := p.sightings + [Span(s, e)])
  }

  /** A confirmed seek: the anchor moves to the candidate and starts from what its reads delivered. */
  function Reanchored(p: Player): Player
    requires p.candidate.Some?
  {
    var c := p.candidate.value;
    var (cursor, rest) := Advance(c.spans, ClampCursor(c.start, c.file.size));
    p.(generation := p.generation + 1, anchor := AnchorAt(c.file, ClampCursor(cursor, c.file.size)), confirmed := true,
       consumed := rest, candidate := None, start := c.start, log := p.sightings)
  }

  function Retagged(p: Player, id: nat): Player
    requires id in p.tags
  {
    p.(tags := p.tags[id := Tag(p.generation, p.tags[id].file, CurrentWindow, 0)])
  }

  /** What a delivered read of the current generation does. */
  function Credited(p: Player, id: nat, off: int, n: int): Player
    requires id in p.tags
  {
    var t := p.tags[id];
    if t.kind == CurrentWindow then if p.anchor.file == t.file then Recorded(p, off, n) else p
    else
      var q := Noted(p, id, t, off, n);
      if Confirms(p.candidate, id, t, off, n) then Retagged(Reanchored(q), id) else q
  }

  /** A read that may count for playback: it delivered bytes and is of the current generation. */
  predicate Eligible(p: Player, id: nat, n: int, delivered: bool) {
    n > 0 && delivered && id in p.tags && p.tags[id].generation == p.generation && p.hasAnchor
  }

  function Settled(p: Player, id: nat, off: int, n: int, delivered: bool): Player {
    if Eligible(p, id, n, delivered) then Credited(p, id, off, n) else p
  }

  function GivenUp(p: Player): Player {
    p.(hasAnchor := false, confirmed := false, consumed := [], candidate := None)
  }

  /** Some read of the window of this generation is in flight. */
  ghost predicate WindowUsed(tags: map<nat, Tag>, generation: nat) {
    exists id :: id in tags && tags[id].generation == generation && tags[id].kind == CurrentWindow
  }

  /** The read leaves; an anchor that no read confirmed goes with its last reader. */
  ghost function Departed(p: Player, id: nat): Player
    requires id in p.tags
  {
    var q := p.(tags := p.tags - {id});
    if p.tags[id].kind == CurrentWindow && !p.confirmed && !WindowUsed(q.tags, q.generation) then GivenUp(q) else q
  }

  ghost function Finished(p: Player, id: nat, off: int, n: int, delivered: bool): Player {
    if id !in p.tags then p else Departed(Settled(p, id, off, n, delivered), id)
  }

  function Others(tags: map<nat, Tag>, f: File): map<nat, Tag> {
    map id | id in tags && tags[id].file != f :: tags[id]
  }

  /** The last handle of a file is gone. */
  function Released(p: Player, f: File): Player {
    if p.closed then p
    else
      var q := p.(tags := Others(p.tags, f),
                  candidate := if p.candidate.Some? && p.candidate.value.file == f then None else p.candidate);
      if p.hasAnchor && p.anchor.file == f then GivenUp(q.(generation := p.generation + 1)) else q
  }

  function Shut(p: Player): Player {
    if p.closed then p else GivenUp(p).(closed := true, tags := map[])
  }

  function Fresh(): Player {
    Player(false, false, false, Anchor(File(0, 0, 0, 0, 0), 0, 0, 0, 0, 0), 0, 0, 0, [], None, map[], 0, [], [])
  }

  // ------------------------------------------------------------------------ runs

  datatype Op =
    | Begin(file: File, requestStart: int, requestEnd: int)
    | Finish(id: nat, off: int, n: int, delivered: bool)
    | StartPiece(id: nat, piece: nat)
    | FinishPiece(id: nat, piece: nat)
    | Reconcile
    | Release(file: File)
    | Cleanup

  /** Reads start inside their file, and files inside their torrent. */
  predicate Proper(op: Op) {
    op.Begin? ==> 0 <= op.file.offset && 0 <= op.requestStart && op.requestEnd <= op.file.size
  }

  ghost function Next(p: Player, op: Op): Player {
    match op
    case Begin(f, s, e) => Begun(p, f, s, e)
    case Finish(id, off, n, delivered) => Finished(p, id, off, n, delivered)
    case Release(f) => Released(p, f)
    case Cleanup => Shut(p)
    case _ => p
  }

  ghost function Run(ops: seq<Op>): Player {
    if ops == [] then Fresh() else Next(Run(ops[..|ops| - 1]), ops[|ops| - 1])
  }

  // ------------------------------------------------------------------- invariant

  /** The anchor's cursor and pending spans are what its start and its read log determine. */
  ghost predicate Tracks(p: Player) {
    p.hasAnchor ==> Follows(Track(p.anchor.fileSize, p.anchor.cursor, p.consumed), p.start, p.log)
  }

  /** A candidate's spans are the bytes its successful reads delivered. */
  ghost predicate Seen(c: Candidate, log: seq<Span>) {
    && Separated(c.spans) && InFile(log, c.file.size) && (forall b :: Has(c.spans, b) <==> Under(log, b))
    && 0 <= c.start <= c.file.size
  }

  /** Before confirmation: every counted read added bytes. */
  ghost predicate Plausible(c: Candidate, log: seq<Span>) {
    && Seen(c, log)
    && c.uniqueBytes == Total(c.spans)
    && c.successfulReadings == |c.successfulTickets| < SEEK_CONFIRMATIONS
    && (c.successfulTickets != {} <==> c.spans != [])
  }

  ghost predicate Candidates(p: Player) {
    p.candidate.Some? ==> Plausible(p.candidate.value, p.sightings)
  }

  /** Places in the torrent are not negative, and ticket numbers were issued. */
  ghost predicate Placed(p: Player) {
    && (p.hasAnchor ==> 0 <= p.anchor.fileStart && 0 <= p.anchor.cursor)
    && (p.candidate.Some? ==> 0 <= p.candidate.value.file.offset)
    && (forall id :: id in p.tags ==> id <= p.nextTicket && 0 <= p.tags[id].file.offset)
    && (!p.hasAnchor ==> p.consumed == [])
    && (p.closed ==> !p.hasAnchor && p.candidate == None && p.tags == map[])
  }

  ghost predicate Inv(p: Player) {
    Tracks(p) && Candidates(p) && Placed(p)
  }

  /** What the code itself relies on when it merges spans. */
  ghost predicate Spread(p: Player) {
    Separated(p.consumed) && (p.candidate.Some? ==> Separated(p.candidate.value.spans))
  }

  lemma InvSpread(p: Player)
    requires Inv(p)
    ensures Spread(p)
  {
  }

  /** An earlier, different read delivered bytes of the candidate, and this one delivers bytes that are
      new to it. */
  ghost predicate Seconds(c: Candidate, id: nat, off: int, n: int) {
    && (exists other :: other in c.successfulTickets && other != id)
    && (exists b :: Has(c.spans, b))
    && var span := ClampReadSpan(off, n, c.file.size);
       exists b :: span.0 <= b < span.1 && !Has(c.spans, b)
  }

  /** What moves a held anchor to the candidate: a delivered read of the current generation that belongs
      to the candidate and seconds it. */
  ghost predicate Confirmed(p: Player, op: Op) {
    && op.Finish? && Eligible(p, op.id, op.n, op.delivered) && p.tags[op.id].kind != CurrentWindow
    && Counts(p.candidate, op.id, p.tags[op.id], op.off, op.n) && Seconds(p.candidate.value, op.id, op.off, op.n)
  }

  /** A held anchor changes generation. */
  ghost predicate Jumps(p: Player, op: Op) {
    Confirmed(p, op) || (op.Release? && op.file == p.anchor.file)
  }

  /** The new anchor is the candidate's, and it starts from what the candidate's reads delivered. */
  ghost predicate Lands(p: Player, q: Player, off: int, n: int) {
    && q.hasAnchor && q.confirmed && p.candidate.Some?
    && q.anchor == AnchorAt(p.candidate.value.file, q.anchor.cursor) && q.start == p.candidate.value.start
    && var span := ClampReadSpan(off, n, p.candidate.value.file.size);
       q.log == p.sightings + [Span(span.0, span.1)]
  }

  /** How one operation may move playback: within a generation the anchor stays, its log grows and its
      cursor does not move back; a held anchor changes generation exactly through a confirming read, which
      moves it to the candidate, or the release of its file, which gives it up. */
  ghost predicate Onward(p: Player, q: Player, op: Op) {
    && Forward(p, q)
    && (p.hasAnchor ==>
          && (q.generation != p.generation <==> Jumps(p, op))
          && (Confirmed(p, op) ==> Lands(p, q, op.off, op.n))
          && (op.Release? && op.file == p.anchor.file ==> !q.hasAnchor))
  }

  /** Generations only grow, and within one a held anchor is held on to. */
  ghost predicate Forward(p: Player, q: Player) {
    p.generation <= q.generation && (q.generation == p.generation && q.hasAnchor ==> Holds(p, q))
  }

  lemma ForwardTrans(p: Player, q: Player, r: Player)
    requires Forward(p, q) && Forward(q, r)
    ensures Forward(p, r)
  {
  }

  ghost predicate Holds(p: Player, q: Player) {
    && p.hasAnchor && q.start == p.start && p.anchor.cursor <= q.anchor.cursor
    && q.anchor == p.anchor.(cursor := q.anchor.cursor) && p.log <= q.log
  }

  // ---- each operation

  lemma AnchoredInv(p: Player, f: File, requestStart: int)
    requires Inv(p) && !p.hasAnchor && !p.closed && 0 <= f.offset && 0 <= requestStart <= f.size
    ensures Inv(Classified(p, f, requestStart).0) && Classified(p, f, requestStart).0.generation == p.generation + 1
  {
  }

  lemma ClassifiedInv(p: Player, f: File, requestStart: int)
    requires Inv(p) && p.hasAnchor && 0 <= f.offset && 0 <= requestStart <= f.size
    ensures var q := Classified(p, f, requestStart).0; Inv(q) && q.generation == p.generation && Holds(p, q)
  {
  }

  lemma TaggedInv(p: Player, id: nat, t: Tag)
    requires Inv(p) && !p.closed && p.nextTicket <= id && 0 <= t.file.offset
    ensures Inv(p.(nextTicket := id, tags := p.tags[id := t]))
  {
    var q := p.(nextTicket := id, tags := p.tags[id := t]);
    assert Tracks(q) <==> Tracks(p);
  }

  lemma BegunInv(p: Player, f: File, requestStart: int, requestEnd: int)
    requires Inv(p) && Proper(Begin(f, requestStart, requestEnd))
    ensures var q := Begun(p, f, requestStart, requestEnd); Inv(q) && Onward(p, q, Begin(f, requestStart, requestEnd))
  {
    if requestStart < requestEnd && !p.closed {
      var (q, kind, candidate) := Classified(p, f, requestStart);
      if p.hasAnchor {
        ClassifiedInv(p, f, requestStart);
      } else {
        AnchoredInv(p, f, requestStart);
      }
      TaggedInv(q, q.nextTicket + 1, Tag(q.generation, f, kind, candidate));
    }
  }

  lemma RecordedInv(p: Player, off: int, n: int)
    requires Inv(p) && p.hasAnchor
    ensures var q := Recorded(p, off, n); Inv(q) && q.generation == p.generation && Holds(p, q) && q.tags == p.tags
  {
    var (s, e) := ClampReadSpan(off, n, p.anchor.fileSize);
    if s < e {
      RecordFollows(Track(p.anchor.fileSize, p.anchor.cursor, p.consumed), p.start, p.log, s, e);
    }
  }

  lemma SameTotal(spans: seq<Span>, merged: seq<Span>, s: int, e: int)
    requires Separated(spans) && s < e && merged == Absorb(spans, s, e, false)
    requires !exists b :: s <= b < e && !Has(spans, b)
    ensures merged == spans
  {
    AbsorbExact(spans, s, e);
    Canonical(spans, merged);
  }

  lemma GrownTickets(c: Candidate, id: nat, merged: seq<Span>, s: int)
    requires id !in c.successfulTickets && Has(merged, s)
    ensures |c.successfulTickets + {id}| == |c.successfulTickets| + 1 && merged != []
  {
  }

  lemma NextCandidate(c: Candidate, log: seq<Span>, id: nat, s: int, e: int, merged: seq<Span>, added: int)
    requires Plausible(c, log) && 0 <= s < e <= c.file.size && id !in c.successfulTickets
    requires merged == Absorb(c.spans, s, e, false) && added == Total(merged) - Total(c.spans)
    ensures added <= 0 ==> Plausible(c.(spans := merged), log + [Span(s, e)])
    ensures Seen(Credit(c, id, merged, added), log + [Span(s, e)])
    ensures c.successfulReadings + 1 < SEEK_CONFIRMATIONS ==>
      Plausible(Credit(c, id, merged, added), log + [Span(s, e)])
  {
    AbsorbExact(c.spans, s, e);
    AbsorbGain(c.spans, s, e);
    forall b ensures Has(merged, b) <==> Under(log + [Span(s, e)], b) {
      UnderSnoc(log, Span(s, e), b);
    }
    GrownTickets(c, id, merged, s);
    if added <= 0 {
      SameTotal(c.spans, merged, s, e);
    }
  }

  /** The code counts readings and compares byte totals; that comes to a seconding read. */
  lemma EnoughExact(c: Candidate, log: seq<Span>, id: nat, off: int, n: int)
    requires Plausible(c, log) && id !in c.successfulTickets
    requires var (s, e) := ClampReadSpan(off, n, c.file.size); s < e
    ensures Enough(c, id, off, n) <==> Seconds(c, id, off, n)
  {
    var (s, e) := ClampReadSpan(off, n, c.file.size);
    AbsorbGain(c.spans, s, e);
    if c.successfulReadings >= 1 {
      assert c.successfulTickets != {};
      assert Has(c.spans, c.spans[0].start);
    }
  }

  /** Counting a read of the candidate; the one that is enough seconds it. */
  lemma SightedInv(c: Candidate, log: seq<Span>, id: nat, off: int, n: int)
    requires Plausible(c, log) && id !in c.successfulTickets
    requires var (s, e) := ClampReadSpan(off, n, c.file.size); s < e
    ensures var (s, e) := ClampReadSpan(off, n, c.file.size); var d := Sighted(c, id, off, n);
      && d.file == c.file && d.start == c.start && Seen(d, log + [Span(s, e)])
      && (Enough(c, id, off, n) <==> Seconds(c, id, off, n))
      && (!Enough(c, id, off, n) ==> Plausible(d, log + [Span(s, e)]))
  {
    var (s, e) := ClampReadSpan(off, n, c.file.size);
    var merged := Absorb(c.spans, s, e, false);
    NextCandidate(c, log, id, s, e, merged, Total(merged) - Total(c.spans));
    EnoughExact(c, log, id, off, n);
  }

  lemma ConfirmFollows(size: int, start: int, spans: seq<Span>, log: seq<Span>)
    requires Separated(spans) && InFile(log, size) && (forall b :: Has(spans, b) <==> Under(log, b))
    requires 0 <= start <= size
    ensures var (c, rest) := Advance(spans, start);
      Follows(Track(size, ClampCursor(c, size), rest), start, log) && start <= ClampCursor(c, size)
  {
    var (c, rest) := Advance(spans, start);
    AdvanceExact(spans, start);
    assert c > size ==> Has(spans, size) && Under(log, size);
  }

  lemma ReanchoredInv(p: Player, id: nat)
    requires p.hasAnchor && Placed(p) && p.candidate.Some? && Seen(p.candidate.value, p.sightings) && id in p.tags
    ensures Inv(Retagged(Reanchored(p), id))
  {
    var c := p.candidate.value;
    ConfirmFollows(c.file.size, c.start, c.spans, p.sightings);
  }

  lemma NotedInv(p: Player, id: nat, t: Tag, off: int, n: int)
    requires Inv(p)
    ensures var q := Noted(p, id, t, off, n);
      && q == p.(candidate := q.candidate, sightings := q.sightings) && Placed(q)
      && (Confirms(p.candidate, id, t, off, n) <==>
            Counts(p.candidate, id, t, off, n) && Seconds(p.candidate.value, id, off, n))
      && (if Confirms(p.candidate, id, t, off, n)
          then q.candidate.Some? && Seen(q.candidate.value, q.sightings) else Candidates(q))
  {
    if Counts(p.candidate, id, t, off, n) {
      SightedInv(p.candidate.value, p.sightings, id, off, n);
    }
  }

  lemma SettledInv(p: Player, id: nat, off: int, n: int, delivered: bool)
    requires Inv(p) && id in p.tags
    ensures var q := Settled(p, id, off, n, delivered);
      && Inv(q) && id in q.tags && Onward(p, q, Finish(id, off, n, delivered)) && q.closed == p.closed
  {
    if Eligible(p, id, n, delivered) {
      var t := p.tags[id];
      if t.kind == CurrentWindow {
        RecordedInv(p, off, n);
      } else {
        NotedInv(p, id, t, off, n);
        var q := Noted(p, id, t, off, n);
        if Confirms(p.candidate, id, t, off, n) {
          ReanchoredInv(q, id);
        }
      }
    }
  }

  lemma DepartedInv(p: Player, id: nat)
    requires Inv(p) && id in p.tags
    ensures var q := Departed(p, id);
      && Inv(q) && q.generation == p.generation && q.start == p.start && q.log == p.log && q.anchor == p.anchor
      && (q.hasAnchor ==> p.hasAnchor) && (p.confirmed && p.hasAnchor ==> q.hasAnchor && q.confirmed)
  {
  }

  lemma FinishedInv(p: Player, id: nat, off: int, n: int, delivered: bool)
    requires Inv(p)
    ensures var q := Finished(p, id, off, n, delivered); Inv(q) && Onward(p, q, Finish(id, off, n, delivered))
  {
    if id in p.tags {
      SettledInv(p, id, off, n, delivered);
      DepartedInv(Settled(p, id, off, n, delivered), id);
    }
  }

  lemma ReleasedInv(p: Player, f: File)
    requires Inv(p)
    ensures Inv(Released(p, f)) && Onward(p, Released(p, f), Release(f))
  {
  }

  lemma ShutInv(p: Player)
    requires Inv(p)
    ensures Inv(Shut(p)) && Onward(p, Shut(p), Cleanup)
  {
  }

  lemma NextInv(p: Player, op: Op)
    requires Inv(p) && Proper(op)
    ensures Inv(Next(p, op)) && Onward(p, Next(p, op), op)
  {
    match op
    case Begin(f, s, e) => BegunInv(p, f, s, e);
    case Finish(id, off, n, delivered) => FinishedInv(p, id, off, n, delivered);
    case Release(f) => ReleasedInv(p, f);
    case Cleanup => ShutInv(p);
    case _ =>
  }

  ghost predicate AllProper(ops: seq<Op>) {
    forall i :: 0 <= i < |ops| ==> Proper(ops[i])
  }

  lemma {:induction false} RunInv(ops: seq<Op>)
    requires AllProper(ops)
    ensures Inv(Run(ops))
  {
    if ops != [] {
      RunInv(ops[..|ops| - 1]);
      NextInv(Run(ops[..|ops| - 1]), ops[|ops| - 1]);
    }
  }

  // ------------------------------------------------------------------ main results

  /** In every run: while an anchor is held, its cursor is the first byte at or after its start that no
      successful read of its log delivered. */
  lemma CursorIsFirstGap(ops: seq<Op>)
    requires AllProper(ops) && Run(ops).hasAnchor
    ensures FirstGap(Run(ops).start, Run(ops).log, Run(ops).anchor.cursor)
  {
    RunInv(ops);
    var p := Run(ops);
    FollowsFirstGap(Track(p.anchor.fileSize, p.anchor.cursor, p.consumed), p.start, p.log);
  }

  lemma StepOnward(ops: seq<Op>, i: nat)
    requires AllProper(ops) && i < |ops|
    ensures Forward(Run(ops[..i]), Run(ops[..i + 1]))
  {
    assert ops[..i + 1][..i] == ops[..i];
    RunInv(ops[..i]);
    NextInv(Run(ops[..i]), ops[i]);
  }

  /** In every run, between any two moments: generations only grow; while the generation is the same and
      an anchor is held at the end, it is the same anchor all along, its log only grew, and its cursor
      did not move back. */
  lemma {:induction false} CursorNeverMovesBack(ops: seq<Op>, i: nat, j: nat)
    requires AllProper(ops) && i <= j <= |ops|
    ensures Forward(Run(ops[..i]), Run(ops[..j]))
    decreases j
  {
    if i < j {
      CursorNeverMovesBack(ops, i, j - 1);
      StepOnward(ops, j - 1);
      ForwardTrans(Run(ops[..i]), Run(ops[..j - 1]), Run(ops[..j]));
    }
  }

  /** In every run a held anchor changes its generation if and only if a live read of the candidate
      ends that seconds an earlier, different one with new bytes, or the anchor's own file is released.
      The first moves it to the candidate's file and start; the second gives it up. */
  lemma HeldAnchorJumpsExactlyWhenConfirmed(ops: seq<Op>, op: Op)
    requires AllProper(ops) && Proper(op) && Run(ops).hasAnchor
    ensures var p, q := Run(ops), Run(ops + [op]);
      && (q.generation != p.generation <==> Jumps(p, op))
      && (Confirmed(p, op) ==> Lands(p, q, op.off, op.n))
      && (op.Release? && op.file == p.anchor.file ==> !q.hasAnchor)
  {
    RunInv(ops);
    assert (ops + [op])[..|ops|] == ops;
    NextInv(Run(ops), op);
  }
}
