/** Playback told from the reads alone: where the anchor began, what was delivered to it since, and whether
    it came from a seek. */
module PlayerRuns {
  import opened Types
  import opened Spans
  import opened Playback
  import opened PrefetchModel
  import L = PlayerModel
  import opened PlayerModel

  /** `start` and `log`: where the current anchor began and the spans delivered to its window since;
      `seek` and `sightings`: the same of the current candidate, and `counted` the reads of it that
      delivered new bytes; `jumped`: the anchor came from a candidate. */
  datatype History = History(start: int, log: seq<Span>, jumped: bool, seek: int, sightings: seq<Span>, counted: set<nat>)

  function Delivery(off: int, n: int, size: int): Span {
    Span(Max(off, 0), Min(off + n, size))
  }

  /** Some byte of the read lies in the file. */
  predicate Reaches(off: int, n: int, size: int) {
    n > 0 && size > 0 && off < size && off + n > 0
  }

  /** The byte is in the playback window: from 8 MiB before the cursor to 32 MiB after it, inside the file. */
  predicate InReach(cursor: int, size: int, x: int) {
    0 <= x < size && cursor - 8388608 <= x < cursor + 33554432
  }

  /** A read at this place of the file is a read of the anchor's window. */
  predicate AtWindow(a: Anchor, f: File, x: int) {
    a.file == f && a.fileStart == f.offset && a.fileSize == f.size && InReach(a.cursor, f.size, x)
  }

  /** It is within 8 MiB of the place where the current candidate began. */
  predicate AtCandidate(p: Player, f: File, x: int) {
    && p.candidate.Some? && p.candidate.value.file == f && p.candidate.value.generation == p.generation
    && -8388608 <= x - p.candidate.value.start <= 8388608
  }

  /** The read delivered bytes, and its ticket is of the generation of the held anchor. */
  predicate Timely(p: Player, op: Op) {
    op.Finish? && op.delivered && op.n > 0 && p.hasAnchor && op.id in p.tags && p.tags[op.id].generation == p.generation
  }

  /** The read was begun for the current candidate, is not counted yet, and reached its file. */
  predicate Belongs(p: Player, op: Op) {
    && Timely(p, op) && p.candidate.Some?
    && var t, c := p.tags[op.id], p.candidate.value;
       && t.candidate == c.id && t.generation == c.generation && t.file == c.file && op.id !in c.successfulTickets
       && Reaches(op.off, op.n, c.file.size)
  }

  /** The span holds a byte that the log does not. */
  ghost predicate NewTo(log: seq<Span>, s: Span) {
    exists b :: s.start <= b < s.end && !Under(log, b)
  }

  /** A read that begins sets an anchor where none is held, or opens a candidate where it is neither in the
      window nor near the candidate. A delivered read that ends counts for the window it was begun in, or
      for the candidate; the one that seconds the candidate moves the anchor to it. */
  ghost function Tell(p: Player, h: History, op: Op): History {
    match op
    case Begin(f, s, e) =>
      if s >= e || p.closed then h
      else if !p.hasAnchor then h.(start := s, log := [], jumped := false)
      else if AtWindow(p.anchor, f, s) || AtCandidate(p, f, s) then h
      else h.(seek := s, sightings := [], counted := {})
    case Finish(id, off, n, delivered) =>
      if !Timely(p, op) then h
      else if p.tags[id].kind == CurrentWindow then
        if p.tags[id].file == p.anchor.file && Reaches(off, n, p.anchor.fileSize)
        then h.(log := h.log + [Delivery(off, n, p.anchor.fileSize)]) else h
      else if !Belongs(p, op) then h
      else
        var span := Delivery(off, n, p.candidate.value.file.size);
        var counted := if NewTo(h.sightings, span) then h.counted + {id} else h.counted;
        if NewTo(h.sightings, span) && h.counted != {} then h.(start := h.seek, log := h.sightings + [span], jumped := true)
        else h.(sightings := h.sightings + [span], counted := counted)
    case _ => h
  }

  ghost function Told(ops: seq<Op>): History {
    if ops == [] then History(0, [], false, 0, [], {})
    else Tell(Run(ops[..|ops| - 1]), Told(ops[..|ops| - 1]), ops[|ops| - 1])
  }

  /** The player agrees with the history. */
  ghost predicate Agrees(p: Player, h: History) {
    && (p.hasAnchor ==> p.start == h.start && p.log == h.log && (p.confirmed <==> h.jumped || p.anchor.cursor > h.start))
    && (p.candidate.Some? ==> p.candidate.value.start == h.seek && p.sightings == h.sightings
                              && p.candidate.value.successfulTickets == h.counted)
  }

  lemma TellBegin(p: Player, h: History, op: Op)
    requires L.Inv(p) && Agrees(p, h) && op.Begin? && Proper(op)
    ensures Agrees(Next(p, op), Tell(p, h, op))
  {
  }

  lemma TellWindow(p: Player, h: History, id: nat, off: int, n: int)
    requires L.Inv(p) && Agrees(p, h) && Eligible(p, id, n, true) && p.tags[id].kind == CurrentWindow
    ensures Agrees(Settled(p, id, off, n, true), Tell(p, h, Finish(id, off, n, true)))
  {
    RecordedInv(p, off, n);
  }

  lemma TellCandidate(p: Player, h: History, id: nat, off: int, n: int)
    requires L.Inv(p) && Agrees(p, h) && Eligible(p, id, n, true) && p.tags[id].kind != CurrentWindow
    ensures Agrees(Settled(p, id, off, n, true), Tell(p, h, Finish(id, off, n, true)))
  {
    NotedInv(p, id, p.tags[id], off, n);
    if Belongs(p, Finish(id, off, n, true)) {
      SecondsMeans(p, h, id, off, n);
    }
  }

  lemma SecondsMeans(p: Player, h: History, id: nat, off: int, n: int)
    requires L.Inv(p) && Agrees(p, h) && Belongs(p, Finish(id, off, n, true))
    ensures var c := p.candidate.value; var span := Delivery(off, n, c.file.size);
      && (Seconds(c, id, off, n) <==> NewTo(h.sightings, span) && h.counted != {})
      && (NewTo(h.sightings, span) <==> Sighted(c, id, off, n).successfulTickets == h.counted + {id})
      && (!NewTo(h.sightings, span) <==> Sighted(c, id, off, n).successfulTickets == h.counted)
  {
    var c := p.candidate.value;
    var (s, e) := ClampReadSpan(off, n, c.file.size);
    AbsorbGain(c.spans, s, e);
    assert forall b :: Has(c.spans, b) <==> Under(h.sightings, b);
    if c.spans != [] {
      assert Has(c.spans, c.spans[0].start);
    }
    assert id in h.counted + {id};
  }

  lemma TellFinish(p: Player, h: History, op: Op)
    requires L.Inv(p) && Agrees(p, h) && op.Finish?
    ensures Agrees(Next(p, op), Tell(p, h, op))
  {
    if Eligible(p, op.id, op.n, op.delivered) {
      if p.tags[op.id].kind == CurrentWindow {
        TellWindow(p, h, op.id, op.off, op.n);
      } else {
        TellCandidate(p, h, op.id, op.off, op.n);
      }
    }
  }

  lemma {:induction false} RunAgrees(ops: seq<Op>)
    requires AllProper(ops)
    ensures Agrees(Run(ops), Told(ops))
  {
    if ops != [] {
      var front, op := ops[..|ops| - 1], ops[|ops| - 1];
      RunInv(front);
      RunAgrees(front);
      if op.Begin? {
        TellBegin(Run(front), Told(front), op);
      } else if op.Finish? {
        TellFinish(Run(front), Told(front), op);
      }
    }
  }

  /** In every run a held cursor is the first byte, at or after the place where its anchor began, that none
      of the window reads that ended since delivered. */
  lemma CursorFollowsHistory(ops: seq<Op>)
    requires AllProper(ops) && Run(ops).hasAnchor
    ensures FirstGap(Told(ops).start, Told(ops).log, Run(ops).anchor.cursor)
  {
    RunAgrees(ops);
    CursorIsFirstGap(ops);
  }

  // ------------------------------------------------------------------- losing the anchor

  /** Another read of the anchor's window is in flight. */
  ghost predicate OtherReader(p: Player, id: nat) {
    exists other :: other in p.tags && other != id && p.tags[other].generation == p.generation && p.tags[other].kind == CurrentWindow
  }

  /** In every run a held anchor is given up exactly when its file is released, at shutdown, or when a window
      read ends, no other is in flight, the anchor did not come from a seek, and its cursor has not moved. */
  lemma AnchorLostExactlyWhen(ops: seq<Op>, op: Op)
    requires AllProper(ops) && Proper(op) && Run(ops).hasAnchor
    ensures var p, q, h := Run(ops), Run(ops + [op]), Told(ops + [op]);
      !q.hasAnchor <==>
        || op.Cleanup? || (op.Release? && op.file == p.anchor.file)
        || (op.Finish? && op.id in p.tags && p.tags[op.id].kind == CurrentWindow && !OtherReader(p, op.id)
            && !h.jumped && q.anchor.cursor == h.start)
  {
    RunInv(ops);
    RunAgrees(ops);
    assert (ops + [op])[..|ops|] == ops;
    if op.Finish? && op.id in Run(ops).tags {
      FinishLoses(Run(ops), Told(ops), op);
    }
  }

  lemma FinishLoses(p: Player, h: History, op: Op)
    requires L.Inv(p) && Agrees(p, h) && op.Finish? && p.hasAnchor && op.id in p.tags
    ensures !Next(p, op).hasAnchor <==>
      p.tags[op.id].kind == CurrentWindow && !OtherReader(p, op.id)
      && !Tell(p, h, op).jumped && Next(p, op).anchor.cursor == Tell(p, h, op).start
  {
    var r := Settled(p, op.id, op.off, op.n, op.delivered);
    SettledInv(p, op.id, op.off, op.n, op.delivered);
    if Eligible(p, op.id, op.n, op.delivered) {
      if p.tags[op.id].kind == CurrentWindow {
        TellWindow(p, h, op.id, op.off, op.n);
      } else {
        TellCandidate(p, h, op.id, op.off, op.n);
      }
    }
    DepartedInv(r, op.id);
    OtherReaderMeans(p, op.id);
    RecordedTags(p, op);
  }

  lemma OtherReaderMeans(p: Player, id: nat)
    ensures WindowUsed(p.tags - {id}, p.generation) <==> OtherReader(p, id)
  {
    if other :| other in p.tags && other != id && p.tags[other].generation == p.generation && p.tags[other].kind == CurrentWindow {
      assert other in p.tags - {id};
    }
  }

  /** A window read in flight changes neither tickets nor generation by what it delivered. */
  lemma RecordedTags(p: Player, op: Op)
    requires L.Inv(p) && op.Finish? && p.hasAnchor && op.id in p.tags
    ensures var r := Settled(p, op.id, op.off, op.n, op.delivered);
      && op.id in r.tags && r.hasAnchor
      && (p.tags[op.id].kind == CurrentWindow ==> r.tags == p.tags && r.generation == p.generation)
      && (p.tags[op.id].kind != CurrentWindow ==> r.tags[op.id].kind != CurrentWindow || r.confirmed)
  {
  }

  // ------------------------------------------------------------------------------ tickets

  /** A read that begins gets one new ticket and leaves the others alone. It is a window read if there was
      no anchor or it starts in the window of the anchor's file; else it belongs to the candidate if it
      starts within 8 MiB of it in the same file and generation; else it opens a candidate where it starts. */
  lemma BeginTickets(p: Player, f: File, s: int, e: int)
    requires L.Inv(p) && !p.closed && 0 <= s < e <= f.size
    ensures var q := Next(p, Begin(f, s, e));
      var window, near := p.hasAnchor ==> AtWindow(p.anchor, f, s), AtCandidate(p, f, s);
      && q.hasAnchor && q.nextTicket == p.nextTicket + 1
      && q.tags == p.tags[q.nextTicket := Tag(q.generation, f, if window then CurrentWindow else if near then CandidateRead else ForegroundOnly,
                                              if window then 0 else q.candidate.value.id)]
      && (q.generation == if p.hasAnchor then p.generation else p.generation + 1)
      && (!window && !near ==> q.candidate == Some(Candidate(p.nextCandidate + 1, p.generation, f, s, [], {}, 0, 0)))
      && (!window && near ==> q.candidate == p.candidate)
      && (!p.hasAnchor ==> q.anchor == Anchor(f, f.offset, f.size, f.pieceLength, f.torrentSize, s) && q.candidate == None)
      && (p.hasAnchor ==> q.anchor == p.anchor)
  {
  }

  lemma SettledTags(p: Player, op: Op, id: nat)
    requires op.Finish? && id != op.id
    ensures var r := Settled(p, op.id, op.off, op.n, op.delivered);
      (id in r.tags <==> id in p.tags) && (id in p.tags ==> r.tags[id] == p.tags[id])
  {
  }

  /** A read that ends gives up its ticket and no other; a released file takes its own tickets along. */
  lemma EndTickets(p: Player, op: Op, id: nat)
    requires L.Inv(p) && (op.Finish? || op.Release?)
    ensures id in Next(p, op).tags <==> id in p.tags && (if op.Finish? then id != op.id else p.closed || p.tags[id].file != op.file)
    ensures id in Next(p, op).tags ==> Next(p, op).tags[id] == p.tags[id]
  {
    if op.Finish? && op.id in p.tags {
      SettledInv(p, op.id, op.off, op.n, op.delivered);
      if id != op.id {
        SettledTags(p, op, id);
      }
    }
  }

  /** The read was recorded for the window and left the cursor more than 64 MiB away from there. */
  ghost predicate LeftBehind(p: Player, op: Op, cursor: int, seek: int) {
    && Timely(p, op) && p.tags[op.id].kind == CurrentWindow && p.tags[op.id].file == p.anchor.file
    && Reaches(op.off, op.n, p.anchor.fileSize) && !(-67108864 <= cursor - seek <= 67108864)
  }

  lemma WindowCandidate(p: Player, op: Op)
    requires L.Inv(p) && p.hasAnchor && p.candidate.Some? && op.Finish? && op.id in p.tags && p.tags[op.id].kind == CurrentWindow
    ensures var r := Settled(p, op.id, op.off, op.n, op.delivered);
      r.hasAnchor && (r.candidate.None? <==> LeftBehind(p, op, r.anchor.cursor, p.candidate.value.start))
  {
  }

  lemma SettledCandidate(p: Player, op: Op)
    requires L.Inv(p) && p.hasAnchor && p.candidate.Some? && op.Finish? && op.id in p.tags
    ensures var r := Settled(p, op.id, op.off, op.n, op.delivered);
      r.hasAnchor && (r.candidate.None? <==> Confirmed(p, op) || LeftBehind(p, op, r.anchor.cursor, p.candidate.value.start))
  {
    if p.tags[op.id].kind == CurrentWindow {
      WindowCandidate(p, op);
    } else {
      NotedInv(p, op.id, p.tags[op.id], op.off, op.n);
    }
  }

  /** A candidate is forgotten exactly when the anchor is lost or moves to it, when its file is released, or
      when a window read leaves the cursor more than 64 MiB away from it; a read that opens a new one
      replaces it. */
  lemma CandidateLost(p: Player, op: Op)
    requires L.Inv(p) && p.hasAnchor && p.candidate.Some?
    ensures var q, c := Next(p, op), p.candidate.value;
      q.candidate.None? <==>
        || !q.hasAnchor || Confirmed(p, op) || (op.Release? && op.file == c.file)
        || LeftBehind(p, op, q.anchor.cursor, c.start)
  {
    if op.Finish? && op.id in p.tags {
      SettledCandidate(p, op);
      SettledInv(p, op.id, op.off, op.n, op.delivered);
      DepartedInv(Settled(p, op.id, op.off, op.n, op.delivered), op.id);
    }
  }

  // ------------------------------------------------------------- candidates are not mixed up

  /** Candidate numbers in use were issued, and none is 0. */
  ghost predicate Issued(p: Player) {
    && (p.candidate.Some? ==> 1 <= p.candidate.value.id <= p.nextCandidate)
    && (forall id :: id in p.tags ==> p.tags[id].candidate <= p.nextCandidate)
    && (forall id :: id in p.tags && p.tags[id].kind == CurrentWindow ==> p.tags[id].candidate == 0)
  }

  lemma BeginIssued(p: Player, op: Op)
    requires Issued(p) && op.Begin?
    ensures Issued(Next(p, op)) && p.nextCandidate <= Next(p, op).nextCandidate
  {
  }

  lemma SettledIssued(p: Player, op: Op)
    requires Issued(p) && op.Finish? && op.id in p.tags
    ensures var r := Settled(p, op.id, op.off, op.n, op.delivered); Issued(r) && r.nextCandidate == p.nextCandidate
  {
  }

  lemma StepIssued(p: Player, op: Op)
    requires L.Inv(p) && Issued(p)
    ensures Issued(Next(p, op)) && p.nextCandidate <= Next(p, op).nextCandidate
  {
    if op.Begin? {
      BeginIssued(p, op);
    } else if op.Finish? && op.id in p.tags {
      SettledIssued(p, op);
    }
  }

  lemma {:induction false} RunIssued(ops: seq<Op>)
    requires AllProper(ops)
    ensures Issued(Run(ops))
  {
    if ops != [] {
      RunInv(ops[..|ops| - 1]);
      RunIssued(ops[..|ops| - 1]);
      StepIssued(Run(ops[..|ops| - 1]), ops[|ops| - 1]);
    }
  }

  /** In every run, when a read opens a new candidate no other read in flight belongs to it, so a read begun
      for an earlier candidate never counts for a later one; and a window read counts for none. */
  lemma NobodyElsesCandidate(ops: seq<Op>, op: Op, id: nat)
    requires AllProper(ops) && Proper(op) && op.Begin?
    requires var p, q := Run(ops), Run(ops + [op]);
      q.candidate.Some? && (p.candidate.None? || p.candidate.value.id != q.candidate.value.id) && id in q.tags
    ensures var q := Run(ops + [op]); q.tags[id].candidate == q.candidate.value.id <==> id == q.nextTicket
  {
    RunInv(ops);
    RunIssued(ops);
    assert (ops + [op])[..|ops|] == ops;
    assert id in Run(ops).tags ==> id <= Run(ops).nextTicket;
  }

  // ----------------------------------------------------------------------------- shutdown

  lemma ClosedStays(p: Player, op: Op)
    requires L.Inv(p) && p.closed
    ensures Next(p, op) == p
  {
    if op.Release? || op.Cleanup? {
      assert Next(p, op) == p;
    }
  }

  /** In every run, after a shutdown nothing is held and no read is in flight, whatever comes later. */
  lemma {:induction false} ClosedForever(ops: seq<Op>, more: seq<Op>)
    requires AllProper(ops) && AllProper(more)
    ensures var q := Run(ops + [Cleanup] + more); q.closed && !q.hasAnchor && q.candidate == None && q.tags == map[]
  {
    var all := ops + [Cleanup];
    if more == [] {
      assert all + more == all && all[..|ops|] == ops;
      RunInv(ops);
      NextInv(Run(ops), Cleanup);
    } else {
      var front := more[..|more| - 1];
      ClosedForever(ops, front);
      assert (all + more)[..|all + more| - 1] == all + front;
      RunInv(all + front);
      ClosedStays(Run(all + front), more[|more| - 1]);
    }
  }
}
