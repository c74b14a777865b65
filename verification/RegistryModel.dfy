/** The durable life of one torrent: sidecar, metainfo, pending magnet and subtitles on disk, the
    registry entry in memory, and every crash point between two file operations. */
module RegistryModel {
  import opened Types

  datatype Status = Adding | Ready | Error | Deleting | DeleteFailed

  datatype Disk = Disk(sidecar: Option<Status>, final: bool, pending: bool, subtitles: bool)

  /** A file operation succeeds, fails without effect, or takes effect and still reports an error
      because the directory could not be synced. */
  datatype Outcome = Done | Failed | Unsynced

  /** What the holder of the hash lock still has to do after it left the session lock. */
  datatype Duty = Idle | DropPending | Uploading

  /** The background deletion: which file comes next and whether all went well so far. */
  datatype Deletion = NoDeletion | Cleaning(stage: nat, clean: bool)

  datatype Sys = Sys(disk: Disk, mem: Option<Status>, duty: Duty, deletion: Deletion)

  /** One critical section: the disk after each of its file operations, and the state it leaves. */
  datatype Region = Region(points: seq<Disk>, after: Sys)

  predicate Live(s: Option<Status>) {
    s.Some? && (s.value.Adding? || s.value.Ready? || s.value.Error?)
  }

  predicate Going(s: Option<Status>) {
    s.Some? && !Live(s)
  }

  // ------------------------------------------------------------------- operations

  datatype Op =
    | Add(metainfo: bool, publish: Outcome, write: Outcome, cleanup: Outcome)
    | Resolve(publish: Outcome, write: Outcome, cleanup: Outcome)
    | RecordFailure(write: Outcome)
    | Retry(write: Outcome)
    | Edit(write: Outcome)                 // favourite or category
    | CleanPending(remove: Outcome)
    | BeginUpload
    | EndUpload(written: bool)
    | Mark(write: Outcome)
    | Clean(remove: Outcome)
    | Conclude(remove: Outcome, write: Outcome)
    | Resume                               // restart: an unfinished deletion
    | Restore(write: Outcome, same: bool) // restart: everything else; a ready entry with nothing new is not rewritten

  function WithSidecar(d: Disk, status: Status, o: Outcome): Disk {
    if o.Failed? then d else d.(sidecar := Some(status))
  }

  function Stay(s: Sys): Region {
    Region([], s)
  }

  /** Publishing never replaces a file; `created` only when this call made it and knows so. */
  predicate Created(exists_: bool, o: Outcome) {
    !exists_ && o.Done?
  }

  function WithFinal(d: Disk, o: Outcome): Disk {
    d.(final := d.final || !o.Failed?)
  }

  function WithPending(d: Disk, o: Outcome): Disk {
    d.(pending := d.pending || !o.Failed?)
  }

  /** Adding from metainfo. */
  function AddFinal(s: Sys, publish: Outcome, write: Outcome, cleanup: Outcome): Region {
    var d1 := WithFinal(s.disk, publish);
    if !publish.Done? then Region([d1], s.(disk := d1))
    else
      var d2 := WithSidecar(d1, Ready, write);
      if write.Done? then Region([d1, d2], s.(disk := d2, mem := Some(Ready), duty := DropPending))
      else if !Created(s.disk.final, publish) then Region([d1, d2], s.(disk := d2))
      else
        var d3 := if cleanup.Failed? then d2 else d2.(final := false);
        Region([d1, d2, d3], s.(disk := d3))
  }

  /** Adding from a magnet, when there is no metainfo yet. */
  function AddMagnet(s: Sys, publish: Outcome, write: Outcome, cleanup: Outcome): Region {
    var d1 := WithPending(s.disk, publish);
    if !publish.Done? then Region([d1], s.(disk := d1))
    else
      var d2 := WithSidecar(d1, Adding, write);
      if write.Done? then Region([d1, d2], s.(disk := d2, mem := Some(Adding)))
      else if !Created(s.disk.pending, publish) then Region([d1, d2], s.(disk := d2))
      else
        var d3 := if cleanup.Failed? then d2 else d2.(pending := false);
        Region([d1, d2, d3], s.(disk := d3))
  }

  /** A magnet's metainfo arrived. */
  function ResolveFinal(s: Sys, publish: Outcome, write: Outcome, cleanup: Outcome): Region {
    var d1 := WithFinal(s.disk, publish);
    if !publish.Done? then Region([d1], s.(disk := d1))
    else if s.mem.None? then
      if !Created(s.disk.final, publish) || cleanup.Failed? then Region([d1], s.(disk := d1))
      else Region([d1, d1.(final := false)], s.(disk := d1.(final := false)))
    else
      var d2 := WithSidecar(d1, Ready, write);
      Region([d1, d2], if write.Done? then s.(disk := d2, mem := Some(Ready), duty := DropPending) else s.(disk := d2))
  }

  /** Rewrites the sidecar; memory follows only when the write reported success. */
  function Rewrite(s: Sys, status: Status, write: Outcome): Region {
    var d := WithSidecar(s.disk, status, write);
    Region([d], if write.Done? then s.(disk := d, mem := Some(status)) else s.(disk := d))
  }

  function Without(d: Disk, stage: nat): Disk {
    if stage == 0 then d.(final := false) else if stage == 1 then d.(pending := false) else d.(subtitles := false)
  }

  /** One stage of the cleanup. Every stage is attempted, whatever the earlier ones did. */
  function CleanStage(s: Sys, remove: Outcome): Region {
    if s.deletion.NoDeletion? || s.deletion.stage >= 3 then Stay(s)
    else
      var d := if remove.Failed? then s.disk else Without(s.disk, s.deletion.stage);
      var ok := s.deletion.clean && remove.Done?;
      Region([d], s.(disk := d, deletion := Cleaning(s.deletion.stage + 1, ok)))
  }

  /** The end of a deletion: the sidecar goes, or the failure is recorded in it. */
  function ConcludeDeletion(s: Sys, remove: Outcome, write: Outcome): Region {
    if s.deletion.NoDeletion? || s.deletion.stage != 3 then Stay(s)
    else if s.deletion.clean && remove.Done? then
      var d := s.disk.(sidecar := None);
      Region([d], Sys(d, None, s.duty, NoDeletion))
    else
      var d1 := if s.deletion.clean && remove.Unsynced? then s.disk.(sidecar := None) else s.disk;
      var d2 := WithSidecar(d1, DeleteFailed, write);
      Region([d1, d2], Sys(d2, if write.Done? then Some(DeleteFailed) else s.mem, s.duty, NoDeletion))
  }

  /** A restart takes an unfinished deletion up again. */
  function ResumeDeletion(s: Sys): Region {
    if !s.deletion.NoDeletion? || !Going(s.mem) then Stay(s) else Region([], s.(deletion := Cleaning(0, true)))
  }

  function Perform(s: Sys, op: Op): Region {
    match op
    case Add(metainfo, publish, write, cleanup) =>
      if !s.duty.Idle? || Going(s.mem) then Stay(s)
      else if metainfo || s.disk.final then AddFinal(s, publish, write, cleanup) // an existing metainfo wins over a magnet
      else AddMagnet(s, publish, write, cleanup)
    case Resolve(publish, write, cleanup) =>
      if !s.duty.Idle? || Going(s.mem) then Stay(s) else ResolveFinal(s, publish, write, cleanup)
    case RecordFailure(write) => if !Live(s.mem) then Stay(s) else Rewrite(s, Error, write)
    case Retry(write) =>
      if !s.duty.Idle? || (s.mem != Some(Adding) && s.mem != Some(Error)) then Stay(s) else Rewrite(s, Adding, write)
    case Edit(write) => if !s.duty.Idle? || !Live(s.mem) then Stay(s) else Rewrite(s, s.mem.value, write)
    case CleanPending(remove) =>
      if !s.duty.DropPending? then Stay(s)
      else
        var d := if remove.Failed? then s.disk else s.disk.(pending := false);
        Region([d], s.(disk := d, duty := Idle))
    case BeginUpload => if !s.duty.Idle? || s.mem != Some(Ready) then Stay(s) else Region([], s.(duty := Uploading))
    case EndUpload(written) =>
      if !s.duty.Uploading? then Stay(s)
      else
        var d := s.disk.(subtitles := s.disk.subtitles || written);
        Region([d], s.(disk := d, duty := Idle))
    case Mark(write) =>
      if !s.duty.Idle? || s.mem.None? || !s.deletion.NoDeletion? then Stay(s)
      else
        var d := WithSidecar(s.disk, Deleting, write);
        Region([d], if write.Done? then Sys(d, Some(Deleting), Idle, Cleaning(0, true)) else s.(disk := d))
    case Clean(remove) => CleanStage(s, remove)
    case Conclude(remove, write) => ConcludeDeletion(s, remove, write)
    case Resume => ResumeDeletion(s)
    case Restore(write, same) =>
      if !s.duty.Idle? || !Live(s.mem) || MissingFile(s) then Stay(s)
      else if s.disk.final && s.mem.value.Ready? && same then Region([], s.(duty := DropPending))
      else if s.disk.final then
        var r := Rewrite(s, Ready, write);
        if write.Done? then r.(after := r.after.(duty := DropPending)) else r
      else Rewrite(s, Adding, write)
  }

  /** The errors a restart reports when a live entry lacks its files. */
  predicate MissingFile(s: Sys) {
    Live(s.mem) && if s.mem.value.Ready? then !s.disk.final else !s.disk.final && !s.disk.pending
  }

  /** A restart knows only the disk. */
  function Boot(d: Disk): Sys {
    Sys(d, d.sidecar, Idle, NoDeletion)
  }

  /** An operation completes, or the process dies after its k-th file operation. */
  datatype Step = Complete(op: Op) | Crash(op: Op, k: nat)

  function Next(s: Sys, step: Step): Sys {
    var r := Perform(s, step.op);
    match step
    case Complete(_) => r.after
    case Crash(_, k) => Boot(if k < |r.points| then r.points[k] else s.disk)
  }

  function Run(steps: seq<Step>): Sys {
    if steps == [] then Boot(Disk(None, false, false, false))
    else Next(Run(steps[..|steps| - 1]), steps[|steps| - 1])
  }

  // ------------------------------------------------------------------ crash safety

  predicate Backed(status: Option<Status>, d: Disk) {
    Live(status) ==> d.final || (!status.value.Ready? && d.pending)
  }

  /** What the sidecar promises is on disk. */
  predicate CrashSafe(d: Disk) {
    Backed(d.sidecar, d)
  }

  /** The files the first stages of a deletion remove are gone. */
  predicate CleanedUpTo(d: Disk, stage: nat) {
    && (stage > 0 ==> !d.final)
    && (stage > 1 ==> !d.pending)
    && (stage > 2 ==> !d.subtitles)
  }

  predicate Inv(s: Sys) {
    && CrashSafe(s.disk) && Backed(s.mem, s.disk)
    && (Going(s.mem) ==> !Live(s.disk.sidecar))
    && (s.duty.DropPending? ==> s.disk.final && Live(s.mem))
    && (s.duty.Uploading? ==> Live(s.mem))
    && (s.deletion.Cleaning? ==>
          && Going(s.mem) && s.duty.Idle? && s.deletion.stage <= 3
          && (s.deletion.clean ==> CleanedUpTo(s.disk, s.deletion.stage)))
  }

  /** An add whose sidecar write took effect but reported an error, and which then takes back the file
      it had published. */
  predicate Torn(s: Sys, op: Op) {
    && op.Add? && s.duty.Idle? && !Going(s.mem)
    && op.publish.Done? && op.write.Unsynced? && !op.cleanup.Failed?
    && (if op.metainfo || s.disk.final then !s.disk.final else !s.disk.pending)
  }

  ghost predicate PointsSafe(r: Region) {
    forall k :: 0 <= k < |r.points| ==> CrashSafe(r.points[k])
  }

  lemma AddSafe(s: Sys, op: Op)
    requires Inv(s) && op.Add?
    ensures PointsSafe(Perform(s, op)) <==> !Torn(s, op)
    ensures !Torn(s, op) ==> Inv(Perform(s, op).after)
  {
    if Torn(s, op) {
      assert !CrashSafe(Perform(s, op).points[2]);
    }
  }

  lemma DeletionSafe(s: Sys, op: Op)
    requires Inv(s) && Deletes(op)
    ensures PointsSafe(Perform(s, op)) && Inv(Perform(s, op).after)
  {
  }

  lemma OtherSafe(s: Sys, op: Op)
    requires Inv(s) && !op.Add? && !Deletes(op)
    ensures PointsSafe(Perform(s, op)) && Inv(Perform(s, op).after)
  {
  }

  /** Every operation is crash safe at each of its file operations, exactly unless it is a torn add. */
  lemma SafeUnlessTorn(s: Sys, op: Op)
    requires Inv(s)
    ensures PointsSafe(Perform(s, op)) <==> !Torn(s, op)
    ensures !Torn(s, op) ==> Inv(Perform(s, op).after)
  {
    if op.Add? {
      AddSafe(s, op);
    } else if Deletes(op) {
      DeletionSafe(s, op);
    } else {
      OtherSafe(s, op);
    }
  }

  ghost predicate NeverTorn(steps: seq<Step>) {
    forall i :: 0 <= i < |steps| ==> !Torn(Run(steps[..i]), steps[i].op)
  }

  lemma NeverTornFront(steps: seq<Step>)
    requires steps != [] && NeverTorn(steps)
    ensures NeverTorn(steps[..|steps| - 1]) && !Torn(Run(steps[..|steps| - 1]), steps[|steps| - 1].op)
  {
    var front := steps[..|steps| - 1];
    forall i | 0 <= i < |front| ensures !Torn(Run(front[..i]), front[i].op) {
      assert front[..i] == steps[..i];
    }
  }

  /** In every run without a torn add, with crashes and restarts anywhere, the invariant holds. */
  lemma {:induction false} RunInv(steps: seq<Step>)
    requires NeverTorn(steps)
    ensures Inv(Run(steps))
  {
    if steps != [] {
      NeverTornFront(steps);
      var front := steps[..|steps| - 1];
      RunInv(front);
      SafeUnlessTorn(Run(front), steps[|steps| - 1].op);
    }
  }

  /** Whatever was going on when the process died, the restart never misses a file. */
  lemma RestartFindsItsFiles(steps: seq<Step>, op: Op, k: nat)
    requires NeverTorn(steps) && !Torn(Run(steps), op)
    ensures !MissingFile(Next(Run(steps), Crash(op, k)))
  {
    RunInv(steps);
    SafeUnlessTorn(Run(steps), op);
    SafeBoot(if k < |Perform(Run(steps), op).points| then Perform(Run(steps), op).points[k] else Run(steps).disk);
  }

  lemma SafeBoot(d: Disk)
    ensures CrashSafe(d) <==> !MissingFile(Boot(d))
  {
  }

  /** A torn add leaves a disk on which a restart fails. */
  lemma TornAddBreaksRestart()
    ensures var s := Run([Complete(Add(true, Done, Unsynced, Done))]);
      s.disk == Disk(Some(Ready), false, false, false) && MissingFile(Boot(s.disk))
  {
    var steps := [Complete(Add(true, Done, Unsynced, Done))];
    assert steps[..0] == [];
    assert Run(steps) == Next(Run([]), steps[0]);
  }

  // -------------------------------------------------------------------- deletion

  /** Memory knows of every deletion the disk knows of. */
  predicate Agree(s: Sys) {
    Going(s.disk.sidecar) ==> Going(s.mem)
  }

  /** A deletion marked on disk while the caller was told that it failed. */
  predicate Unseen(s: Sys, op: Op) {
    op.Mark? && op.write.Unsynced? && s.duty.Idle? && Live(s.mem) && s.deletion.NoDeletion?
  }

  /** From one disk to the next: a deletion in progress stays one until the sidecar is gone. */
  predicate Onward(a: Disk, b: Disk) {
    Going(a.sidecar) ==> b.sidecar.None? || Going(b.sidecar)
  }

  /** The sidecar is the last of the torrent's files to go. */
  predicate LastOut(a: Disk, b: Disk) {
    a.sidecar.Some? && b.sidecar.None? ==> !b.final && !b.pending && !b.subtitles
  }

  /** The disk just before the k-th file operation. */
  function Earlier(d: Disk, points: seq<Disk>, k: nat): Disk
    requires k <= |points|
  {
    if k == 0 then d else points[k - 1]
  }

  ghost predicate Chained(d: Disk, points: seq<Disk>) {
    forall k :: 0 <= k < |points| ==> Onward(Earlier(d, points, k), points[k])
  }

  ghost predicate LastOuts(d: Disk, points: seq<Disk>) {
    forall k :: 0 <= k < |points| ==> LastOut(Earlier(d, points, k), points[k])
  }

  predicate Deletes(op: Op) {
    op.Mark? || op.Clean? || op.Conclude? || op.Resume?
  }

  lemma OnwardAt(s: Sys, op: Op, k: nat)
    requires Inv(s) && Agree(s) && k < |Perform(s, op).points|
    ensures Onward(Earlier(s.disk, Perform(s, op).points, k), Perform(s, op).points[k])
  {
    if Deletes(op) {
      DeletionOnwardAt(s, op, k);
    } else if op.Add? || op.Resolve? {
      PublishOnwardAt(s, op, k);
    }
  }

  lemma DeletionOnwardAt(s: Sys, op: Op, k: nat)
    requires Inv(s) && Deletes(op) && k < |Perform(s, op).points|
    ensures Onward(Earlier(s.disk, Perform(s, op).points, k), Perform(s, op).points[k])
  {
    assert k == 0 || k == 1;
  }

  lemma PublishOnwardAt(s: Sys, op: Op, k: nat)
    requires Inv(s) && Agree(s) && (op.Add? || op.Resolve?) && k < |Perform(s, op).points|
    ensures Onward(Earlier(s.disk, Perform(s, op).points, k), Perform(s, op).points[k])
  {
    assert !Going(s.disk.sidecar);
    assert k == 0 || k == 1 || k == 2;
  }

  /** Between any two file operations: a deletion never turns back, and memory keeps up with it
      exactly unless its mark was written unseen. */
  lemma DeletionOnward(s: Sys, op: Op)
    requires Inv(s) && Agree(s)
    ensures Chained(s.disk, Perform(s, op).points)
    ensures Agree(Perform(s, op).after) <==> !Unseen(s, op)
  {
    forall k | 0 <= k < |Perform(s, op).points|
      ensures Onward(Earlier(s.disk, Perform(s, op).points, k), Perform(s, op).points[k])
    {
      OnwardAt(s, op, k);
    }
    AgreeUnlessUnseen(s, op);
  }

  lemma AgreeUnlessUnseen(s: Sys, op: Op)
    requires Inv(s) && Agree(s)
    ensures Agree(Perform(s, op).after) <==> !Unseen(s, op)
  {
  }

  lemma LastOutAt(s: Sys, op: Op, k: nat)
    requires Inv(s) && k < |Perform(s, op).points|
    ensures LastOut(Earlier(s.disk, Perform(s, op).points, k), Perform(s, op).points[k])
  {
    if op.Conclude? {
      assert k == 0 || k == 1;
    } else {
      KeepsSidecar(s, op, k);
    }
  }

  lemma KeepsSidecar(s: Sys, op: Op, k: nat)
    requires k < |Perform(s, op).points| && !op.Conclude?
    ensures Earlier(s.disk, Perform(s, op).points, k).sidecar.Some? ==> Perform(s, op).points[k].sidecar.Some?
  {
    assert k == 0 || k == 1 || k == 2;
  }

  lemma SidecarLast(s: Sys, op: Op)
    requires Inv(s)
    ensures LastOuts(s.disk, Perform(s, op).points)
  {
    forall k | 0 <= k < |Perform(s, op).points|
      ensures LastOut(Earlier(s.disk, Perform(s, op).points, k), Perform(s, op).points[k])
    {
      LastOutAt(s, op, k);
    }
  }

  ghost predicate NeverUnseen(steps: seq<Step>) {
    forall i :: 0 <= i < |steps| ==> !Unseen(Run(steps[..i]), steps[i].op)
  }

  lemma {:induction false} RunAgrees(steps: seq<Step>)
    requires NeverTorn(steps) && NeverUnseen(steps)
    ensures Agree(Run(steps))
  {
    if steps != [] {
      var front := steps[..|steps| - 1];
      NeverTornFront(steps);
      forall i | 0 <= i < |front| ensures !Unseen(Run(front[..i]), front[i].op) {
        assert front[..i] == steps[..i];
      }
      RunAgrees(front);
      RunInv(front);
      DeletionOnward(Run(front), steps[|steps| - 1].op);
    }
  }

  /** In every run, every operation, between any two of its file operations: nothing leaves deleting or
      delete_failed except by disappearing, and then no owned file is left behind. */
  lemma DeletionNeverTurnsBack(steps: seq<Step>, op: Op)
    requires NeverTorn(steps) && NeverUnseen(steps)
    ensures Chained(Run(steps).disk, Perform(Run(steps), op).points)
    ensures LastOuts(Run(steps).disk, Perform(Run(steps), op).points)
  {
    RunInv(steps);
    RunAgrees(steps);
    DeletionOnward(Run(steps), op);
    SidecarLast(Run(steps), op);
  }

  /** After an unseen mark the next edit of the entry revives it on disk. */
  lemma UnseenMarkTurnsBack(s: Sys)
    requires Inv(s) && s.duty.Idle? && Live(s.mem)
    ensures var t := Perform(s, Mark(Unsynced)).after;
      Going(t.disk.sidecar) && Perform(t, Edit(Done)).after.disk.sidecar == s.mem
  {
  }

  // ---- deletions across restarts

  const NOTHING := Disk(None, false, false, false)

  /** The disk says that the torrent is being deleted, or holds nothing of it any more. */
  predicate Vanishing(d: Disk) {
    Going(d.sidecar) || d == NOTHING
  }

  /** Memory knows as much. */
  predicate Departing(s: Sys) {
    Inv(s) && Vanishing(s.disk) && (s.mem.None? || Going(s.mem)) && (s.mem.None? ==> s.disk == NOTHING)
  }

  lemma BootDeparts(d: Disk)
    requires Vanishing(d)
    ensures Departing(Boot(d))
  {
  }

  /** A step of the deletion, whatever its file operations report: the disk keeps saying so at each of
      them, and memory afterwards. */
  lemma DeletionStep(s: Sys, op: Op)
    requires Departing(s) && (op.Resume? || op.Clean? || op.Conclude?)
    ensures Departing(Perform(s, op).after)
    ensures forall k :: 0 <= k < |Perform(s, op).points| ==> Vanishing(Perform(s, op).points[k])
  {
    SafeUnlessTorn(s, op);
    assert |Perform(s, op).points| <= 2;
  }

  /** Through every sequence of deletion steps and crashes the torrent is being deleted or gone. */
  lemma {:induction false} DeletionRun(d: Disk, steps: seq<Step>)
    requires Vanishing(d)
    requires forall i :: 0 <= i < |steps| ==> var op := steps[i].op; op.Resume? || op.Clean? || op.Conclude?
    ensures Departing(RunFrom(Boot(d), steps))
  {
    BootDeparts(d);
    if steps != [] {
      var front, step := steps[..|steps| - 1], steps[|steps| - 1];
      DeletionRun(d, front);
      var s := RunFrom(Boot(d), front);
      DeletionStep(s, step.op);
      if step.Crash? {
        BootDeparts(if step.k < |Perform(s, step.op).points| then Perform(s, step.op).points[step.k] else s.disk);
      }
    }
  }

  function Stages(s: Sys, final_: Outcome, pending_: Outcome, subtitles_: Outcome): Sys {
    CleanStage(CleanStage(CleanStage(s, final_).after, pending_).after, subtitles_).after
  }

  /** A restart that resumes the deletion and attempts every stage. */
  function Attempt(d: Disk, final_: Outcome, pending_: Outcome, subtitles_: Outcome, remove: Outcome, write: Outcome): Sys {
    ConcludeDeletion(Stages(ResumeDeletion(Boot(d)).after, final_, pending_, subtitles_), remove, write).after
  }

  lemma StagesDone(s: Sys, final_: Outcome, pending_: Outcome, subtitles_: Outcome)
    requires Departing(s) && s.deletion == Cleaning(0, true)
    ensures var t := Stages(s, final_, pending_, subtitles_);
      Departing(t) && t.deletion == Cleaning(3, final_.Done? && pending_.Done? && subtitles_.Done?)
  {
    var a := CleanStage(s, final_).after;
    var b := CleanStage(a, pending_).after;
    DeletionStep(s, Clean(final_));
    DeletionStep(a, Clean(pending_));
    DeletionStep(b, Clean(subtitles_));
  }

  lemma ConcludeDecides(s: Sys, remove: Outcome, write: Outcome)
    requires Departing(s) && s.deletion.Cleaning? && s.deletion.stage == 3
    ensures var u := ConcludeDeletion(s, remove, write).after;
      && Departing(u) && u.deletion.NoDeletion? && (u != Boot(NOTHING) ==> Going(u.mem))
      && (u == Boot(NOTHING) <==> s.deletion.clean && remove.Done?)
  {
    DeletionStep(s, Conclude(remove, write));
  }

  lemma AttemptDecides(d: Disk, final_: Outcome, pending_: Outcome, subtitles_: Outcome, remove: Outcome, write: Outcome)
    requires Vanishing(d)
    ensures var u := Attempt(d, final_, pending_, subtitles_, remove, write);
      && Departing(u) && u.deletion.NoDeletion?
      && (u == Boot(NOTHING) <==>
            d == NOTHING || (final_.Done? && pending_.Done? && subtitles_.Done? && remove.Done?))
      && (u != Boot(NOTHING) ==> Going(u.mem))
  {
    BootDeparts(d);
    if d != NOTHING {
      var s := ResumeDeletion(Boot(d)).after;
      DeletionStep(Boot(d), Resume);
      StagesDone(s, final_, pending_, subtitles_);
      ConcludeDecides(Stages(s, final_, pending_, subtitles_), remove, write);
    }
  }

  /** From any deletion on disk, after any sequence of deletion steps and crashes: the next restart leaves
      nothing behind if and only if nothing was left or all its removals succeed; otherwise the torrent is
      still being deleted, on disk and in memory, and the restart after that decides in the same way. */
  lemma ResumedDeletionCompletes(d: Disk, steps: seq<Step>, final_: Outcome, pending_: Outcome, subtitles_: Outcome,
                                 remove: Outcome, write: Outcome)
    requires Going(d.sidecar)
    requires forall i :: 0 <= i < |steps| ==> var op := steps[i].op; op.Resume? || op.Clean? || op.Conclude?
    ensures var left := RunFrom(Boot(d), steps).disk;
      var u := Attempt(left, final_, pending_, subtitles_, remove, write);
      && (u == Boot(NOTHING) <==>
            left == NOTHING || (final_.Done? && pending_.Done? && subtitles_.Done? && remove.Done?))
      && (u != Boot(NOTHING) ==> Going(u.mem) && Vanishing(u.disk))
  {
    DeletionRun(d, steps);
    AttemptDecides(RunFrom(Boot(d), steps).disk, final_, pending_, subtitles_, remove, write);
  }

  // ------------------------------------------------------------------- durability

  predicate Owned(s: Sys) {
    Inv(s) && s.disk.final && Live(s.disk.sidecar) && Live(s.mem)
  }

  lemma OwnedPoint(s: Sys, op: Op, k: nat)
    requires Owned(s) && !op.Mark? && k < |Perform(s, op).points|
    ensures Perform(s, op).points[k].final && Live(Perform(s, op).points[k].sidecar)
  {
    assert k == 0 || k == 1;
  }

  lemma OwnedStays(s: Sys, op: Op)
    requires Owned(s) && !op.Mark?
    ensures Owned(Perform(s, op).after)
    ensures forall k :: 0 <= k < |Perform(s, op).points| ==> Owned(Boot(Perform(s, op).points[k]))
  {
    SafeUnlessTorn(s, op);
    assert !Torn(s, op);
    forall k | 0 <= k < |Perform(s, op).points| ensures Owned(Boot(Perform(s, op).points[k])) {
      OwnedPoint(s, op, k);
    }
    OwnedAfter(s, op);
  }

  lemma OwnedAfterPublish(s: Sys, op: Op)
    requires Owned(s) && (op.Add? || op.Resolve?)
    ensures var t := Perform(s, op).after; t.disk.final && Live(t.disk.sidecar) && Live(t.mem)
  {
  }

  lemma OwnedAfter(s: Sys, op: Op)
    requires Owned(s) && !op.Mark?
    ensures var t := Perform(s, op).after; t.disk.final && Live(t.disk.sidecar) && Live(t.mem)
  {
    if op.Add? || op.Resolve? {
      OwnedAfterPublish(s, op);
    }
  }

  ghost function RunFrom(s: Sys, steps: seq<Step>): Sys {
    if steps == [] then s else Next(RunFrom(s, steps[..|steps| - 1]), steps[|steps| - 1])
  }

  /** A torrent whose add reported success stays restorable through every later run, crashes, torn
      adds and failed writes included, until someone asks to delete it. */
  lemma {:induction false} AddedSurvives(s: Sys, publish: Outcome, write: Outcome, cleanup: Outcome, steps: seq<Step>)
    requires Inv(s) && s.duty.Idle? && !Going(s.mem)
    requires publish.Done? && write.Done?
    requires forall i :: 0 <= i < |steps| ==> !steps[i].op.Mark?
    ensures var t := RunFrom(Perform(s, Add(true, publish, write, cleanup)).after, steps);
      t.disk.final && Live(t.disk.sidecar) && Live(t.mem) && !MissingFile(t)
    ensures Owned(RunFrom(Perform(s, Add(true, publish, write, cleanup)).after, steps))
  {
    var s0 := Perform(s, Add(true, publish, write, cleanup)).after;
    SafeUnlessTorn(s, Add(true, publish, write, cleanup));
    if steps != [] {
      var front := steps[..|steps| - 1];
      AddedSurvives(s, publish, write, cleanup, front);
      OwnedStays(RunFrom(s0, front), steps[|steps| - 1].op);
    }
  }
}
