/** What the operations on a registry entry are for: the status each of them asks for, when it gets it, and
    how long it lasts through crashes and restarts. */
module RegistryRuns {
  import opened Types
  import opened RegistryModel

  /** The status an operation asks for; none when it leaves the entry alone. */
  function Asked(s: Sys, op: Op): Option<Status> {
    match op
    case Add(metainfo, _, _, _) =>
      if !s.duty.Idle? || Going(s.mem) then None else if metainfo || s.disk.final then Some(Ready) else Some(Adding)
    case Resolve(_, _, _) => if !s.duty.Idle? || !Live(s.mem) then None else Some(Ready)
    case RecordFailure(_) => if Live(s.mem) then Some(Error) else None
    case Retry(_) => if s.duty.Idle? && (s.mem == Some(Adding) || s.mem == Some(Error)) then Some(Adding) else None
    case Edit(_) => if s.duty.Idle? && Live(s.mem) then s.mem else None
    case Mark(_) => if s.duty.Idle? && s.mem.Some? && s.deletion.NoDeletion? then Some(Deleting) else None
    case Restore(_, same) =>
      if !s.duty.Idle? || !Live(s.mem) || MissingFile(s) || (s.disk.final && s.mem == Some(Ready) && same) then None
      else if s.disk.final then Some(Ready) else Some(Adding)
    case _ => None
  }

  /** How publishing the file it needs went; operations without one have nothing to publish. */
  function Publishing(op: Op): Outcome {
    if op.Add? || op.Resolve? then op.publish else Done
  }

  function Writing(op: Op): Outcome {
    if op.Add? || op.Resolve? || op.RecordFailure? || op.Retry? || op.Edit? || op.Mark? || op.Restore? then op.write else Done
  }

  /** An operation other than the end of a deletion changes the status exactly to what it asks for: in
      memory if and only if the file was published and the sidecar write reported success, on disk if and
      only if the write was reached and took effect. */
  lemma StatusDecides(s: Sys, op: Op)
    requires Inv(s) && !op.Conclude?
    ensures var t := Perform(s, op).after; var asked := Asked(s, op);
      && t.mem == (if asked.Some? && Publishing(op).Done? && Writing(op).Done? then asked else s.mem)
      && t.disk.sidecar ==
           (if asked.Some? && Publishing(op).Done? && !Writing(op).Failed? then asked else s.disk.sidecar)
  {
    if op.Add? {
      AddStatus(s, op);
    } else if op.Resolve? {
      ResolveStatus(s, op);
    }
  }

  lemma AddStatus(s: Sys, op: Op)
    requires Inv(s) && op.Add?
    ensures var t := Perform(s, op).after; var asked := Asked(s, op);
      && t.mem == (if asked.Some? && op.publish.Done? && op.write.Done? then asked else s.mem)
      && t.disk.sidecar == (if asked.Some? && op.publish.Done? && !op.write.Failed? then asked else s.disk.sidecar)
  {
  }

  lemma ResolveStatus(s: Sys, op: Op)
    requires Inv(s) && op.Resolve?
    ensures var t := Perform(s, op).after; var asked := Asked(s, op);
      && t.mem == (if asked.Some? && op.publish.Done? && op.write.Done? then asked else s.mem)
      && t.disk.sidecar == (if asked.Some? && op.publish.Done? && !op.write.Failed? then asked else s.disk.sidecar)
  {
  }

  /** A magnet's metainfo arrives: the entry is ready, with the metainfo in place, if and only if both the
      metainfo and the sidecar were written; until then it is what it was. */
  lemma ResolvedIsReady(s: Sys, publish: Outcome, write: Outcome, cleanup: Outcome)
    requires Inv(s) && s.duty.Idle? && (s.mem == Some(Adding) || s.mem == Some(Error))
    ensures var t := Perform(s, Resolve(publish, write, cleanup)).after;
      && (t.mem == Some(Ready) <==> publish.Done? && write.Done?)
      && (t.mem == Some(Ready) ==> ReadyKept(t) && t.duty.DropPending?)
      && (t.mem != Some(Ready) ==> t.mem == s.mem && (s.disk.final ==> t.disk.final))
  {
    StatusDecides(s, Resolve(publish, write, cleanup));
    SafeUnlessTorn(s, Resolve(publish, write, cleanup));
  }

  // ---------------------------------------------------------------------- how long it lasts

  /** Ready in memory and on disk, with the metainfo. */
  predicate ReadyKept(s: Sys) {
    Inv(s) && s.mem == Some(Ready) && s.disk.sidecar == Some(Ready) && s.disk.final
  }

  lemma ReadyPoint(s: Sys, op: Op, k: nat)
    requires ReadyKept(s) && !op.Mark? && !op.RecordFailure? && k < |Perform(s, op).points|
    ensures var d := Perform(s, op).points[k]; d.final && d.sidecar == Some(Ready)
  {
    assert k == 0 || k == 1;
  }

  lemma ReadyStays(s: Sys, op: Op)
    requires ReadyKept(s) && !op.Mark? && !op.RecordFailure?
    ensures ReadyKept(Perform(s, op).after)
    ensures forall k :: 0 <= k < |Perform(s, op).points| ==> ReadyKept(Boot(Perform(s, op).points[k]))
  {
    assert !Torn(s, op);
    SafeUnlessTorn(s, op);
    OwnedAfter(s, op);
    if !op.Conclude? {
      StatusDecides(s, op);
    }
    forall k | 0 <= k < |Perform(s, op).points| ensures ReadyKept(Boot(Perform(s, op).points[k])) {
      ReadyPoint(s, op, k);
    }
  }

  /** Once ready, a torrent is ready in memory and on disk with its metainfo through every later run,
      crashes, torn adds and failed writes included, until a metadata failure or a deletion. */
  lemma {:induction false} ReadyLasts(s: Sys, steps: seq<Step>)
    requires ReadyKept(s)
    requires forall i :: 0 <= i < |steps| ==> !steps[i].op.Mark? && !steps[i].op.RecordFailure?
    ensures ReadyKept(RunFrom(s, steps)) && !MissingFile(RunFrom(s, steps))
  {
    if steps != [] {
      ReadyLasts(s, steps[..|steps| - 1]);
      ReadyStays(RunFrom(s, steps[..|steps| - 1]), steps[|steps| - 1].op);
    }
  }

  /** Live in memory and on disk, with what its status promises. */
  predicate Restorable(s: Sys) {
    Inv(s) && Live(s.mem) && Live(s.disk.sidecar)
  }

  lemma RestorablePoint(s: Sys, op: Op, k: nat)
    requires Restorable(s) && !op.Mark? && !Torn(s, op) && k < |Perform(s, op).points|
    ensures Live(Perform(s, op).points[k].sidecar)
  {
    assert k == 0 || k == 1 || k == 2;
  }

  lemma RestorableStays(s: Sys, op: Op)
    requires Restorable(s) && !op.Mark? && !Torn(s, op)
    ensures Restorable(Perform(s, op).after)
    ensures forall k :: 0 <= k < |Perform(s, op).points| ==> Restorable(Boot(Perform(s, op).points[k]))
  {
    SafeUnlessTorn(s, op);
    if !op.Conclude? {
      StatusDecides(s, op);
    }
    forall k | 0 <= k < |Perform(s, op).points| ensures Restorable(Boot(Perform(s, op).points[k])) {
      RestorablePoint(s, op, k);
    }
  }

  ghost predicate NeverTornFrom(s: Sys, steps: seq<Step>) {
    forall i :: 0 <= i < |steps| ==> !Torn(RunFrom(s, steps[..i]), steps[i].op)
  }

  /** An entry of any kind, a magnet that still waits for its metainfo included, is restorable after every
      run without a torn add, until a deletion is asked for. */
  lemma {:induction false} EntrySurvives(s: Sys, steps: seq<Step>)
    requires Restorable(s) && NeverTornFrom(s, steps)
    requires forall i :: 0 <= i < |steps| ==> !steps[i].op.Mark?
    ensures Restorable(RunFrom(s, steps)) && !MissingFile(RunFrom(s, steps))
  {
    if steps != [] {
      var front := steps[..|steps| - 1];
      assert forall i :: 0 <= i < |front| ==> front[..i] == steps[..i] && front[i] == steps[i];
      EntrySurvives(s, front);
      RestorableStays(RunFrom(s, front), steps[|steps| - 1].op);
    }
  }

  // ------------------------------------------------------------------------- other files

  /** The other files change only where the operation is about them: the stale magnet and the subtitles. */
  lemma FilesDecide(s: Sys, op: Op)
    requires Inv(s) && !Deletes(op)
    ensures var t := Perform(s, op).after;
      && t.disk.subtitles == (s.disk.subtitles || (op.EndUpload? && s.duty.Uploading? && op.written))
      && (op.CleanPending? && s.duty.DropPending? ==>
            t.duty.Idle? && t.disk == s.disk.(pending := s.disk.pending && op.remove.Failed?))
      && (op.BeginUpload? ==> (t.duty.Uploading? <==> s.duty.Uploading? || (s.duty.Idle? && s.mem == Some(Ready))))
      && (op.EndUpload? ==> !t.duty.Uploading?)
  {
  }

  /** A successful removal stage of a deletion takes its own file, and only that one. */
  lemma StageRemoves(s: Sys, remove: Outcome)
    requires Inv(s) && s.deletion.Cleaning? && s.deletion.stage < 3
    ensures var d := Perform(s, Clean(remove)).after.disk; var taken := !remove.Failed?;
      && d.sidecar == s.disk.sidecar
      && d.final == (s.disk.final && !(taken && s.deletion.stage == 0))
      && d.pending == (s.disk.pending && !(taken && s.deletion.stage == 1))
      && d.subtitles == (s.disk.subtitles && !(taken && s.deletion.stage == 2))
  {
  }

  /** An operation leaves the disk as its last file operation did. */
  lemma LastPoint(s: Sys, op: Op)
    ensures var r := Perform(s, op);
      r.after.disk == if r.points == [] then s.disk else r.points[|r.points| - 1]
  {
  }

  /** An add whose sidecar could not be written, and metainfo for an entry that is gone, take back the file
      they published unless that fails too. */
  lemma TakesBack(s: Sys, op: Op)
    requires s.duty.Idle? && (op.Add? || op.Resolve?) && op.publish.Done? && !op.cleanup.Failed?
    requires (op.Add? && !Going(s.mem) && op.write.Failed?) || (op.Resolve? && s.mem.None?)
    ensures Perform(s, op).after.disk == s.disk
  {
  }

  /** Once the metainfo is in place with a ready entry, and only then, the stale magnet is due for removal. */
  lemma DutyDecides(s: Sys, op: Op)
    requires Inv(s) && s.duty.Idle? && !op.BeginUpload?
    ensures Perform(s, op).after.duty.DropPending? <==>
      || (Asked(s, op) == Some(Ready) && !op.Edit? && Publishing(op).Done? && Writing(op).Done?)
      || (op.Restore? && s.mem == Some(Ready) && s.disk.final && op.same)
    ensures !Perform(s, op).after.duty.Uploading?
  {
    if op.Add? {
      AddDuty(s, op);
    }
  }

  lemma AddDuty(s: Sys, op: Op)
    requires Inv(s) && s.duty.Idle? && op.Add?
    ensures Perform(s, op).after.duty.DropPending? <==> Asked(s, op) == Some(Ready) && op.publish.Done? && op.write.Done?
    ensures !Perform(s, op).after.duty.Uploading?
  {
  }

  /** The end of a deletion on disk: the sidecar says that it failed if that was written; else it is gone if
      everything was clean and its removal took effect; else it is as before. No other file is touched. */
  lemma ConcludeDoes(s: Sys, remove: Outcome, write: Outcome)
    requires s.deletion.Cleaning? && s.deletion.stage == 3
    ensures var d := Perform(s, Conclude(remove, write)).after.disk;
      var removed := s.deletion.clean && !remove.Failed?;
      && d == s.disk.(sidecar := d.sidecar)
      && d.sidecar == (if s.deletion.clean && remove.Done? then None
                       else if !write.Failed? then Some(DeleteFailed)
                       else if removed then None else s.disk.sidecar)
      && Perform(s, Conclude(remove, write)).after.mem ==
           (if s.deletion.clean && remove.Done? then None else if write.Done? then Some(DeleteFailed) else s.mem)
  {
  }
}
