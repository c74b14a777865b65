/** The registry's operations on one torrent, in the order in which they touch the disk. */
module Registry {
  import opened Types
  import opened RegistryModel

  class Torrent {
    // durable files
    var sidecar: Option<Status>
    var final: bool
    var pending: bool
    var subtitles: bool
    // memory
    var state: Option<Status>
    var duty: Duty
    var deletion: Deletion
    ghost var trail: seq<Disk> // the disk after each file operation

    ghost function Disk(): Disk
      reads this
    {
      RegistryModel.Disk(sidecar, final, pending, subtitles)
    }

    ghost function State(): Sys
      reads this
    {
      Sys(Disk(), state, duty, deletion)
    }

    /** The operation did to disk and memory what the model says, crash point by crash point. */
    twostate predicate Did(op: Op)
      reads this
    {
      && State() == Perform(old(State()), op).after
      && trail == old(trail) + Perform(old(State()), op).points
    }

    /** A restart knows only the disk. */
    constructor (d: Disk)
      ensures State() == Boot(d) && trail == []
    {
      sidecar, final, pending, subtitles := d.sidecar, d.final, d.pending, d.subtitles;
      state, duty, deletion := d.sidecar, Idle, NoDeletion;
      trail := [];
    }

    // ----------------------------------------------------------- file operations

    method WriteSidecar(status: Status, o: Outcome) returns (ok: bool)
      modifies this`sidecar, this`trail
      ensures ok == o.Done? && Disk() == WithSidecar(old(Disk()), status, o) && trail == old(trail) + [Disk()]
    {
      if !o.Failed? {
        sidecar := Some(status);
      }
      trail := trail + [Disk()];
      return o.Done?;
    }

    /** Publishes without replacing; an existing file is validated instead. */
    method PublishFinal(o: Outcome) returns (created: bool, ok: bool)
      modifies this`final, this`trail
      ensures created == Created(old(final), o) && ok == o.Done?
      ensures Disk() == WithFinal(old(Disk()), o) && trail == old(trail) + [Disk()]
    {
      created := !final && o.Done?;
      if !o.Failed? {
        final := true;
      }
      trail := trail + [Disk()];
      return created, o.Done?;
    }

    method PublishPending(o: Outcome) returns (created: bool, ok: bool)
      modifies this`pending, this`trail
      ensures created == Created(old(pending), o) && ok == o.Done?
      ensures Disk() == WithPending(old(Disk()), o) && trail == old(trail) + [Disk()]
    {
      created := !pending && o.Done?;
      if !o.Failed? {
        pending := true;
      }
      trail := trail + [Disk()];
      return created, o.Done?;
    }

    /** Removes the metainfo, the magnet or the subtitles. */
    method Remove(stage: nat, o: Outcome) returns (ok: bool)
      modifies this`final, this`pending, this`subtitles, this`trail
      ensures ok == o.Done? && trail == old(trail) + [Disk()]
      ensures Disk() == if o.Failed? then old(Disk()) else Without(old(Disk()), stage)
    {
      if !o.Failed? {
        if stage == 0 {
          final := false;
        } else if stage == 1 {
          pending := false;
        } else {
          subtitles := false;
        }
      }
      trail := trail + [Disk()];
      return o.Done?;
    }

    // ---------------------------------------------------------------- operations

    method AddManaged(metainfo: bool, publish: Outcome, write: Outcome, cleanup: Outcome) returns (ok: bool)
      modifies this
      ensures Did(Add(metainfo, publish, write, cleanup))
      ensures ok ==> state == Some(if metainfo || old(final) then Ready else Adding)
    {
      if duty != Idle || Going(state) {
        return false;
      }
      if metainfo || final {
        ok := AddMetainfo(publish, write, cleanup);
      } else {
        ok := AddPending(publish, write, cleanup);
      }
    }

    method AddMetainfo(publish: Outcome, write: Outcome, cleanup: Outcome) returns (ok: bool)
      modifies this
      ensures State() == AddFinal(old(State()), publish, write, cleanup).after
      ensures trail == old(trail) + AddFinal(old(State()), publish, write, cleanup).points
      ensures ok ==> state == Some(Ready)
    {
      var created;
      created, ok := PublishFinal(publish);
      if !ok {
        return;
      }
      ok := WriteSidecar(Ready, write);
      if ok {
        state, duty := Some(Ready), DropPending;
      } else if created {
        var _ := Remove(0, if cleanup.Failed? then Failed else Done);
      }
    }

    method AddPending(publish: Outcome, write: Outcome, cleanup: Outcome) returns (ok: bool)
      modifies this
      ensures State() == AddMagnet(old(State()), publish, write, cleanup).after
      ensures trail == old(trail) + AddMagnet(old(State()), publish, write, cleanup).points
      ensures ok ==> state == Some(Adding)
    {
      var created;
      created, ok := PublishPending(publish);
      if !ok {
        return;
      }
      ok := WriteSidecar(Adding, write);
      if ok {
        state := Some(Adding);
      } else if created {
        var _ := Remove(1, if cleanup.Failed? then Failed else Done);
      }
    }

    /** The metadata fetch of a magnet persists what it found. */
    method ResolveMagnet(publish: Outcome, write: Outcome, cleanup: Outcome) returns (ok: bool)
      modifies this
      ensures Did(Resolve(publish, write, cleanup))
    {
      if duty != Idle || Going(state) {
        return false;
      }
      var created;
      created, ok := PublishFinal(publish);
      if !ok {
        return;
      }
      if state.None? {
        if created && !cleanup.Failed? {
          var _ := Remove(0, cleanup);
        }
        return false;
      }
      ok := WriteSidecar(Ready, write);
      if ok {
        state, duty := Some(Ready), DropPending;
      }
    }

    method SetState(status: Status, write: Outcome) returns (ok: bool)
      modifies this`sidecar, this`state, this`trail
      ensures State() == Rewrite(old(State()), status, write).after
      ensures trail == old(trail) + Rewrite(old(State()), status, write).points && ok == write.Done?
    {
      ok := WriteSidecar(status, write);
      if ok {
        state := Some(status);
      }
    }

    method RecordMetadataFailure(write: Outcome)
      modifies this`sidecar, this`state, this`trail
      ensures Did(RecordFailure(write))
    {
      if Live(state) {
        var _ := SetState(Error, write);
      }
    }

    method RetryMetadata(write: Outcome)
      modifies this`sidecar, this`state, this`trail
      ensures Did(Retry(write))
    {
      if duty == Idle && (state == Some(Adding) || state == Some(Error)) {
        var _ := SetState(Adding, write);
      }
    }

    method EditEntry(write: Outcome)
      modifies this`sidecar, this`state, this`trail
      ensures Did(Edit(write))
    {
      if duty == Idle && Live(state) {
        var _ := SetState(state.value, write);
      }
    }

    method RemovePending(remove: Outcome)
      modifies this
      ensures Did(CleanPending(remove))
    {
      if duty == DropPending {
        var _ := Remove(1, remove);
        duty := Idle;
      }
    }

    /** Marks the torrent as deleting before anything is cleaned up. */
    method DeleteByHash(write: Outcome) returns (started: bool)
      modifies this
      ensures Did(Mark(write))
      ensures started ==> sidecar == state == Some(Deleting)
    {
      if duty != Idle || state.None? || !deletion.NoDeletion? {
        return false;
      }
      started := WriteSidecar(Deleting, write);
      if started {
        state, deletion := Some(Deleting), Cleaning(0, true);
      }
    }

    method PerformDeleteStage(remove: Outcome)
      modifies this
      ensures Did(Clean(remove))
    {
      if deletion.Cleaning? && deletion.stage < 3 {
        var ok := Remove(deletion.stage, remove);
        deletion := Cleaning(deletion.stage + 1, deletion.clean && ok);
      }
    }

    method FinishDelete(remove: Outcome, write: Outcome)
      modifies this
      ensures Did(Conclude(remove, write))
    {
      if deletion.Cleaning? && deletion.stage == 3 {
        var removed := false;
        if deletion.clean {
          if !remove.Failed? {
            sidecar := None;
          }
          removed := remove.Done?;
        }
        trail := trail + [Disk()];
        if removed {
          state := None;
        } else {
          var _ := SetState(DeleteFailed, write);
        }
        deletion := NoDeletion;
      }
    }

    /** The background deletion, when no other operation comes between its stages: it either leaves
        nothing on disk or leaves a sidecar that says so. */
    method RunDelete(final_: Outcome, pending_: Outcome, subtitles_: Outcome, remove: Outcome, write: Outcome)
      requires Inv(State()) && deletion == Cleaning(0, true)
      modifies this
      ensures Inv(State()) && deletion == NoDeletion
      ensures final_.Done? && pending_.Done? && subtitles_.Done? && remove.Done? ==>
        Disk() == RegistryModel.Disk(None, false, false, false) && state == None
      ensures state != None ==> Going(state)
    {
      SafeUnlessTorn(State(), Clean(final_));
      PerformDeleteStage(final_);
      SafeUnlessTorn(State(), Clean(pending_));
      PerformDeleteStage(pending_);
      SafeUnlessTorn(State(), Clean(subtitles_));
      PerformDeleteStage(subtitles_);
      SafeUnlessTorn(State(), Conclude(remove, write));
      FinishDelete(remove, write);
    }

    method ResumeDeletion()
      modifies this`deletion
      ensures Did(Resume)
    {
      if deletion.NoDeletion? && Going(state) {
        deletion := Cleaning(0, true);
      }
    }

    /** Restores a live entry at startup; `missing` is the error of a lost file. */
    method RestoreEntry(write: Outcome, same: bool) returns (missing: bool)
      modifies this
      ensures Did(Restore(write, same))
      ensures missing ==> MissingFile(old(State()))
    {
      if duty != Idle || !Live(state) {
        return false;
      }
      if (state.value.Ready? && !final) || (!state.value.Ready? && !final && !pending) {
        return true;
      }
      missing := false;
      if final {
        var ok := state.value.Ready? && same;
        if !ok {
          ok := SetState(Ready, write);
        }
        if ok {
          duty := DropPending;
        }
      } else {
        var _ := SetState(Adding, write);
      }
    }
  }
}
