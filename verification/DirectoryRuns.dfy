/** Directory lookups over the snapshot cache: slots hold editions of a torrent's contents, and lookups,
    listings and removals of any number of readers interleave. */
module DirectoryRuns {
  import opened Types
  import opened Layout
  import opened DirectoryIndex
  import S = SnapshotModel

  /** One published edition, with the directories listed so far. */
  datatype Edition = Edition(
    filesID: Option<nat>, files: seq<FileView>, subtitles: seq<SubtitleView>, prefixes: map<string, map<string, Entry>>)

  /** `editions` by the identity of the value in its slot. */
  datatype World = World(snap: S.World, editions: map<nat, Edition>)

  predicate Matches(e: Edition, c: Contents) {
    && e.filesID == c.filesID && (c.filesID.None? ==> e.files == c.files) && e.subtitles == c.subtitles
  }

  function Index(e: Edition, prefix: string): map<string, Entry> {
    if prefix in e.prefixes then e.prefixes[prefix] else Children(e.files, e.subtitles, prefix)
  }

  function Remember(e: Edition, prefix: string): Edition {
    var index := Index(e, prefix);
    if prefix == "" || index != map[] then e.(prefixes := e.prefixes[prefix := index]) else e
  }

  /** The edition that a hash's slot holds. */
  function Current(w: World, h: Hash): Option<nat> {
    if h in w.snap.s.slots then w.snap.s.slots[h].current else None
  }

  /** One lookup, by a reader that began before it asked the backend. */
  function Look(w: World, t: nat, answer: Option<Contents>, prefix: string): (World, Option<map<string, Entry>>)
    requires t in w.snap.pending
  {
    if NoDirectory(answer) then (w.(snap := S.Next(w.snap, S.DoForget(t))), None)
    else
      var c := answer.value;
      var current := Current(w, w.snap.pending[t].hash);
      if current.Some? && current.value in w.editions && Matches(w.editions[current.value], c) then
        var e := w.editions[current.value];
        (w.(editions := w.editions[current.value := Remember(e, prefix)]), Shown(Index(e, prefix), prefix))
      else
        var built := Edition(c.filesID, c.files, c.subtitles, map[]);
        (World(S.Next(w.snap, S.DoPublish(S.ByRead(t))),
               if S.Valid(w.snap, S.ByRead(t)) then w.editions[w.snap.values := Remember(built, prefix)] else w.editions),
         Shown(Index(built, prefix), prefix))
  }

  datatype Step =
    | Snap(step: S.Step)
    | Lookup(token: nat, answer: Option<Contents>, prefix: string)

  /** Only lookups publish. */
  predicate Plain(step: S.Step) {
    !step.DoPublish? && !step.DoRefresh?
  }

  function Next(w: World, step: Step): World {
    match step
    case Snap(s) => if Plain(s) then w.(snap := S.Next(w.snap, s)) else w
    case Lookup(t, answer, prefix) => if t in w.snap.pending then Look(w, t, answer, prefix).0 else w
  }

  function Run(steps: seq<Step>): World {
    if steps == [] then World(S.Start(), map[]) else Next(Run(steps[..|steps| - 1]), steps[|steps| - 1])
  }

  /** The backend keeps its promise: equal list identities mean equal lists. */
  ghost predicate Honest(lists: Lists, answer: Option<Contents>) {
    answer.Some? ==> Promised(lists, answer.value.filesID, answer.value.files)
  }

  ghost predicate HonestRun(lists: Lists, steps: seq<Step>) {
    forall i :: 0 <= i < |steps| && steps[i].Lookup? ==> Honest(lists, steps[i].answer)
  }

  ghost predicate Right(lists: Lists, e: Edition) {
    Promised(lists, e.filesID, e.files) && forall p :: p in e.prefixes ==> e.prefixes[p] == Children(e.files, e.subtitles, p)
  }

  ghost predicate Inv(lists: Lists, w: World) {
    && (forall v :: v in w.editions ==> v < w.snap.values && Right(lists, w.editions[v]))
    && (forall h :: Current(w, h).Some? ==> Current(w, h).value in w.editions)
  }

  lemma RememberRight(lists: Lists, e: Edition, prefix: string)
    requires Right(lists, e)
    ensures Right(lists, Remember(e, prefix)) && Index(e, prefix) == Children(e.files, e.subtitles, prefix)
  {
  }

  /** A step that does not publish leaves no value in a slot that was not there. */
  lemma PlainValues(w: S.World, step: S.Step, h: Hash)
    requires Plain(step)
    ensures var v := S.Next(w, step);
      && v.values == w.values
      && (h in v.s.slots && v.s.slots[h].current.Some? ==> h in w.s.slots && v.s.slots[h].current == w.s.slots[h].current)
  {
  }

  lemma PlainInv(lists: Lists, w: World, step: S.Step)
    requires Inv(lists, w) && Plain(step)
    ensures Inv(lists, w.(snap := S.Next(w.snap, step)))
  {
    var v := w.(snap := S.Next(w.snap, step));
    forall h ensures Current(v, h).Some? ==> Current(v, h).value in v.editions {
      PlainValues(w.snap, step, h);
      assert Current(w, h).Some? ==> Current(w, h).value in w.editions;
    }
    PlainValues(w.snap, step, "");
  }

  lemma PublishedValues(w: S.World, t: nat, h: Hash)
    requires t in w.pending
    ensures var v := S.Next(w, S.DoPublish(S.ByRead(t)));
      && v.values == w.values + (if S.Valid(w, S.ByRead(t)) then 1 else 0)
      && (h in v.s.slots && v.s.slots[h].current.Some? ==>
            || (h in w.s.slots && v.s.slots[h].current == w.s.slots[h].current)
            || (S.Valid(w, S.ByRead(t)) && v.s.slots[h].current == Some(w.values)))
  {
  }

  /** The slot holds an edition of the same contents. */
  predicate Known(w: World, t: nat, c: Contents)
    requires t in w.snap.pending
  {
    var current := Current(w, w.snap.pending[t].hash);
    current.Some? && current.value in w.editions && Matches(w.editions[current.value], c)
  }

  lemma LookKnown(lists: Lists, w: World, t: nat, c: Contents, prefix: string)
    requires Inv(lists, w) && t in w.snap.pending && Honest(lists, Some(c)) && !NoDirectory(Some(c)) && Known(w, t, c)
    ensures var (v, index) := Look(w, t, Some(c), prefix); Inv(lists, v) && index == Expected(Some(c), prefix)
  {
    var id := Current(w, w.snap.pending[t].hash).value;
    RememberRight(lists, w.editions[id], prefix);
    var v := Look(w, t, Some(c), prefix).0;
    forall h ensures Current(v, h).Some? ==> Current(v, h).value in v.editions {
      assert Current(v, h) == Current(w, h);
    }
  }

  lemma LookNew(lists: Lists, w: World, t: nat, c: Contents, prefix: string)
    requires Inv(lists, w) && t in w.snap.pending && Honest(lists, Some(c)) && !NoDirectory(Some(c)) && !Known(w, t, c)
    ensures var (v, index) := Look(w, t, Some(c), prefix); Inv(lists, v) && index == Expected(Some(c), prefix)
  {
    RememberRight(lists, Edition(c.filesID, c.files, c.subtitles, map[]), prefix);
    var v := Look(w, t, Some(c), prefix).0;
    forall h ensures Current(v, h).Some? ==> Current(v, h).value in v.editions {
      PublishedValues(w.snap, t, h);
      assert Current(w, h).Some? ==> Current(w, h).value in w.editions;
    }
    PublishedValues(w.snap, t, "");
  }

  lemma LookInv(lists: Lists, w: World, t: nat, answer: Option<Contents>, prefix: string)
    requires Inv(lists, w) && t in w.snap.pending && Honest(lists, answer)
    ensures Inv(lists, Look(w, t, answer, prefix).0)
    ensures Look(w, t, answer, prefix).1 == Expected(answer, prefix)
  {
    if NoDirectory(answer) {
      PlainInv(lists, w, S.DoForget(t));
    } else if Known(w, t, answer.value) {
      LookKnown(lists, w, t, answer.value, prefix);
    } else {
      LookNew(lists, w, t, answer.value, prefix);
    }
  }

  lemma {:induction false} RunInv(lists: Lists, steps: seq<Step>)
    requires HonestRun(lists, steps)
    ensures Inv(lists, Run(steps))
  {
    if steps != [] {
      var front, last := steps[..|steps| - 1], steps[|steps| - 1];
      RunInv(lists, front);
      match last
      case Snap(s) => if Plain(s) { PlainInv(lists, Run(front), s); }
      case Lookup(t, answer, prefix) =>
        if t in Run(front).snap.pending { LookInv(lists, Run(front), t, answer, prefix); }
    }
  }

  /** Whatever was published, forgotten or listed concurrently, a lookup answers what the layout of the
      contents it was just given answers, or that there is no such directory. */
  lemma LookupIsLayout(lists: Lists, steps: seq<Step>, t: nat, answer: Option<Contents>, prefix: string)
    requires HonestRun(lists, steps) && Honest(lists, answer) && t in Run(steps).snap.pending
    ensures Look(Run(steps), t, answer, prefix).1 == Expected(answer, prefix)
  {
    RunInv(lists, steps);
    LookInv(lists, Run(steps), t, answer, prefix);
  }

  // ------------------------------------------------------------------ what a lookup leaves

  /** The directory is remembered, unless it has no children and is not the root; what was remembered stays. */
  ghost predicate Remembers(e: Edition, before: map<string, map<string, Entry>>, prefix: string) {
    var children := Children(e.files, e.subtitles, prefix);
    && (prefix == "" || children != map[] ==> prefix in e.prefixes && e.prefixes[prefix] == children)
    && (forall p :: p in before && p != prefix ==> p in e.prefixes && e.prefixes[p] == before[p])
    && (forall p :: p in e.prefixes ==> p in before || p == prefix)
    && (prefix in e.prefixes && prefix !in before ==> prefix == "" || children != map[])
  }

  /** What a lookup leaves behind: a matching edition stays and remembers the directory; otherwise, and only
      if the slot is still as the reader saw it, a new edition of the answer takes its place, or the slot goes
      when there is no directory. */
  lemma LookupLeaves(lists: Lists, w: World, t: nat, answer: Option<Contents>, prefix: string)
    requires Inv(lists, w) && t in w.snap.pending && Honest(lists, answer)
    ensures var v := Look(w, t, answer, prefix).0; var h := w.snap.pending[t].hash;
      var untouched := S.Valid(w.snap, S.ByRead(t));
      if NoDirectory(answer) then
        v.editions == w.editions && Current(v, h) == (if untouched then None else Current(w, h))
      else if Current(w, h).Some? && Matches(w.editions[Current(w, h).value], answer.value) then
        && v.snap == w.snap && Current(w, h).value in v.editions
        && var e, was := v.editions[Current(w, h).value], w.editions[Current(w, h).value];
           e == was.(prefixes := e.prefixes) && Remembers(e, was.prefixes, prefix)
      else if !untouched then v.editions == w.editions && Current(v, h) == Current(w, h)
      else
        && Current(v, h).Some? && Current(v, h).value in v.editions && Current(v, h).value !in w.editions
        && var e := v.editions[Current(v, h).value];
           e == Edition(answer.value.filesID, answer.value.files, answer.value.subtitles, e.prefixes)
           && Remembers(e, map[], prefix)
  {
    var h := w.snap.pending[t].hash;
    if !NoDirectory(answer) {
      if Current(w, h).Some? && Matches(w.editions[Current(w, h).value], answer.value) {
        RememberRight(lists, w.editions[Current(w, h).value], prefix);
      } else {
        PublishLeaves(w.snap, t);
        NewRemembers(answer.value, prefix);
      }
    }
  }

  lemma PublishLeaves(w: S.World, t: nat)
    requires t in w.pending
    ensures var v := S.Next(w, S.DoPublish(S.ByRead(t))); var h := w.pending[t].hash;
      if S.Valid(w, S.ByRead(t)) then h in v.s.slots && v.s.slots[h].current == Some(w.values) else v == w
  {
  }

  lemma NewRemembers(c: Contents, prefix: string)
    ensures Remembers(Remember(Edition(c.filesID, c.files, c.subtitles, map[]), prefix), map[], prefix)
  {
  }
}
