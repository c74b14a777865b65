/** The projected file list of one torrent: videos appear as small text files whose sizes become known
    over time. A list that carries an identity never changes. */
module Projection {
  import opened Types
  import opened Layout
  import opened DirectoryIndex

  /** A projected file: generated text, or the payload itself. */
  datatype Item = Item(path: string, payloadSize: int, generated: bool)

  /** A generated file's size, 0 while unknown, and the identity of the observation that set it. */
  datatype TextSize = TextSize(size: int, id: Option<nat>)

  datatype State = State(
    items: seq<Item>, trusted: bool, sizes: seq<TextSize>,
    projected: Option<seq<FileView>>, projectedID: Option<nat>, complete: bool)

  function SizeOf(s: State, i: nat): int
    requires i < |s.items| == |s.sizes|
  {
    if s.items[i].generated then s.sizes[i].size else s.items[i].payloadSize
  }

  /** The list as the sizes stand. */
  function Build(s: State): (r: seq<FileView>)
    requires |s.items| == |s.sizes|
    ensures |r| == |s.items| && forall i :: 0 <= i < |r| ==> r[i] == FileView(s.items[i].path, SizeOf(s, i))
  {
    seq(|s.items|, i requires 0 <= i < |s.items| => FileView(s.items[i].path, SizeOf(s, i)))
  }

  predicate AllSized(s: State)
    requires |s.items| == |s.sizes|
  {
    forall i :: 0 <= i < |s.items| && s.items[i].generated ==> s.sizes[i].size != 0
  }

  datatype View = View(files: seq<FileView>, id: Option<nat>)

  /** All identities handed out so far, each with its list, and everything ever returned. */
  datatype World = World(entries: map<nat, State>, lists: Lists, returned: seq<View>, nextId: nat)

  // ------------------------------------------------------------------- operations

  /** Builds the list if it is not there; it gets an identity when it is complete and its source is trusted. */
  function Project(s: State, newId: nat): (State, View)
    requires |s.items| == |s.sizes|
  {
    if s.projected.Some? then (s, View(s.projected.value, s.projectedID))
    else
      var id := if AllSized(s) && s.trusted then Some(newId) else None;
      (s.(projected := Some(Build(s)), projectedID := id, complete := AllSized(s)), View(Build(s), id))
  }

  /** Sizes that were signed meanwhile are filled in where still unknown. */
  function Fill(s: State, signed: map<nat, int>, revision: nat): State
    requires |s.items| == |s.sizes|
  {
    var sizes := seq(|s.sizes|, i requires 0 <= i < |s.sizes| =>
      if i in signed && s.sizes[i].size == 0 then TextSize(signed[i], Some(revision)) else s.sizes[i]);
    if forall i :: 0 <= i < |s.sizes| && i in signed ==> s.sizes[i].size != 0 then s
    else s.(sizes := sizes, projected := None)
  }

  /** A live stat reports a size; it counts only if nothing newer was recorded for that file. */
  function Remember(s: State, i: nat, seen: Option<nat>, size: int, revision: nat): State
    requires i < |s.sizes|
  {
    if s.sizes[i].id != seen || s.sizes[i].size == size then s
    else
      s.(sizes := s.sizes[i := TextSize(size, Some(revision))], projected := None, projectedID := None, complete := false)
  }

  // ------------------------------------------------------------------------ runs

  datatype Step =
    | Enter(entry: nat, items: seq<Item>, trusted: bool)
    | List(entry: nat, signed: map<nat, int>)
    | Again(entry: nat)                       // a waiter, or a complete list
    | Stat(entry: nat, file: nat, seen: Option<nat>, size: int)

  ghost function Show(w: World, e: nat, s: State): World
    requires |s.items| == |s.sizes|
  {
    var (t, view) := Project(s, w.nextId);
    World(w.entries[e := t],
          if s.projected.None? && view.id.Some? then w.lists[w.nextId := view.files] else w.lists,
          w.returned + [view], w.nextId + 1)
  }

  ghost predicate Formed(w: World) {
    forall e :: e in w.entries ==> |w.entries[e].items| == |w.entries[e].sizes|
  }

  ghost function Next(w: World, step: Step): World {
    if !Formed(w) then w
    else match step
    case Enter(e, items, trusted) =>
      if e in w.entries then w
      else
        var sizes := seq(|items|, i => TextSize(0, None));
        w.(entries := w.entries[e := State(items, trusted, sizes, None, None, false)])
    case List(e, signed) =>
      if e !in w.entries then w
      else Show(w.(nextId := w.nextId + 1), e, Fill(w.entries[e], signed, w.nextId))
    case Again(e) => if e !in w.entries then w else Show(w, e, w.entries[e])
    case Stat(e, i, seen, size) =>
      if e !in w.entries || i >= |w.entries[e].sizes| then w
      else w.(entries := w.entries[e := Remember(w.entries[e], i, seen, size, w.nextId)], nextId := w.nextId + 1)
  }

  /** The cached list is always the one that would be built now, and its identity stands for it. */
  ghost predicate Current(lists: Lists, s: State) {
    && |s.items| == |s.sizes|
    && (s.projected.Some? ==>
          && s.projected.value == Build(s) && (s.complete <==> AllSized(s))
          && (s.projectedID.Some? <==> s.complete && s.trusted)
          && Promised(lists, s.projectedID, s.projected.value))
  }

  ghost predicate Inv(w: World) {
    && (forall e :: e in w.entries ==> Current(w.lists, w.entries[e]))
    && (forall id :: id in w.lists ==> id < w.nextId)
    && (forall k :: 0 <= k < |w.returned| ==> Promised(w.lists, w.returned[k].id, w.returned[k].files))
  }

  lemma CurrentLater(lists: Lists, id: nat, files: seq<FileView>, s: State)
    requires Current(lists, s) && id !in lists
    ensures Current(lists[id := files], s)
  {
  }

  lemma ShowInv(w: World, e: nat, s: State)
    requires Inv(w) && Current(w.lists, s)
    ensures Inv(Show(w, e, s))
  {
    var v := Show(w, e, s);
    forall d | d in v.entries ensures Current(v.lists, v.entries[d]) {
      if d != e && v.lists != w.lists {
        CurrentLater(w.lists, w.nextId, Build(s), w.entries[d]);
      }
    }
  }

  lemma FillCurrent(lists: Lists, s: State, signed: map<nat, int>, revision: nat)
    requires Current(lists, s)
    ensures Current(lists, Fill(s, signed, revision))
  {
  }

  lemma RememberCurrent(lists: Lists, s: State, i: nat, seen: Option<nat>, size: int, revision: nat)
    requires Current(lists, s) && i < |s.sizes|
    ensures Current(lists, Remember(s, i, seen, size, revision))
  {
  }

  lemma EnterInv(w: World, e: nat, items: seq<Item>, trusted: bool)
    requires Inv(w)
    ensures Inv(Next(w, Enter(e, items, trusted)))
  {
  }

  lemma ShowLater(w: World, e: nat, s: State)
    requires Inv(w) && Current(w.lists, s)
    ensures Inv(Show(w.(nextId := w.nextId + 1), e, s))
  {
    ShowInv(w.(nextId := w.nextId + 1), e, s);
  }

  lemma ListInv(w: World, e: nat, signed: map<nat, int>)
    requires Inv(w)
    ensures Inv(Next(w, List(e, signed)))
  {
    if e in w.entries {
      FillCurrent(w.lists, w.entries[e], signed, w.nextId);
      ShowLater(w, e, Fill(w.entries[e], signed, w.nextId));
    }
  }

  lemma StatInv(w: World, e: nat, i: nat, seen: Option<nat>, size: int)
    requires Inv(w)
    ensures Inv(Next(w, Stat(e, i, seen, size)))
  {
    if e in w.entries && i < |w.entries[e].sizes| {
      RememberCurrent(w.lists, w.entries[e], i, seen, size, w.nextId);
    }
  }

  lemma NextInv(w: World, step: Step)
    requires Inv(w)
    ensures Inv(Next(w, step))
  {
    match step
    case Enter(e, items, trusted) => EnterInv(w, e, items, trusted);
    case List(e, signed) => ListInv(w, e, signed);
    case Again(e) => if e in w.entries { ShowInv(w, e, w.entries[e]); }
    case Stat(e, i, seen, size) => StatInv(w, e, i, seen, size);
  }

  ghost function Run(steps: seq<Step>): World {
    if steps == [] then World(map[], map[], [], 0) else Next(Run(steps[..|steps| - 1]), steps[|steps| - 1])
  }

  lemma {:induction false} RunInv(steps: seq<Step>)
    ensures Inv(Run(steps))
  {
    if steps != [] {
      RunInv(steps[..|steps| - 1]);
      NextInv(Run(steps[..|steps| - 1]), steps[|steps| - 1]);
    }
  }

  /** In every run, two lists that were ever returned with the same identity are the same list, and
      every identity keeps the promise the directory index relies on. */
  lemma IdentityMeansList(steps: seq<Step>, i: nat, j: nat)
    requires i < |Run(steps).returned| && j < |Run(steps).returned|
    ensures var w := Run(steps);
      && (w.returned[i].id.Some? && w.returned[i].id == w.returned[j].id ==> w.returned[i].files == w.returned[j].files)
      && Promised(w.lists, w.returned[i].id, w.returned[i].files)
  {
    RunInv(steps);
  }

  /** In every run a listing shows exactly the sizes known at that moment, never an older list. */
  lemma NeverStale(steps: seq<Step>, e: nat)
    requires e in Run(steps).entries
    ensures var w := Run(steps);
      |w.entries[e].items| == |w.entries[e].sizes| && Project(w.entries[e], w.nextId).1.files == Build(w.entries[e])
  {
    RunInv(steps);
  }

  // ---------------------------------------------------------------- told from the steps

  /** The files an entry was made with, and whether its source is trusted. */
  ghost function Entered(steps: seq<Step>, e: nat): Option<(seq<Item>, bool)> {
    if steps == [] then None
    else
      var before, step := Entered(steps[..|steps| - 1], e), steps[|steps| - 1];
      if before.None? && step.Enter? && step.entry == e then Some((step.items, step.trusted)) else before
  }

  /** What is known of a generated file: a signed size counts while none is known; the size of a stat counts
      if it differs and nothing was recorded since the observation it started from. */
  ghost function Known(steps: seq<Step>, e: nat, i: nat): TextSize {
    if steps == [] then TextSize(0, None)
    else
      var front, step := steps[..|steps| - 1], steps[|steps| - 1];
      var before, revision := Known(front, e, i), Run(front).nextId;
      if Entered(front, e).None? then before
      else if step.List? && step.entry == e && i in step.signed && before.size == 0
      then TextSize(step.signed[i], Some(revision))
      else if step.Stat? && step.entry == e && step.file == i && before.id == step.seen && before.size != step.size
      then TextSize(step.size, Some(revision))
      else before
  }

  ghost predicate Tells(w: World, steps: seq<Step>, e: nat) {
    && (e in w.entries <==> Entered(steps, e).Some?)
    && (e in w.entries ==>
          && (w.entries[e].items, w.entries[e].trusted) == Entered(steps, e).value
          && |w.entries[e].items| == |w.entries[e].sizes|
          && forall i :: 0 <= i < |w.entries[e].sizes| ==> w.entries[e].sizes[i] == Known(steps, e, i))
  }

  lemma {:induction false} UnknownBefore(steps: seq<Step>, e: nat, i: nat)
    requires Entered(steps, e).None?
    ensures Known(steps, e, i) == TextSize(0, None)
  {
    if steps != [] {
      UnknownBefore(steps[..|steps| - 1], e, i);
    }
  }

  lemma TellList(w: World, steps: seq<Step>, step: Step, e: nat)
    requires Inv(w) && w == Run(steps) && Tells(w, steps, e) && step.List?
    ensures Tells(Next(w, step), steps + [step], e)
  {
    assert (steps + [step])[..|steps|] == steps;
  }

  lemma TellStat(w: World, steps: seq<Step>, step: Step, e: nat)
    requires Inv(w) && w == Run(steps) && Tells(w, steps, e) && step.Stat?
    ensures Tells(Next(w, step), steps + [step], e)
  {
    assert (steps + [step])[..|steps|] == steps;
  }

  lemma TellAgain(w: World, steps: seq<Step>, step: Step, e: nat)
    requires Inv(w) && w == Run(steps) && Tells(w, steps, e) && step.Again?
    ensures Tells(Next(w, step), steps + [step], e)
  {
    assert (steps + [step])[..|steps|] == steps;
  }

  lemma TellEnter(w: World, steps: seq<Step>, step: Step, e: nat)
    requires Inv(w) && w == Run(steps) && Tells(w, steps, e) && step.Enter?
    ensures Tells(Next(w, step), steps + [step], e)
  {
    assert (steps + [step])[..|steps|] == steps;
    if Entered(steps, e).None? {
      forall i: nat ensures Known(steps, e, i) == TextSize(0, None) {
        UnknownBefore(steps, e, i);
      }
    }
  }

  lemma {:induction false} RunTells(steps: seq<Step>, e: nat)
    ensures Tells(Run(steps), steps, e)
  {
    if steps != [] {
      var front, step := steps[..|steps| - 1], steps[|steps| - 1];
      RunInv(front);
      RunTells(front, e);
      assert steps == front + [step];
      if step.List? {
        TellList(Run(front), front, step, e);
      } else if step.Stat? {
        TellStat(Run(front), front, step, e);
      } else if step.Again? {
        TellAgain(Run(front), front, step, e);
      } else {
        TellEnter(Run(front), front, step, e);
      }
    }
  }

  /** A list that was shown is shown again, with the same identity, until a size changes: by another listing
      that signed nothing new, or by a reader that finds it there. */
  lemma ShownAgain(s: State, n: nat, m: nat, signed: map<nat, int>, revision: nat)
    requires |s.items| == |s.sizes| && forall i :: 0 <= i < |s.sizes| && i in signed ==> s.sizes[i].size != 0
    ensures var (t, view) := Project(s, n);
      && t.items == s.items && t.sizes == s.sizes
      && Project(t, m) == (t, view) && Project(Fill(t, signed, revision), m) == (t, view)
  {
  }

  /** In every run a listing shows every file in order, a generated one with the size known by then, any
      other with its payload size; and it carries an identity exactly when the source is trusted and every
      generated size is known. */
  lemma ListingTold(steps: seq<Step>, e: nat)
    requires Entered(steps, e).Some?
    ensures var w := Run(steps); var (items, trusted) := Entered(steps, e).value;
      && e in w.entries && |w.entries[e].items| == |w.entries[e].sizes|
      && var view := Project(w.entries[e], w.nextId).1;
         && |view.files| == |items|
         && (forall i :: 0 <= i < |items| ==>
               view.files[i] == FileView(items[i].path, if items[i].generated then Known(steps, e, i).size else items[i].payloadSize))
         && (view.id.Some? <==> trusted && forall i :: 0 <= i < |items| && items[i].generated ==> Known(steps, e, i).size != 0)
  {
    RunInv(steps);
    RunTells(steps, e);
    NeverStale(steps, e);
    assert Current(Run(steps).lists, Run(steps).entries[e]);
  }

  // -------------------------------------------------------------------- the entry

  /** One torrent's entry, changed in place under the cache lock. */
  class Torrent {
    const items: seq<Item>
    const trusted: bool
    var sizes: seq<TextSize>
    var projected: Option<seq<FileView>>
    var projectedID: Option<nat>
    var complete: bool

    ghost function Value(): State
      reads this
    {
      State(items, trusted, sizes, projected, projectedID, complete)
    }

    /** No size is known yet. */
    constructor (items: seq<Item>, trusted: bool)
      ensures |this.items| == |sizes| && Value() == State(items, trusted, sizes, None, None, false)
      ensures forall i :: 0 <= i < |sizes| ==> sizes[i] == TextSize(0, None)
    {
      this.items, this.trusted := items, trusted;
      sizes := seq(|items|, i => TextSize(0, None));
      projected, projectedID, complete := None, None, false;
    }

    method ProjectionLocked(newId: nat) returns (view: View)
      requires |items| == |sizes|
      modifies this`projected, this`projectedID, this`complete
      ensures (Value(), view) == Project(old(Value()), newId)
    {
      if projected.None? {
        var files, all := [], true;
        for i := 0 to |items|
          invariant |files| == i && files == Build(Value())[..i]
          invariant all <==> forall k :: 0 <= k < i && items[k].generated ==> sizes[k].size != 0
          invariant Value() == old(Value())
        {
          var size := items[i].payloadSize;
          if items[i].generated {
            size := sizes[i].size;
            all := all && size != 0;
          }
          files := files + [FileView(items[i].path, size)];
        }
        assert files == Build(Value());
        projected, complete := Some(files), all;
        projectedID := if all && trusted then Some(newId) else None;
      }
      return View(projected.value, projectedID);
    }

    /** Fills in the sizes that were signed outside the lock, where nothing newer was recorded. */
    method FillSizes(signed: map<nat, int>, revision: nat)
      requires |items| == |sizes|
      modifies this`sizes, this`projected
      ensures Value() == Fill(old(Value()), signed, revision)
    {
      var changed := false;
      for i := 0 to |sizes|
        invariant |sizes| == old(|sizes|) && projected == old(projected)
        invariant forall k :: 0 <= k < |sizes| ==>
          sizes[k] == (if k < i && k in signed && old(sizes)[k].size == 0 then TextSize(signed[k], Some(revision)) else old(sizes)[k])
        invariant changed <==> exists k :: 0 <= k < i && k in signed && old(sizes)[k].size == 0
      {
        if i in signed && sizes[i].size == 0 {
          sizes := sizes[i := TextSize(signed[i], Some(revision))];
          changed := true;
        }
      }
      if changed {
        projected := None;
      } else {
        assert sizes == old(sizes);
      }
    }

    method RememberTextSize(i: nat, seen: Option<nat>, size: int, revision: nat)
      requires i < |sizes|
      modifies this`sizes, this`projected, this`projectedID, this`complete
      ensures Value() == Remember(old(Value()), i, seen, size, revision)
    {
      if sizes[i].id != seen || sizes[i].size == size {
        return;
      }
      sizes := sizes[i := TextSize(size, Some(revision))];
      projected, projectedID, complete := None, None, false;
    }
  }
}
