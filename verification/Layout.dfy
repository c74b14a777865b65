/** The immediate children of one directory of a torrent. */
module Layout {
  import opened ByteOrder

  datatype FileView = FileView(path: string, size: int)
  datatype SubtitleView = SubtitleView(path: string, size: int, modifiedAt: int)

  /** A payload file or a managed subtitle, in the order in which the layout visits them. */
  datatype Leaf = Leaf(path: string, size: int, subtitle: bool, modifiedAt: int)

  datatype Entry = Entry(name: string, isDir: bool, isSubtitle: bool, path: string, size: int, modifiedAt: int)

  function Leaves(files: seq<FileView>, subtitles: seq<SubtitleView>): (r: seq<Leaf>)
    ensures |r| == |files| + |subtitles|
    ensures forall i :: 0 <= i < |files| ==> r[i] == Leaf(files[i].path, files[i].size, false, 0)
    ensures forall i :: 0 <= i < |subtitles| ==>
      r[|files| + i] == Leaf(subtitles[i].path, subtitles[i].size, true, subtitles[i].modifiedAt)
  {
    seq(|files|, i requires 0 <= i < |files| => Leaf(files[i].path, files[i].size, false, 0)) +
    seq(|subtitles|, i requires 0 <= i < |subtitles| => Leaf(subtitles[i].path, subtitles[i].size, true, subtitles[i].modifiedAt))
  }

  function Prefix(dir: string): string {
    if dir == "" then "" else dir + "/"
  }

  predicate StartsWith(s: string, prefix: string) {
    |prefix| <= |s| && s[..|prefix|] == prefix
  }

  /** Everything before the first slash. */
  function Head(rest: string): (name: string)
    ensures |name| <= |rest| && name == rest[..|name|] && '/' !in name
    ensures |name| < |rest| ==> rest[|name|] == '/'
  {
    if rest == "" || rest[0] == '/' then "" else [rest[0]] + Head(rest[1..])
  }

  /** Where a leaf lies, seen from a directory: not below it, below one of its children, or a child itself. */
  datatype Place = Elsewhere | Under(name: string) | Here(name: string, leaf: Leaf)

  function Locate(leaf: Leaf, dir: string): (p: Place)
    ensures p.Here? ==> p.leaf == leaf && leaf.path == Prefix(dir) + p.name && leaf.path != ""
    ensures p.Under? ==> |Prefix(dir)| + |p.name| < |leaf.path| && StartsWith(leaf.path, Prefix(dir) + p.name + "/")
  {
    var prefix := Prefix(dir);
    if !StartsWith(leaf.path, prefix) || |leaf.path| == |prefix| then Elsewhere
    else
      var rest := leaf.path[|prefix|..];
      var name := Head(rest);
      assert leaf.path == prefix + rest;
      assert |name| < |rest| ==> rest[..|name| + 1] == name + "/";
      if rest == name then Here(name, leaf) else Under(name)
  }

  function Blank(name: string): Entry {
    Entry(name, false, false, "", 0, 0)
  }

  function EntryOf(name: string, leaf: Leaf): Entry {
    Entry(name, false, leaf.subtitle, leaf.path, leaf.size, leaf.modifiedAt)
  }

  /** What one leaf does to its child's entry. */
  function Visit(e: Entry, p: Place): Entry {
    match p
    case Elsewhere => e
    case Under(_) => e.(isDir := true)
    case Here(_, leaf) => if e.isDir || (e.path != "" && !e.isSubtitle) then e else EntryOf(e.name, leaf)
  }

  /** One leaf is added to the children seen so far. */
  function Add(seen: map<string, Entry>, p: Place): map<string, Entry> {
    if p.Elsewhere? then seen
    else seen[p.name := Visit(if p.name in seen then seen[p.name] else Blank(p.name), p)]
  }

  function Collect(places: seq<Place>): map<string, Entry> {
    if places == [] then map[] else Add(Collect(places[..|places| - 1]), places[|places| - 1])
  }

  function Places(leaves: seq<Leaf>, dir: string): (r: seq<Place>)
    ensures |r| == |leaves| && forall i :: 0 <= i < |leaves| ==> r[i] == Locate(leaves[i], dir)
  {
    seq(|leaves|, i requires 0 <= i < |leaves| => Locate(leaves[i], dir))
  }

  /** The children of a directory by name. */
  function Children(files: seq<FileView>, subtitles: seq<SubtitleView>, dir: string): map<string, Entry> {
    Collect(Places(Leaves(files, subtitles), dir))
  }

  method ChildrenOfViews(files: seq<FileView>, subtitles: seq<SubtitleView>, dir: string)
    returns (seen: map<string, Entry>)
    ensures seen == Children(files, subtitles, dir)
  {
    var leaves := Leaves(files, subtitles);
    ghost var places := Places(leaves, dir);
    seen := map[];
    for k := 0 to |leaves|
      invariant seen == Collect(places[..k])
    {
      assert places[..k + 1][..k] == places[..k];
      seen := Add(seen, Locate(leaves[k], dir));
    }
    assert places[..|leaves|] == places;
  }

  // ------------------------------------------------------------------- the listing

  /** In name order, no name twice. */
  ghost predicate Ordered(entries: seq<Entry>) {
    forall i, j :: 0 <= i < j < |entries| ==> entries[i].name != entries[j].name && Before(entries[i].name, entries[j].name)
  }

  function Insert(e: Entry, entries: seq<Entry>): (r: seq<Entry>)
    ensures forall x :: x in r <==> x == e || x in entries
  {
    if entries == [] then [e]
    else if Before(e.name, entries[0].name) then [e] + entries
    else
      assert forall x :: x in entries <==> x == entries[0] || x in entries[1..];
      [entries[0]] + Insert(e, entries[1..])
  }

  lemma {:induction false} InsertOrdered(e: Entry, entries: seq<Entry>)
    requires Ordered(entries) && forall x :: x in entries ==> x.name != e.name
    ensures Ordered(Insert(e, entries))
  {
    if entries != [] {
      if Before(e.name, entries[0].name) {
        forall j | 0 < j < |entries| ensures Before(e.name, entries[j].name) {
          BeforeTransitive(e.name, entries[0].name, entries[j].name);
        }
      } else {
        BeforeTotal(e.name, entries[0].name);
        InsertOrdered(e, entries[1..]);
        var tail := Insert(e, entries[1..]);
        forall j | 0 <= j < |tail| ensures tail[j].name != entries[0].name && Before(entries[0].name, tail[j].name) {
          assert tail[j] in tail;
        }
      }
    }
  }

  ghost predicate Named(children: map<string, Entry>) {
    forall name :: name in children ==> children[name].name == name
  }

  /** The children as a list: each once, in name order, whatever order the map yields them in. */
  method SortedEntries(children: map<string, Entry>) returns (entries: seq<Entry>)
    requires Named(children)
    ensures Ordered(entries) && forall e :: e in entries <==> e.name in children && children[e.name] == e
  {
    entries := [];
    var todo := children.Keys;
    while todo != {}
      invariant Ordered(entries) && todo <= children.Keys
      invariant forall e :: e in entries <==> e.name in children && children[e.name] == e && e.name !in todo
      decreases |todo|
    {
      var name :| name in todo;
      todo := todo - {name};
      InsertOrdered(children[name], entries);
      entries := Insert(children[name], entries);
    }
  }

  /** The sorted children of a directory. */
  method ListChildren(files: seq<FileView>, subtitles: seq<SubtitleView>, dir: string) returns (entries: seq<Entry>)
    ensures Ordered(entries)
    ensures forall e :: e in entries <==>
      e.name in Children(files, subtitles, dir) && Children(files, subtitles, dir)[e.name] == e
  {
    var children := ChildrenOfViews(files, subtitles, dir);
    forall name | name in children ensures children[name].name == name {
      ChildrenExact(Places(Leaves(files, subtitles), dir), name);
    }
    entries := SortedEntries(children);
  }

  // ------------------------------------------------------------------ what it means

  predicate Names(p: Place, name: string) {
    !p.Elsewhere? && p.name == name
  }

  ghost predicate Located(places: seq<Place>) {
    forall i :: 0 <= i < |places| && places[i].Here? ==> places[i].leaf.path != ""
  }

  /** A child exists exactly when some leaf is it or lies below it, and it is a directory exactly when
      some leaf lies below it. */
  lemma {:induction false} ChildrenExact(places: seq<Place>, name: string)
    ensures name in Collect(places) <==> exists i :: 0 <= i < |places| && Names(places[i], name)
    ensures name in Collect(places) ==>
      Collect(places)[name].name == name && (Collect(places)[name].isDir <==> Under(name) in places)
  {
    if places != [] {
      var front, last := places[..|places| - 1], places[|places| - 1];
      ChildrenExact(front, name);
      assert places == front + [last];
      assert Names(last, name) ==> Names(places[|front|], name);
      assert forall i :: 0 <= i < |front| ==> Names(front[i], name) == Names(places[i], name);
    }
  }

  predicate IsHere(p: Place, name: string) {
    p.Here? && p.name == name
  }

  predicate Payload(p: Place, name: string) {
    p.Here? && p.name == name && !p.leaf.subtitle
  }

  /** Where a plain child's entry comes from: the first payload file there, else the last subtitle. */
  ghost predicate Source(places: seq<Place>, name: string, i: nat)
    requires i < |places|
  {
    && places[i].Here? && places[i].name == name
    && (if places[i].leaf.subtitle
        then forall j :: 0 <= j < |places| ==> !Payload(places[j], name) && (i < j ==> !IsHere(places[j], name))
        else forall j :: 0 <= j < i ==> !Payload(places[j], name))
  }

  ghost predicate ComesFrom(places: seq<Place>, name: string, e: Entry) {
    exists i :: 0 <= i < |places| && Source(places, name, i) && e == EntryOf(name, places[i].leaf)
  }

  lemma Subtitled(places: seq<Place>, name: string, e: Entry)
    requires ComesFrom(places, name, e)
    ensures e.isSubtitle <==> forall j :: 0 <= j < |places| ==> !Payload(places[j], name)
  {
    var i :| 0 <= i < |places| && Source(places, name, i) && e == EntryOf(name, places[i].leaf);
    assert !places[i].leaf.subtitle ==> Payload(places[i], name);
  }

  lemma KeepsSource(front: seq<Place>, last: Place, name: string, e: Entry)
    requires ComesFrom(front, name, e) && (e.isSubtitle ==> !IsHere(last, name))
    ensures ComesFrom(front + [last], name, e)
  {
    var i :| 0 <= i < |front| && Source(front, name, i) && e == EntryOf(name, front[i].leaf);
    var all := front + [last];
    assert forall j :: 0 <= j < |front| ==> all[j] == front[j];
    assert Source(all, name, i);
  }

  lemma NewSource(front: seq<Place>, last: Place, name: string)
    requires last.Here? && last.name == name && forall j :: 0 <= j < |front| ==> !Payload(front[j], name)
    ensures ComesFrom(front + [last], name, EntryOf(name, last.leaf))
  {
    var all := front + [last];
    assert forall j :: 0 <= j < |front| ==> all[j] == front[j];
    assert all[|front|] == last && Source(all, name, |front|);
  }

  /** A plain child is the first payload file with its path, which hides every subtitle; without one it
      is the last subtitle with its path. */
  lemma {:induction false} FileExact(places: seq<Place>, name: string)
    requires Located(places) && name in Collect(places) && !Collect(places)[name].isDir
    ensures ComesFrom(places, name, Collect(places)[name])
  {
    var front, last := places[..|places| - 1], places[|places| - 1];
    assert places == front + [last];
    if name in Collect(front) {
      FileExact(front, name);
      FileStep(front, last, name);
    } else {
      FirstFile(front, last, name);
    }
  }

  lemma FirstFile(front: seq<Place>, last: Place, name: string)
    requires name !in Collect(front) && name in Add(Collect(front), last) && !Add(Collect(front), last)[name].isDir
    ensures ComesFrom(front + [last], name, Add(Collect(front), last)[name])
  {
    ChildrenExact(front, name);
    assert forall j :: 0 <= j < |front| ==> !Names(front[j], name);
    NewSource(front, last, name);
  }

  lemma FileStep(front: seq<Place>, last: Place, name: string)
    requires Located(front) && name in Collect(front) && !Add(Collect(front), last)[name].isDir
    requires ComesFrom(front, name, Collect(front)[name])
    ensures ComesFrom(front + [last], name, Add(Collect(front), last)[name])
  {
    var e := Collect(front)[name];
    ChildrenExact(front, name);
    Subtitled(front, name, e);
    if Names(last, name) && e.isSubtitle {
      NewSource(front, last, name);
    } else {
      KeepsSource(front, last, name, e);
    }
  }

  lemma {:induction false} HeadOf(name: string, tail: string)
    requires '/' !in name
    ensures Head(name + "/" + tail) == name && Head(name) == name
  {
    var rest := name + "/" + tail;
    if name != "" {
      assert rest[1..] == name[1..] + "/" + tail;
      HeadOf(name[1..], tail);
    }
  }

  /** The same three cases said of whole paths. */
  lemma LocateMeans(leaf: Leaf, dir: string, name: string)
    requires '/' !in name && name != ""
    ensures Locate(leaf, dir) == Under(name) <==> StartsWith(leaf.path, Prefix(dir) + name + "/")
    ensures IsHere(Locate(leaf, dir), name) <==> leaf.path == Prefix(dir) + name
  {
    var prefix := Prefix(dir);
    if StartsWith(leaf.path, prefix + name + "/") {
      var tail := leaf.path[|prefix| + |name| + 1..];
      assert leaf.path[..|prefix| + |name| + 1] == prefix + name + "/";
      assert leaf.path == prefix + (name + "/" + tail);
      assert leaf.path[..|prefix|] == prefix && leaf.path[|prefix|..] == name + "/" + tail;
      HeadOf(name, tail);
    }
    if leaf.path == prefix + name {
      assert leaf.path[..|prefix|] == prefix && leaf.path[|prefix|..] == name;
      HeadOf(name, "");
    }
  }

  /** What a directory shows, in terms of paths alone: a name is a child when some file or subtitle has
      that path or lies below it; it is a directory when something lies below it; otherwise it is the
      file with that path, and a subtitle only if no payload file has the path. */
  lemma ListingMeans(files: seq<FileView>, subtitles: seq<SubtitleView>, dir: string, name: string)
    requires '/' !in name && name != ""
    ensures Prefix(dir) + name == if dir == "" then name else dir + "/" + name
    ensures var c := Children(files, subtitles, dir); var path := Prefix(dir) + name; var leaves := Leaves(files, subtitles);
      && (name in c <==> exists i :: 0 <= i < |leaves| && (leaves[i].path == path || StartsWith(leaves[i].path, path + "/")))
      && (name in c ==> (c[name].isDir <==> exists i :: 0 <= i < |leaves| && StartsWith(leaves[i].path, path + "/")))
      && (name in c && !c[name].isDir ==>
            c[name].path == path && (c[name].isSubtitle <==> !exists i :: 0 <= i < |files| && files[i].path == path))
  {
    var leaves := Leaves(files, subtitles);
    var places := Places(leaves, dir);
    ChildrenExact(places, name);
    forall i | 0 <= i < |leaves|
      ensures places[i] == Under(name) <==> StartsWith(leaves[i].path, Prefix(dir) + name + "/")
      ensures IsHere(places[i], name) <==> leaves[i].path == Prefix(dir) + name
    {
      LocateMeans(leaves[i], dir, name);
    }
    var c := Children(files, subtitles, dir);
    assert forall i :: 0 <= i < |leaves| ==> (Names(places[i], name) <==> places[i] == Under(name) || IsHere(places[i], name));
    if name in c && !c[name].isDir {
      FileExact(places, name);
      Subtitled(places, name, c[name]);
      PayloadFiles(files, subtitles, dir, name);
    }
  }

  /** The entry of a child that is no directory, in terms of paths alone: the first file with its path, by
      path and size; without one the last subtitle with its path, by path, size and time. */
  lemma ListingShows(files: seq<FileView>, subtitles: seq<SubtitleView>, dir: string, name: string)
    requires '/' !in name && name != ""
    requires name in Children(files, subtitles, dir) && !Children(files, subtitles, dir)[name].isDir
    ensures var e := Children(files, subtitles, dir)[name]; var path := if dir == "" then name else dir + "/" + name;
      || (exists i :: 0 <= i < |files| && FirstFileAt(files, path, i) && e == Entry(name, false, false, path, files[i].size, 0))
      || ((forall i :: 0 <= i < |files| ==> files[i].path != path)
          && exists i :: 0 <= i < |subtitles| && LastSubtitleAt(subtitles, path, i)
                         && e == Entry(name, false, true, path, subtitles[i].size, subtitles[i].modifiedAt))
  {
    var leaves, path := Leaves(files, subtitles), Prefix(dir) + name;
    var places := Places(leaves, dir);
    FileExact(places, name);
    var k :| 0 <= k < |places| && Source(places, name, k) && Children(files, subtitles, dir)[name] == EntryOf(name, places[k].leaf);
    forall i | 0 <= i < |leaves|
      ensures IsHere(places[i], name) <==> leaves[i].path == path
      ensures places[i].Here? ==> places[i].leaf == leaves[i]
    {
      LocateMeans(leaves[i], dir, name);
    }
    SourceAt(files, subtitles, places, path, name, k);
  }

  ghost predicate FirstFileAt(files: seq<FileView>, path: string, i: nat) {
    i < |files| && files[i].path == path && forall j :: 0 <= j < i ==> files[j].path != path
  }

  ghost predicate LastSubtitleAt(subtitles: seq<SubtitleView>, path: string, i: nat) {
    i < |subtitles| && subtitles[i].path == path && forall j :: i < j < |subtitles| ==> subtitles[j].path != path
  }

  lemma SourceAt(files: seq<FileView>, subtitles: seq<SubtitleView>, places: seq<Place>, path: string, name: string, k: nat)
    requires var leaves := Leaves(files, subtitles);
      && |places| == |leaves| && k < |places| && Source(places, name, k)
      && (forall i :: 0 <= i < |leaves| ==> (IsHere(places[i], name) <==> leaves[i].path == path))
      && (forall i :: 0 <= i < |leaves| && places[i].Here? ==> places[i].leaf == leaves[i])
    ensures if k < |files| then FirstFileAt(files, path, k) && places[k].leaf == Leaf(path, files[k].size, false, 0)
      else
        && (forall i :: 0 <= i < |files| ==> files[i].path != path)
        && LastSubtitleAt(subtitles, path, k - |files|)
        && places[k].leaf == Leaf(path, subtitles[k - |files|].size, true, subtitles[k - |files|].modifiedAt)
  {
    var leaves, n := Leaves(files, subtitles), |files|;
    assert k >= n ==> leaves[k] == leaves[n + (k - n)];
    forall i | 0 <= i < n ensures Payload(places[i], name) <==> files[i].path == path {
      assert leaves[i].path == files[i].path;
    }
    if k >= n {
      forall j | k - n < j < |subtitles| ensures subtitles[j].path != path {
        assert leaves[n + j].path == subtitles[j].path && !IsHere(places[n + j], name);
      }
    }
  }

  lemma PayloadFiles(files: seq<FileView>, subtitles: seq<SubtitleView>, dir: string, name: string)
    requires '/' !in name && name != ""
    ensures var places := Places(Leaves(files, subtitles), dir);
      (exists i :: 0 <= i < |places| && Payload(places[i], name)) <==>
      exists i :: 0 <= i < |files| && files[i].path == Prefix(dir) + name
  {
    var leaves := Leaves(files, subtitles);
    var places := Places(leaves, dir);
    forall i | 0 <= i < |leaves| ensures Payload(places[i], name) <==> i < |files| && files[i].path == Prefix(dir) + name {
      LocateMeans(leaves[i], dir, name);
      assert i >= |files| ==> leaves[i] == leaves[|files| + (i - |files|)];
    }
    if i :| 0 <= i < |files| && files[i].path == Prefix(dir) + name {
      assert Payload(places[i], name);
    }
  }
}
