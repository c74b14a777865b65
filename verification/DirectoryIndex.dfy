/** Cached directory listings of the virtual tree. */
module DirectoryIndex {
  import opened Types
  import opened Layout

  /** One answer of the backend. Equal list identities promise equal lists. */
  datatype Contents = Contents(files: seq<FileView>, filesID: Option<nat>, subtitles: seq<SubtitleView>, singleFile: bool)

  /** The backend failed, or the torrent shows as one file. */
  predicate NoDirectory(answer: Option<Contents>) {
    answer.None? || (answer.value.singleFile && |answer.value.files| == 1)
  }

  /** A subdirectory without children does not exist. */
  function Shown(index: map<string, Entry>, prefix: string): Option<map<string, Entry>> {
    if prefix != "" && index == map[] then None else Some(index)
  }

  /** What a directory lookup should answer, from the backend's answer alone; None is "not found". */
  function Expected(answer: Option<Contents>, prefix: string): Option<map<string, Entry>> {
    if NoDirectory(answer) then None else Shown(Children(answer.value.files, answer.value.subtitles, prefix), prefix)
  }

  /** Which list each identity stands for. */
  type Lists = map<nat, seq<FileView>>

  ghost predicate Promised(lists: Lists, filesID: Option<nat>, files: seq<FileView>) {
    filesID.Some? ==> filesID.value in lists && lists[filesID.value] == files
  }

  /** One version of a torrent's contents, with the directories listed so far. */
  class Version {
    const filesID: Option<nat>
    const files: seq<FileView>
    const subtitles: seq<SubtitleView>
    var prefixes: map<string, map<string, Entry>>

    ghost predicate Valid(lists: Lists)
      reads this
    {
      Promised(lists, filesID, files) && forall p :: p in prefixes ==> prefixes[p] == Children(files, subtitles, p)
    }

    constructor (contents: Contents)
      ensures filesID == contents.filesID && files == contents.files && subtitles == contents.subtitles
      ensures prefixes == map[]
    {
      filesID, files, subtitles := contents.filesID, contents.files, contents.subtitles;
      prefixes := map[];
    }

    predicate Matches(contents: Contents) {
      && filesID == contents.filesID && (contents.filesID.None? ==> files == contents.files)
      && subtitles == contents.subtitles
    }

    /** Lists a directory of this version, once. Empty subdirectories are not remembered. */
    method Index(ghost lists: Lists, prefix: string) returns (index: map<string, Entry>)
      requires Valid(lists)
      modifies this`prefixes
      ensures Valid(lists) && index == Children(files, subtitles, prefix)
    {
      if prefix in prefixes {
        return prefixes[prefix];
      }
      index := ChildrenOfViews(files, subtitles, prefix);
      if prefix == "" || index != map[] {
        prefixes := prefixes[prefix := index];
      }
    }
  }

  class Tree {
    var current: map<Hash, Version>

    ghost predicate Valid(lists: Lists)
      reads this, set h | h in current :: current[h]
    {
      forall h :: h in current ==> current[h].Valid(lists)
    }

    constructor ()
      ensures current == map[]
    {
      current := map[];
    }

    /** A lookup with what the backend just answered. `newest` is the snapshot cache's answer: a
        reader that was superseded meanwhile uses its version but neither keeps nor forgets one. */
    method DirectoryOf(ghost lists: Lists, h: Hash, prefix: string, answer: Option<Contents>, newest: bool)
      returns (index: Option<map<string, Entry>>)
      requires Valid(lists) && (answer.Some? ==> Promised(lists, answer.value.filesID, answer.value.files))
      modifies this, set g | g in current :: current[g]
      ensures Valid(lists) && index == Expected(answer, prefix)
      ensures newest && !NoDirectory(answer) ==> h in current && current[h].Matches(answer.value)
      ensures newest && NoDirectory(answer) ==> h !in current
      ensures forall g :: g in old(current) && g != h ==> g in current && current[g] == old(current)[g]
      ensures !newest ==> current == old(current)
    {
      if NoDirectory(answer) {
        if newest {
          current := current - {h};
        }
        return None;
      }
      var entries := IndexOf(lists, h, prefix, answer.value, newest);
      return Shown(entries, prefix);
    }

    method IndexOf(ghost lists: Lists, h: Hash, prefix: string, contents: Contents, newest: bool)
      returns (index: map<string, Entry>)
      requires Valid(lists) && Promised(lists, contents.filesID, contents.files)
      modifies this, set g | g in current :: current[g]
      ensures Valid(lists) && index == Children(contents.files, contents.subtitles, prefix)
      ensures newest ==> h in current && current[h].Matches(contents)
      ensures forall g :: g in old(current) && g != h ==> g in current && current[g] == old(current)[g]
      ensures !newest ==> current == old(current)
    {
      var version: Version;
      if h in current && current[h].Matches(contents) {
        version := current[h];
      } else {
        version := new Version(contents);
        if newest {
          current := current[h := version];
        }
      }
      index := version.Index(lists, prefix);
    }
  }
}
