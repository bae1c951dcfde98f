/** The directories the cache is built from, and the constants of `src/file_cache.h`. */
module Disk {
  import opened Toolbox

  const MAX_NAME_LENGTH: nat := 1024
  const MAX_PATH_LENGTH := 1024
  const MAX_FILE_TYPE_LENGTH := 256
  const MIN_FILE_SIZE_FOR_GZIP := 64
  const INT_MAX := 0x7fff_ffff

  /** One entry of a directory listing. A regular file comes with what `gzip --stdout` and
      `file --mime -0b` print about it; `OtherEntry` is anything that is neither a regular
      file nor a directory. */
  datatype Entry =
    | RegularFile(name: string, data: string, gzip: string, mime: string)
    | Directory(name: string, entries: seq<Entry>)
    | OtherEntry(name: string)

  /** The current directory and its parent, which listings include. */
  predicate IsSpecial(name: string) {
    name == "." || name == ".."
  }

  /** A name an actual file system may hold. */
  predicate ProperName(name: string) {
    name != "" && '/' !in name
  }

  /** Every path met below `path` is short enough for `PathBuffer.AppendName`. */
  predicate PathsFit(entries: seq<Entry>, path: string)
    requires path != ""
    decreases entries
  {
    entries == [] ||
    (var e := entries[0];
     && (IsSpecial(e.name) || EntryFits(e, path))
     && (IsSpecial(e.name) || !e.Directory? || PathsFit(e.entries, JoinPath(path, e.name)))
     && PathsFit(entries[1..], path))
  }

  predicate EntryFits(e: Entry, path: string)
    requires path != ""
  {
    |JoinPath(path, e.name)| - 1 <= MAX_PATH_LENGTH
  }

  /** These names lead from a directory to some entry, whatever it is, other than "." and "..". */
  ghost predicate Met(entries: seq<Entry>, names: seq<string>)
    decreases |names|
  {
    |names| > 0 && exists e :: e in entries && Leads(e, names)
  }

  ghost predicate Leads(e: Entry, names: seq<string>)
    requires |names| > 0
    decreases |names|, 0
  {
    && e.name == names[0] && e.name != "." && e.name != ".."
    && (|names| == 1 || (e.Directory? && Met(e.entries, names[1..])))
  }

  /** The path of what is reached by these names. */
  function FullPath(path: string, names: seq<string>): string
    requires path != ""
    decreases |names|
  {
    if names == [] then path else FullPath(JoinPath(path, names[0]), names[1..])
  }

  /** No path met, from this one on, has more than 1025 characters. */
  ghost predicate ShortPaths(entries: seq<Entry>, path: string)
    requires path != ""
  {
    forall names | Met(entries, names) :: |FullPath(path, names)| <= 1025
  }

  lemma {:induction false} PathsFitMember(entries: seq<Entry>, path: string, e: Entry)
    requires path != "" && PathsFit(entries, path) && e in entries && e.name != "." && e.name != ".."
    ensures EntryFits(e, path) && (e.Directory? ==> PathsFit(e.entries, JoinPath(path, e.name)))
    decreases |entries|
  {
    if e != entries[0] {
      PathsFitMember(entries[1..], path, e);
    }
  }

  lemma {:induction false} MetPathFits(entries: seq<Entry>, path: string, names: seq<string>)
    requires path != "" && PathsFit(entries, path) && Met(entries, names)
    ensures |FullPath(path, names)| <= 1025
    decreases |names|
  {
    var e :| e in entries && Leads(e, names);
    PathsFitMember(entries, path, e);
    if |names| > 1 {
      MetPathFits(e.entries, JoinPath(path, e.name), names[1..]);
    } else {
      assert names[1..] == [];
    }
  }

  lemma {:induction false} PathsFitIfMetDo(entries: seq<Entry>, path: string)
    requires path != "" && ShortPaths(entries, path)
    ensures PathsFit(entries, path)
    decreases entries
  {
    if entries != [] {
      var e := entries[0];
      assert e in entries;
      forall names | Met(entries[1..], names)
        ensures |FullPath(path, names)| <= 1025
      {
        var d :| d in entries[1..] && Leads(d, names);
        assert d in entries && Met(entries, names);
      }
      PathsFitIfMetDo(entries[1..], path);
      if e.name != "." && e.name != ".." {
        assert Leads(e, [e.name]) && Met(entries, [e.name]);
        assert [e.name][1..] == [] && FullPath(path, [e.name]) == FullPath(JoinPath(path, e.name), []);
        if e.Directory? {
          forall names | Met(e.entries, names)
            ensures |FullPath(JoinPath(path, e.name), names)| <= 1025
          {
            var longer := [e.name] + names;
            assert longer[1..] == names && Leads(e, longer) && Met(entries, longer);
          }
          PathsFitIfMetDo(e.entries, JoinPath(path, e.name));
        }
      }
    }
  }

  /** No path is too long exactly when no path met, from the root on, has more than 1025 characters. */
  lemma PathsFitIff(entries: seq<Entry>, path: string)
    requires path != ""
    ensures PathsFit(entries, path) <==> ShortPaths(entries, path)
  {
    if PathsFit(entries, path) {
      forall names | Met(entries, names)
        ensures |FullPath(path, names)| <= 1025
      {
        MetPathFits(entries, path, names);
      }
    }
    if ShortPaths(entries, path) {
      PathsFitIfMetDo(entries, path);
    }
  }

  /** Sibling entries have proper and distinct names, at every level. */
  ghost predicate WellNamed(entries: seq<Entry>)
    decreases entries
  {
    entries == [] ||
    (var e := entries[0];
     && ProperName(e.name)
     && (forall x | x in entries[1..] :: x.name != e.name)
     && (e.Directory? ==> WellNamed(e.entries))
     && WellNamed(entries[1..]))
  }

  /** File sizes that a C `int` holds. */
  ghost predicate SizesFit(entries: seq<Entry>)
    decreases entries
  {
    entries == [] ||
    (var e := entries[0];
     && (e.RegularFile? ==> |e.data| <= INT_MAX)
     && (e.Directory? ==> SizesFit(e.entries))
     && SizesFit(entries[1..]))
  }
}
