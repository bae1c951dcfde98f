/** Building a cache and looking files up in it are inverse of each other. */
module BuildLookup {
  import opened Toolbox
  import opened Disk
  import opened CacheSpec
  import opened Lookup

  ghost predicate Named(entries: seq<Entry>, name: string) {
    exists e :: e in entries && e.name == name
  }

  /** A filled folder is tidy, and its names are those of the entries it was filled from. */
  ghost predicate TidyFilling(r: Filling, entries: seq<Entry>, path: string)
    requires path != ""
  {
    && Tidy(FolderVal("", r.files, r.subfolders), path)
    && (forall f | f in r.files :: Named(entries, f.name))
    && (forall s | s in r.subfolders :: Named(entries, s.name))
  }

  lemma NamedMore(entries: seq<Entry>)
    requires entries != [] && WellNamed(entries)
    ensures Named(entries, entries[0].name) && !Named(entries[1..], entries[0].name)
    ensures ProperName(entries[0].name) && WellNamed(entries[1..])
    ensures entries[0].Directory? ==> WellNamed(entries[0].entries)
    ensures forall name | Named(entries[1..], name) :: Named(entries, name)
  {
    assert entries[0] in entries;
    forall name | Named(entries[1..], name)
      ensures Named(entries, name)
    {
      var e :| e in entries[1..] && e.name == name;
      assert e in entries;
    }
  }

  lemma TidySkipped(r: Filling, entries: seq<Entry>, path: string)
    requires path != "" && entries != [] && WellNamed(entries)
    requires TidyFilling(r, entries[1..], path)
    ensures TidyFilling(r, entries, path)
  {
    hide WellNamed, Tidy, Named;
    NamedMore(entries);
  }

  lemma TidyFile(r: Filling, f: FileVal, entries: seq<Entry>, path: string)
    requires path != "" && entries != [] && WellNamed(entries)
    requires TidyFilling(r, entries[1..], path)
    requires f.name == entries[0].name && !IsSpecial(f.name) && f.path == JoinPath(path, f.name)
    ensures TidyFilling(r.(files := [f] + r.files), entries, path)
  {
    hide WellNamed, Named, JoinPath;
    NamedMore(entries);
    var files := [f] + r.files;
    forall i, j | 0 <= i < j < |files|
      ensures files[i].name != files[j].name
    {
      assert files[j] == r.files[j - 1];
      if i == 0 {
        assert Named(entries[1..], files[j].name);
      } else {
        assert files[i] == r.files[i - 1];
      }
    }
  }

  lemma TidyFolder(r: Filling, s: FolderVal, entries: seq<Entry>, path: string)
    requires path != "" && entries != [] && WellNamed(entries)
    requires TidyFilling(r, entries[1..], path)
    requires s.name == entries[0].name && !IsSpecial(s.name) && Tidy(s, JoinPath(path, s.name))
    ensures TidyFilling(r.(subfolders := [s] + r.subfolders), entries, path)
  {
    hide WellNamed, Named, JoinPath;
    NamedMore(entries);
    var folders := [s] + r.subfolders;
    forall i, j | 0 <= i < j < |folders|
      ensures folders[i].name != folders[j].name
    {
      assert folders[j] == r.subfolders[j - 1];
      if i == 0 {
        assert Named(entries[1..], folders[j].name);
      } else {
        assert folders[i] == r.subfolders[i - 1];
      }
    }
  }

  /** The name of a folder does not matter for what is below it. */
  lemma TidyRenamed(r: Filling, name: string, entries: seq<Entry>, path: string)
    requires path != "" && TidyFilling(r, entries, path)
    ensures Tidy(FolderVal(name, r.files, r.subfolders), path)
  {
  }

  lemma EmptyTidy(path: string, free: int)
    requires path != ""
    ensures TidyFilling(Fill([], path, free), [], path)
  {
  }

  lemma {:induction false} FillIsTidy(entries: seq<Entry>, path: string, free: int)
    requires path != "" && WellNamed(entries)
    ensures TidyFilling(Fill(entries, path, free), entries, path)
    decreases entries
  {
    hide *;
    if entries == [] {
      EmptyTidy(path, free);
    } else {
      var e := entries[0];
      NamedMore(entries);
      if IsSpecial(e.name) || e.OtherEntry? {
        StepOnSkipped(entries, path, free);
        FillIsTidy(entries[1..], path, free);
        TidySkipped(Fill(entries[1..], path, free), entries, path);
      } else if e.RegularFile? {
        StepOnFile(entries, path, free);
        var f := CachedFile(ItemOf(e, path), free);
        var left := free - Cost(f);
        ItemFields(e, path);
        FillIsTidy(entries[1..], path, left);
        TidyFile(Fill(entries[1..], path, left), f, entries, path);
      } else {
        StepOnFolder(entries, path, free);
        var subPath := JoinPath(path, e.name);
        var sub := Fill(e.entries, subPath, free);
        FillIsTidy(e.entries, subPath, free);
        FillIsTidy(entries[1..], path, sub.free);
        TidyRenamed(sub, LastName(subPath), e.entries, subPath);
        ProperNameHasNoSlash(e.name);
        LastNameOfJoin(path, e.name);
        TidyFolder(Fill(entries[1..], path, sub.free),
                   FolderVal(LastName(subPath), sub.files, sub.subfolders), entries, path);
      }
    }
  }

  lemma ProperNameHasNoSlash(name: string)
    requires ProperName(name)
    ensures '/' !in name
  {
  }

  /** The tree built from a well-named directory is tidy. */
  lemma BuildIsTidy(entries: seq<Entry>, path: string, free: int)
    requires path != "" && WellNamed(entries)
    ensures Tidy(Build(entries, path, free), path)
  {
    FillIsTidy(entries, path, free);
    TidyRenamed(Fill(entries, path, free), LastName(path), entries, path);
  }

  /** Nor are they in a built tree, although they are in every listing. */
  lemma BuiltNamesAreNotOdd(entries: seq<Entry>, path: string, free: int, name: string)
    requires path != "" && WellNamed(entries) && HasName(Build(entries, path, free), name)
    ensures name != "" && '/' !in name && name != "." && name != ".."
  {
    hide *;
    BuildIsTidy(entries, path, free);
    NoOddNames(Build(entries, path, free), path, name);
  }

  /** The round trip, on values: every file of the tree built from a directory is found again
      from the path stored in it. */
  lemma BuiltFilesAreFound(entries: seq<Entry>, path: string, free: int, names: seq<string>, f: FileVal)
    requires path != "" && WellNamed(entries)
    requires names != [] && At(Build(entries, path, free), names, f)
    ensures path <= f.path
    ensures Walk(Build(entries, path, free), Components(Target(f, path))) == Some(f)
  {
    hide *;
    BuildIsTidy(entries, path, free);
    LookupFindsEveryFile(Build(entries, path, free), path, names, f);
  }

  /** A request target is answered with a file exactly when its names are the position of this
      file in the tree. */
  lemma FoundIffAtPosition(entries: seq<Entry>, path: string, free: int, target: string, f: FileVal)
    requires path != "" && WellNamed(entries)
    ensures Walk(Build(entries, path, free), Components(target)) == Some(f)
       <==> At(Build(entries, path, free), DropEmpty(Split(target)), f)
  {
    hide *;
    BuildIsTidy(entries, path, free);
    ComponentsSplitOnRuns(target);
    WalkIffAt(Build(entries, path, free), path, Components(target), f);
  }
}
