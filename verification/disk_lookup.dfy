/** The tree built from a directory holds the files of this directory, each at its position. */
module DiskLookup {
  import opened Toolbox
  import opened Disk
  import opened CacheSpec
  import opened Lookup
  import opened BuildLookup

  /** `e` is the regular file found on the disk by following `names` below a directory. */
  ghost predicate OnDisk(entries: seq<Entry>, names: seq<string>, e: Entry)
    decreases |names|
  {
    && |names| > 0 && names[0] != "." && names[0] != ".."
    && if |names| == 1 then e in entries && e.RegularFile? && e.name == names[0]
       else exists d :: d in entries && d.Directory? && d.name == names[0] && OnDisk(d.entries, names[1..], e)
  }

  /** `f` is what the cache keeps of the file `e`, which is the one at index `k` of a flattened
      directory: it is made with the space left by the files before it. */
  ghost predicate KeptAt(items: seq<Item>, free: int, k: nat, f: FileVal, e: Entry) {
    && e.RegularFile? && k < |items| && items[k] == Item(e.name, f.path, e.data, e.gzip, e.mime)
    && f == Greedy(items, free)[k]
  }

  ghost predicate Keeps(items: seq<Item>, free: int, f: FileVal, e: Entry) {
    exists k: nat :: KeptAt(items, free, k, f, e)
  }

  /** In particular it is loaded exactly if its raw size fits in this space. */
  lemma KeptFile(items: seq<Item>, free: int, k: nat, f: FileVal, e: Entry)
    requires KeptAt(items, free, k, f, e)
    ensures f == CachedFile(items[k], free - Held(Greedy(items, free)[..k]))
    ensures f.state != NotLoaded <==> |e.data| <= free - Held(Greedy(items, free)[..k])
  {
    hide Greedy;
    GreedyAt(items, free, k);
  }

  lemma KeepsFirst(e: Entry, path: string, items: seq<Item>, free: int)
    requires e.RegularFile? && path != ""
    ensures var f := CachedFile(ItemOf(e, path), free);
            f.name == e.name && Keeps([ItemOf(e, path)] + items, free, f, e)
  {
    var item := ItemOf(e, path);
    var f := CachedFile(item, free);
    GreedyCons(item, items, free);
    assert KeptAt([item] + items, free, 0, f, e);
  }

  lemma KeepsCons(item: Item, items: seq<Item>, free: int, f: FileVal, e: Entry)
    requires Keeps(items, free - Cost(CachedFile(item, free)), f, e)
    ensures Keeps([item] + items, free, f, e)
  {
    hide CachedFile, Greedy;
    var k: nat :| KeptAt(items, free - Cost(CachedFile(item, free)), k, f, e);
    GreedyCons(item, items, free);
    assert KeptAt([item] + items, free, k + 1, f, e);
  }

  /** Likewise when the files of a subdirectory come before others. */
  lemma KeepsBelow(below: seq<Item>, items: seq<Item>, free: int, f: FileVal, e: Entry)
    requires Keeps(below, free, f, e) || Keeps(items, free - Held(Greedy(below, free)), f, e)
    ensures Keeps(below + items, free, f, e)
  {
    hide CachedFile, Held;
    var left := free - Held(Greedy(below, free));
    GreedyAppend(below, items, free);
    if Keeps(below, free, f, e) {
      var k: nat :| KeptAt(below, free, k, f, e);
      assert KeptAt(below + items, free, k, f, e);
    } else {
      var k: nat :| KeptAt(items, left, k, f, e);
      assert KeptAt(below + items, free, |below| + k, f, e);
    }
  }

  /** What a subdirectory leaves is what its flattened files leave. */
  lemma LeftBelow(entries: seq<Entry>, path: string, free: int)
    requires path != ""
    ensures Fill(entries, path, free).free == free - Held(Greedy(Flatten(entries, path), free))
  {
    hide *;
    FillIsGreedy(entries, path, free);
    AgreeFree(Fill(entries, path, free), Greedy(Flatten(entries, path), free), free);
  }

  /** The position of a file in what fills a folder. */
  ghost predicate AtFilling(r: Filling, names: seq<string>, f: FileVal) {
    At(FolderVal("", r.files, r.subfolders), names, f)
  }

  lemma AtRenamed(r: Filling, name: string, names: seq<string>, f: FileVal)
    ensures At(FolderVal(name, r.files, r.subfolders), names, f) == AtFilling(r, names, f)
  {
  }

  lemma AtWithFile(r: Filling, g: FileVal, names: seq<string>, f: FileVal)
    ensures AtFilling(r.(files := [g] + r.files), names, f)
       <==> AtFilling(r, names, f) || (|names| == 1 && f == g && names[0] == g.name)
  {
    if |names| == 1 {
      assert f in [g] + r.files <==> f == g || f in r.files;
    }
  }

  lemma AtWithFolder(r: Filling, s: FolderVal, names: seq<string>, f: FileVal)
    ensures AtFilling(r.(subfolders := [s] + r.subfolders), names, f)
       <==> AtFilling(r, names, f) || (|names| > 1 && s.name == names[0] && At(s, names[1..], f))
  {
    if |names| > 1 {
      var folders := [s] + r.subfolders;
      assert folders[0] == s;
      assert forall i | 0 <= i < |r.subfolders| :: folders[i + 1] == r.subfolders[i];
    }
  }

  lemma OnDiskSplit(entries: seq<Entry>, names: seq<string>, e: Entry)
    requires entries != []
    ensures var head := entries[0];
      OnDisk(entries, names, e) <==>
        || OnDisk(entries[1..], names, e)
        || (|names| == 1 && head.RegularFile? && !IsSpecial(head.name) && e == head && names[0] == head.name)
        || (|names| > 1 && head.Directory? && !IsSpecial(head.name) && names[0] == head.name
            && OnDisk(head.entries, names[1..], e))
  {
    assert forall d :: d in entries <==> d == entries[0] || d in entries[1..];
  }

  /** Every file of the directory is in the tree, at the same position. */
  lemma {:induction false} DiskFileIsFilled(entries: seq<Entry>, path: string, free: int, names: seq<string>, e: Entry)
    returns (f: FileVal)
    requires path != "" && WellNamed(entries) && OnDisk(entries, names, e)
    ensures AtFilling(Fill(entries, path, free), names, f) && Keeps(Flatten(entries, path), free, f, e)
    decreases entries
  {
    hide *;
    NotEmpty(entries, names, e);
    var head := entries[0];
    var items := Flatten(entries[1..], path);
    NamedMore(entries);
    OnDiskSplit(entries, names, e);
    var here := !OnDisk(entries[1..], names, e);
    if IsSpecial(head.name) || head.OtherEntry? {
      StepOnSkipped(entries, path, free);
      f := DiskFileIsFilled(entries[1..], path, free, names, e);
    } else if head.RegularFile? {
      StepOnFile(entries, path, free);
      var g := CachedFile(ItemOf(head, path), free);
      var rest := Fill(entries[1..], path, free - Cost(g));
      if here {
        f := g;
        KeepsFirst(head, path, items, free);
      } else {
        f := DiskFileIsFilled(entries[1..], path, free - Cost(g), names, e);
        KeepsCons(ItemOf(head, path), items, free, f, e);
      }
      AtWithFile(rest, g, names, f);
    } else {
      StepOnFolder(entries, path, free);
      var subPath := JoinPath(path, head.name);
      var sub := Fill(head.entries, subPath, free);
      var rest := Fill(entries[1..], path, sub.free);
      var s := FolderVal(LastName(subPath), sub.files, sub.subfolders);
      ProperNameHasNoSlash(head.name);
      LastNameOfJoin(path, head.name);
      LeftBelow(head.entries, subPath, free);
      if here {
        f := DiskFileIsFilled(head.entries, subPath, free, names[1..], e);
        AtRenamed(sub, s.name, names[1..], f);
      } else {
        f := DiskFileIsFilled(entries[1..], path, sub.free, names, e);
      }
      KeepsBelow(Flatten(head.entries, subPath), items, free, f, e);
      AtWithFolder(rest, s, names, f);
    }
  }

  lemma NotEmpty(entries: seq<Entry>, names: seq<string>, e: Entry)
    requires OnDisk(entries, names, e)
    ensures entries != []
  {
  }

  /** Every file of the tree comes from the directory, from the same position. */
  lemma {:induction false} FilledFileIsOnDisk(entries: seq<Entry>, path: string, free: int, names: seq<string>,
                                              f: FileVal)
    returns (e: Entry)
    requires path != "" && WellNamed(entries) && AtFilling(Fill(entries, path, free), names, f)
    ensures OnDisk(entries, names, e) && Keeps(Flatten(entries, path), free, f, e)
    decreases entries
  {
    hide *;
    if entries == [] {
      NothingFilled(path, free, names, f);
    }
    var head := entries[0];
    var items := Flatten(entries[1..], path);
    NamedMore(entries);
    if IsSpecial(head.name) || head.OtherEntry? {
      StepOnSkipped(entries, path, free);
      e := FilledFileIsOnDisk(entries[1..], path, free, names, f);
    } else if head.RegularFile? {
      StepOnFile(entries, path, free);
      var g := CachedFile(ItemOf(head, path), free);
      var rest := Fill(entries[1..], path, free - Cost(g));
      AtWithFile(rest, g, names, f);
      KeepsFirst(head, path, items, free);
      if AtFilling(rest, names, f) {
        e := FilledFileIsOnDisk(entries[1..], path, free - Cost(g), names, f);
        KeepsCons(ItemOf(head, path), items, free, f, e);
      } else {
        e := head;
      }
    } else {
      StepOnFolder(entries, path, free);
      var subPath := JoinPath(path, head.name);
      var sub := Fill(head.entries, subPath, free);
      var rest := Fill(entries[1..], path, sub.free);
      var s := FolderVal(LastName(subPath), sub.files, sub.subfolders);
      ProperNameHasNoSlash(head.name);
      LastNameOfJoin(path, head.name);
      LeftBelow(head.entries, subPath, free);
      AtWithFolder(rest, s, names, f);
      if AtFilling(rest, names, f) {
        e := FilledFileIsOnDisk(entries[1..], path, sub.free, names, f);
      } else {
        AtRenamed(sub, s.name, names[1..], f);
        e := FilledFileIsOnDisk(head.entries, subPath, free, names[1..], f);
      }
      KeepsBelow(Flatten(head.entries, subPath), items, free, f, e);
    }
    OnDiskSplit(entries, names, e);
  }

  /** When no path of the directory is too long, nor is that stored in any file. */
  lemma {:induction false} FilledPathFits(entries: seq<Entry>, path: string, free: int, names: seq<string>, f: FileVal)
    requires path != "" && PathsFit(entries, path) && AtFilling(Fill(entries, path, free), names, f)
    ensures |f.path| - 1 <= MAX_PATH_LENGTH
    decreases entries
  {
    hide *;
    if entries == [] {
      NothingFilled(path, free, names, f);
    }
    var head := entries[0];
    PathsFitParts(entries, path);
    if IsSpecial(head.name) || head.OtherEntry? {
      StepOnSkipped(entries, path, free);
      FilledPathFits(entries[1..], path, free, names, f);
    } else if head.RegularFile? {
      StepOnFile(entries, path, free);
      var g := CachedFile(ItemOf(head, path), free);
      var rest := Fill(entries[1..], path, free - Cost(g));
      AtWithFile(rest, g, names, f);
      ItemFields(head, path);
      if AtFilling(rest, names, f) {
        FilledPathFits(entries[1..], path, free - Cost(g), names, f);
      }
    } else {
      StepOnFolder(entries, path, free);
      var subPath := JoinPath(path, head.name);
      var sub := Fill(head.entries, subPath, free);
      var rest := Fill(entries[1..], path, sub.free);
      var s := FolderVal(LastName(subPath), sub.files, sub.subfolders);
      AtWithFolder(rest, s, names, f);
      if AtFilling(rest, names, f) {
        FilledPathFits(entries[1..], path, sub.free, names, f);
      } else {
        AtRenamed(sub, s.name, names[1..], f);
        FilledPathFits(head.entries, subPath, free, names[1..], f);
      }
    }
  }

  lemma PathsFitParts(entries: seq<Entry>, path: string)
    requires path != "" && entries != [] && PathsFit(entries, path)
    ensures PathsFit(entries[1..], path)
    ensures !IsSpecial(entries[0].name) ==>
      && |JoinPath(path, entries[0].name)| - 1 <= MAX_PATH_LENGTH
      && (entries[0].Directory? ==> PathsFit(entries[0].entries, JoinPath(path, entries[0].name)))
  {
  }

  /** The path stored in a file of a built tree, without its root, is short enough to be looked up
      and to be parsed as the target of a request. */
  lemma StoredPathFits(entries: seq<Entry>, path: string, free: int, names: seq<string>, f: FileVal)
    requires path != "" && WellNamed(entries) && PathsFit(entries, path) && names != []
    requires At(Build(entries, path, free), names, f)
    ensures |f.path| <= 1025 && path <= f.path && |Target(f, path)| <= 1024
  {
    hide Fill, At, WellNamed, PathsFit;
    AtRenamed(Fill(entries, path, free), LastName(path), names, f);
    FilledPathFits(entries, path, free, names, f);
    BuiltFilesAreFound(entries, path, free, names, f);
  }

  lemma NothingFilled(path: string, free: int, names: seq<string>, f: FileVal)
    requires path != ""
    ensures !AtFilling(Fill([], path, free), names, f)
  {
  }

  /** `f` is what the cache keeps of the file `e` of a directory, which is given what the files
      before it leave. */
  ghost predicate KeptFrom(entries: seq<Entry>, path: string, free: int, f: FileVal, e: Entry)
    requires path != ""
  {
    Keeps(Flatten(entries, path), free, f, e)
  }

  lemma IsKept(entries: seq<Entry>, path: string, free: int, f: FileVal, e: Entry)
    requires path != "" && Keeps(Flatten(entries, path), free, f, e)
    ensures KeptFrom(entries, path, free, f, e)
  {
  }

  lemma KeptWhere(entries: seq<Entry>, path: string, free: int, f: FileVal, e: Entry) returns (k: nat)
    requires path != "" && KeptFrom(entries, path, free, f, e)
    ensures KeptAt(Flatten(entries, path), free, k, f, e)
  {
    hide KeptAt;
    k :| KeptAt(Flatten(entries, path), free, k, f, e);
  }

  /** Building is faithful: a position holds a file in the tree exactly when it holds a regular
      file on the disk, and this file is what the cache keeps of it. */
  lemma TreeMirrorsDisk(entries: seq<Entry>, path: string, free: int, names: seq<string>)
    requires path != "" && WellNamed(entries)
    ensures forall f :: At(Build(entries, path, free), names, f) ==>
              exists e :: OnDisk(entries, names, e) && KeptFrom(entries, path, free, f, e)
    ensures forall e :: OnDisk(entries, names, e) ==>
              exists f :: At(Build(entries, path, free), names, f) && KeptFrom(entries, path, free, f, e)
  {
    hide Fill, At, WellNamed, KeptFrom, OnDisk;
    var r := Fill(entries, path, free);
    forall f | At(Build(entries, path, free), names, f)
      ensures exists e :: OnDisk(entries, names, e) && KeptFrom(entries, path, free, f, e)
    {
      AtRenamed(r, LastName(path), names, f);
      var e := FilledFileIsOnDisk(entries, path, free, names, f);
      IsKept(entries, path, free, f, e);
    }
    forall e | OnDisk(entries, names, e)
      ensures exists f :: At(Build(entries, path, free), names, f) && KeptFrom(entries, path, free, f, e)
    {
      var f := DiskFileIsFilled(entries, path, free, names, e);
      IsKept(entries, path, free, f, e);
      AtRenamed(r, LastName(path), names, f);
    }
  }

  /** Looking up the names of a file of the disk, joined by slashes, finds what the cache keeps of
      this file. */
  lemma DiskFileIsFound(entries: seq<Entry>, path: string, free: int, names: seq<string>, e: Entry)
    returns (f: FileVal, k: nat)
    requires path != "" && WellNamed(entries) && OnDisk(entries, names, e) && names != []
    ensures AllProper(names)
    ensures At(Build(entries, path, free), names, f)
    ensures Walk(Build(entries, path, free), Components("/" + Join(names))) == Some(f)
    ensures KeptAt(Flatten(entries, path), free, k, f, e)
  {
    hide Fill, At, WellNamed, KeptFrom, OnDisk, Build, Walk, Components, Cut, AllProper;
    var v := Build(entries, path, free);
    TreeMirrorsDisk(entries, path, free, names);
    f :| At(v, names, f) && KeptFrom(entries, path, free, f, e);
    BuildIsTidy(entries, path, free);
    PathOfPosition(v, path, names, f);
    WalkIffAt(v, path, names, f);
    ComponentsOfJoin(names);
    LeadingSlash(Join(names));
    k := KeptWhere(entries, path, free, f, e);
  }
}
