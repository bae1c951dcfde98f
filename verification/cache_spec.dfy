/** What building the cache from a directory computes, on values (`src/file_cache.c`). */
module CacheSpec {
  import opened Toolbox
  import opened Subprocess
  import opened Disk

  datatype FileState = NotLoaded | LoadedRaw | LoadedCompressed

  datatype FileEncoding = Gzip | NoEncoding

  datatype FileVal = FileVal(
    name: string,
    path: string,
    state: FileState,
    content: Option<string>,
    size: nat,
    mustUnload: bool,
    mime: Option<string>,
    encoding: FileEncoding)

  datatype FolderVal = FolderVal(name: string, files: seq<FileVal>, subfolders: seq<FolderVal>)

  /** The MIME type `setFileType` keeps: the last byte read (a newline) is dropped. */
  function MimeType(output: string): Option<string> {
    var kept := Kept(output, MAX_FILE_TYPE_LENGTH - 1);
    if |kept| < 2 then None else Some(CString(kept[..|kept| - 1]))
  }

  /** A regular file met by the traversal, with its path. */
  datatype Item = Item(name: string, path: string, data: string, gzip: string, mime: string)

  function ItemOf(e: Entry, path: string): Item
    requires e.RegularFile? && path != ""
  {
    Item(e.name, JoinPath(path, e.name), e.data, e.gzip, e.mime)
  }

  /** The cached file made from a regular file when `free` bytes are left. */
  function CachedFile(e: Item, free: int): FileVal {
    var mime := MimeType(e.mime);
    if |e.data| > free then
      FileVal(e.name, e.path, NotLoaded, None, |e.data|, true, mime, NoEncoding)
    else if |e.data| < MIN_FILE_SIZE_FOR_GZIP then
      FileVal(e.name, e.path, LoadedRaw, Some(e.data), |e.data|, false, mime, NoEncoding)
    else
      var kept := Kept(e.gzip, |e.data|);
      FileVal(e.name, e.path, LoadedCompressed, Some(kept), |kept|, false, mime, Gzip)
  }

  /** What a file takes from the memory budget. */
  function Cost(f: FileVal): nat {
    if f.state == NotLoaded then 0 else f.size
  }

  datatype Filling = Filling(files: seq<FileVal>, subfolders: seq<FolderVal>, free: int)

  /** Filling a folder from the entries of the directory `path`, depth first. */
  function Fill(entries: seq<Entry>, path: string, free: int): Filling
    requires path != ""
    decreases entries
  {
    if entries == [] then Filling([], [], free)
    else
      var e := entries[0];
      if IsSpecial(e.name) || e.OtherEntry? then Fill(entries[1..], path, free)
      else if e.RegularFile? then
        var f := CachedFile(ItemOf(e, path), free);
        var rest := Fill(entries[1..], path, free - Cost(f));
        rest.(files := [f] + rest.files)
      else
        var subPath := JoinPath(path, e.name);
        var sub := Fill(e.entries, subPath, free);
        var rest := Fill(entries[1..], path, sub.free);
        rest.(subfolders := [FolderVal(LastName(subPath), sub.files, sub.subfolders)] + rest.subfolders)
  }

  /** The folder built from the directory `path`. */
  function Build(entries: seq<Entry>, path: string, free: int): FolderVal
    requires path != ""
  {
    var filling := Fill(entries, path, free);
    FolderVal(LastName(path), filling.files, filling.subfolders)
  }

  /** The regular files below a directory, in the order the traversal meets them. */
  function Flatten(entries: seq<Entry>, path: string): seq<Item>
    requires path != ""
    decreases entries
  {
    if entries == [] then []
    else
      var e := entries[0];
      var rest := Flatten(entries[1..], path);
      if IsSpecial(e.name) || e.OtherEntry? then rest
      else if e.RegularFile? then [ItemOf(e, path)] + rest
      else Flatten(e.entries, JoinPath(path, e.name)) + rest
  }

  /** One step of the build and of the traversal, for each kind of entry. */
  lemma StepOnSkipped(entries: seq<Entry>, path: string, free: int)
    requires path != "" && entries != []
    requires IsSpecial(entries[0].name) || entries[0].OtherEntry?
    ensures Fill(entries, path, free) == Fill(entries[1..], path, free)
    ensures Flatten(entries, path) == Flatten(entries[1..], path)
  {
  }

  lemma StepOnFile(entries: seq<Entry>, path: string, free: int)
    requires path != "" && entries != []
    requires !IsSpecial(entries[0].name) && entries[0].RegularFile?
    ensures var f := CachedFile(ItemOf(entries[0], path), free);
            var rest := Fill(entries[1..], path, free - Cost(f));
            Fill(entries, path, free) == rest.(files := [f] + rest.files)
    ensures Flatten(entries, path) == [ItemOf(entries[0], path)] + Flatten(entries[1..], path)
  {
    hide CachedFile, Cost;
  }

  lemma StepOnFolder(entries: seq<Entry>, path: string, free: int)
    requires path != "" && entries != []
    requires !IsSpecial(entries[0].name) && entries[0].Directory?
    ensures var subPath := JoinPath(path, entries[0].name);
            var sub := Fill(entries[0].entries, subPath, free);
            var rest := Fill(entries[1..], path, sub.free);
            var folder := FolderVal(LastName(subPath), sub.files, sub.subfolders);
            Fill(entries, path, free) == rest.(subfolders := [folder] + rest.subfolders)
    ensures Flatten(entries, path) ==
            Flatten(entries[0].entries, JoinPath(path, entries[0].name)) + Flatten(entries[1..], path)
  {
  }

  // ---------------------------------------------------------------------------
  // Sizes and budget
  // ---------------------------------------------------------------------------

  function SumSizes(files: seq<FileVal>): nat {
    if files == [] then 0 else files[0].size + SumSizes(files[1..])
  }

  /** The bytes a file has in memory. */
  function HeldBy(f: FileVal): nat {
    if f.content.Some? then |f.content.value| else 0
  }

  /** The bytes some files have in memory. */
  function Held(files: seq<FileVal>): nat {
    if files == [] then 0 else HeldBy(files[0]) + Held(files[1..])
  }

  /** What a file takes from the budget is what it has in memory. */
  lemma CostIsHeld(e: Item, free: int)
    ensures Cost(CachedFile(e, free)) == HeldBy(CachedFile(e, free))
  {
  }

  /** All the files below some folders. */
  function FilesBelow(folders: seq<FolderVal>): seq<FileVal>
    decreases folders
  {
    if folders == [] then []
    else folders[0].files + FilesBelow(folders[0].subfolders) + FilesBelow(folders[1..])
  }

  function AllFiles(folder: FolderVal): seq<FileVal> {
    folder.files + FilesBelow(folder.subfolders)
  }

  lemma SumSizesAppend(a: seq<FileVal>, b: seq<FileVal>)
    ensures SumSizes(a + b) == SumSizes(a) + SumSizes(b)
  {
    if a == [] {
      assert a + b == b;
    } else {
      assert (a + b)[1..] == a[1..] + b;
    }
  }

  lemma HeldAppend(a: seq<FileVal>, b: seq<FileVal>)
    ensures Held(a + b) == Held(a) + Held(b)
  {
    if a == [] {
      assert a + b == b;
    } else {
      assert (a + b)[1..] == a[1..] + b;
    }
  }

  lemma HeldCons(f: FileVal, files: seq<FileVal>)
    ensures Held([f] + files) == HeldBy(f) + Held(files)
  {
    assert ([f] + files)[1..] == files;
  }

  /** What is left plus what the files have in memory is what was given, and a budget that was not
      negative is still not. */
  ghost predicate Conserves(r: Filling, free: int) {
    && Held(r.files) + Held(FilesBelow(r.subfolders)) == free - r.free
    && (0 <= free ==> 0 <= r.free)
  }

  lemma ConservesFile(item: Item, rest: Filling, free: int)
    requires var f := CachedFile(item, free); Conserves(rest, free - Cost(f))
    ensures var f := CachedFile(item, free); Conserves(rest.(files := [f] + rest.files), free)
  {
    CostIsHeld(item, free);
    HeldCons(CachedFile(item, free), rest.files);
  }

  lemma ConservesFolder(name: string, sub: Filling, rest: Filling, free: int)
    requires Conserves(sub, free) && Conserves(rest, sub.free)
    ensures Conserves(rest.(subfolders := [FolderVal(name, sub.files, sub.subfolders)] + rest.subfolders), free)
  {
    FilesBelowCons(name, sub.files, sub.subfolders, rest.subfolders);
    HeldAppend(sub.files, FilesBelow(sub.subfolders));
    HeldAppend(sub.files + FilesBelow(sub.subfolders), FilesBelow(rest.subfolders));
  }

  lemma FilesBelowCons(name: string, files: seq<FileVal>, subfolders: seq<FolderVal>, rest: seq<FolderVal>)
    ensures FilesBelow([FolderVal(name, files, subfolders)] + rest)
         == files + FilesBelow(subfolders) + FilesBelow(rest)
  {
    assert ([FolderVal(name, files, subfolders)] + rest)[1..] == rest;
  }

  /** Conservation of the memory budget by the recursive build. */
  lemma {:induction false} FillConservesBudget(entries: seq<Entry>, path: string, free: int)
    requires path != ""
    ensures Conserves(Fill(entries, path, free), free)
    decreases entries
  {
    hide *;
    if entries == [] {
      EmptyFill(path, free);
    } else {
      var e := entries[0];
      if IsSpecial(e.name) || e.OtherEntry? {
        StepOnSkipped(entries, path, free);
        FillConservesBudget(entries[1..], path, free);
      } else if e.RegularFile? {
        StepOnFile(entries, path, free);
        var left := free - Cost(CachedFile(ItemOf(e, path), free));
        FillConservesBudget(entries[1..], path, left);
        ConservesFile(ItemOf(e, path), Fill(entries[1..], path, left), free);
      } else {
        StepOnFolder(entries, path, free);
        var subPath := JoinPath(path, e.name);
        var sub := Fill(e.entries, subPath, free);
        FillConservesBudget(e.entries, subPath, free);
        FillConservesBudget(entries[1..], path, sub.free);
        ConservesFolder(LastName(subPath), sub, Fill(entries[1..], path, sub.free), free);
      }
    }
  }

  lemma EmptyFill(path: string, free: int)
    requires path != ""
    ensures Fill([], path, free) == Filling([], [], free)
    ensures Conserves(Fill([], path, free), free)
    ensures Flatten([], path) == []
  {
  }

  // ---------------------------------------------------------------------------
  // The build as a greedy allocation
  // ---------------------------------------------------------------------------

  /** One left fold over a list of files: each one is loaded if it fits in what is left. */
  function Greedy(items: seq<Item>, free: int): (files: seq<FileVal>)
    ensures |files| == |items|
  {
    if items == [] then []
    else
      var f := CachedFile(items[0], free);
      [f] + Greedy(items[1..], free - Cost(f))
  }

  lemma {:induction false} GreedyAppend(a: seq<Item>, b: seq<Item>, free: int)
    ensures Greedy(a + b, free) == Greedy(a, free) + Greedy(b, free - Held(Greedy(a, free)))
    decreases a
  {
    hide CachedFile;
    if a == [] {
      assert a + b == b;
    } else {
      var f := CachedFile(a[0], free);
      var left := free - Cost(f);
      var tail := Greedy(a[1..], left);
      assert (a + b)[1..] == a[1..] + b && (a + b)[0] == a[0];
      assert Greedy(a + b, free) == [f] + Greedy(a[1..] + b, left);
      GreedyAppend(a[1..], b, left);
      HeldCons(f, tail);
      CostIsHeld(a[0], free);
      assert Greedy(a, free) == [f] + tail;
    }
  }

  lemma GreedyCons(item: Item, items: seq<Item>, free: int)
    ensures var f := CachedFile(item, free);
            Greedy([item] + items, free) == [f] + Greedy(items, free - Cost(f))
  {
    hide CachedFile;
    assert ([item] + items)[1..] == items;
  }

  /** A filled folder and the outcome of the fold agree. */
  ghost predicate Agree(r: Filling, g: seq<FileVal>, free: int) {
    && multiset(r.files + FilesBelow(r.subfolders)) == multiset(g)
    && r.free == free - Held(g)
  }

  lemma AgreeFile(f: FileVal, rest: Filling, g: seq<FileVal>, free: int)
    requires Agree(rest, g, free - Cost(f)) && Cost(f) == HeldBy(f)
    ensures Agree(rest.(files := [f] + rest.files), [f] + g, free)
  {
    hide Held, FilesBelow, Cost, HeldBy;
    HeldCons(f, g);
    var below := FilesBelow(rest.subfolders);
    assert [f] + rest.files + below == [f] + (rest.files + below);
    assert multiset([f] + (rest.files + below)) == multiset{f} + multiset(rest.files + below);
  }

  lemma AgreeFolder(name: string, sub: Filling, rest: Filling, g: seq<FileVal>, h: seq<FileVal>, free: int)
    requires Agree(sub, g, free) && Agree(rest, h, sub.free)
    ensures Agree(rest.(subfolders := [FolderVal(name, sub.files, sub.subfolders)] + rest.subfolders), g + h, free)
  {
    FilesBelowCons(name, sub.files, sub.subfolders, rest.subfolders);
    HeldAppend(g, h);
  }

  /** The recursive build, with its budget shared along the tree, loads what the fold over the
      flattened list loads, and leaves the same budget. */
  lemma {:induction false} FillIsGreedy(entries: seq<Entry>, path: string, free: int)
    requires path != ""
    ensures Agree(Fill(entries, path, free), Greedy(Flatten(entries, path), free), free)
    decreases entries
  {
    hide *;
    if entries == [] {
      EmptyAgrees(path, free);
    } else {
      var e := entries[0];
      var items := Flatten(entries[1..], path);
      if IsSpecial(e.name) || e.OtherEntry? {
        StepOnSkipped(entries, path, free);
        FillIsGreedy(entries[1..], path, free);
      } else if e.RegularFile? {
        StepOnFile(entries, path, free);
        var f := CachedFile(ItemOf(e, path), free);
        FillIsGreedy(entries[1..], path, free - Cost(f));
        CostIsHeld(ItemOf(e, path), free);
        AgreeFile(f, Fill(entries[1..], path, free - Cost(f)), Greedy(items, free - Cost(f)), free);
        GreedyCons(ItemOf(e, path), items, free);
      } else {
        StepOnFolder(entries, path, free);
        var subPath := JoinPath(path, e.name);
        var below := Flatten(e.entries, subPath);
        var sub := Fill(e.entries, subPath, free);
        FillIsGreedy(e.entries, subPath, free);
        FillIsGreedy(entries[1..], path, sub.free);
        GreedyAppend(below, items, free);
        AgreeFree(sub, Greedy(below, free), free);
        AgreeFolder(LastName(subPath), sub, Fill(entries[1..], path, sub.free),
                    Greedy(below, free), Greedy(items, sub.free), free);
      }
    }
  }

  lemma EmptyAgrees(path: string, free: int)
    requires path != ""
    ensures Agree(Fill([], path, free), Greedy(Flatten([], path), free), free)
  {
  }

  lemma AgreeFree(r: Filling, g: seq<FileVal>, free: int)
    requires Agree(r, g, free)
    ensures r.free == free - Held(g)
  {
  }

  /** The fold in closed form: each file is made with what its predecessors left. */
  lemma {:induction false} GreedyAt(items: seq<Item>, free: int, k: nat)
    requires k < |items|
    ensures var files := Greedy(items, free);
            files[k] == CachedFile(items[k], free - Held(files[..k]))
    decreases k
  {
    hide CachedFile;
    var files := Greedy(items, free);
    var f := CachedFile(items[0], free);
    if k > 0 {
      GreedyAt(items[1..], free - Cost(f), k - 1);
      assert files[..k] == [f] + files[1..][..k - 1];
      HeldCons(f, files[1..][..k - 1]);
      CostIsHeld(items[0], free);
    }
  }

  /** A file is loaded exactly when its raw size fits in what its predecessors left. */
  lemma GreedyLoadsWhatFits(items: seq<Item>, free: int, k: nat)
    requires k < |items|
    ensures var files := Greedy(items, free);
            && files[k].state != NotLoaded <==> |items[k].data| <= free - Held(files[..k])
  {
    hide Greedy;
    GreedyAt(items, free, k);
  }

  /** For instance, of two files of 80 bytes which gzip does not shorten, only the first one is kept
      in a cache of 100 bytes. */
  lemma SecondFileIsLeftOut(a: Item, b: Item)
    requires |a.data| == |b.data| == 80 && |a.gzip| >= 80
    ensures var files := Greedy([a, b], 100);
            files[0].state == LoadedCompressed && HeldBy(files[0]) == 80 && files[1].state == NotLoaded
  {
    assert [a, b][1..] == [b];
    CostIsHeld(a, 100);
  }

  // ---------------------------------------------------------------------------
  // What every cached file satisfies
  // ---------------------------------------------------------------------------

  /** Coherence of the fields of a file. */
  ghost predicate Coherent(f: FileVal) {
    && (f.mustUnload <==> f.state == NotLoaded)
    && (f.encoding == Gzip <==> f.state == LoadedCompressed)
    && (f.content.Some? <==> f.state != NotLoaded)
    && (f.content.Some? ==> |f.content.value| == f.size)
    && (f.mime.Some? ==> |f.mime.value| <= MAX_FILE_TYPE_LENGTH - 2)
  }

  /** A coherent file whose size a C `int` holds. */
  ghost predicate FileOk(f: FileVal) {
    Coherent(f) && f.size <= INT_MAX
  }

  ghost predicate FilesOk(files: seq<FileVal>) {
    forall f | f in files :: FileOk(f)
  }

  ghost predicate AllCoherent(files: seq<FileVal>, sized: bool) {
    forall f | f in files :: Coherent(f) && (sized ==> f.size <= INT_MAX)
  }

  /** Every file is coherent, and has a bounded size if `sized`. */
  ghost predicate FillingOk(r: Filling, sized: bool) {
    AllCoherent(r.files, sized) && AllCoherent(FilesBelow(r.subfolders), sized)
  }

  lemma FewerSized(r: Filling, sized: bool)
    requires FillingOk(r, sized)
    ensures FillingOk(r, false)
  {
  }

  lemma CachedFileOk(item: Item, free: int, rest: Filling, sized: bool)
    requires (sized ==> |item.data| <= INT_MAX) && FillingOk(rest, sized)
    ensures FillingOk(rest.(files := [CachedFile(item, free)] + rest.files), sized)
  {
    assert Coherent(CachedFile(item, free));
  }

  lemma FolderOk(name: string, sub: Filling, rest: Filling, sized: bool)
    requires FillingOk(sub, sized) && FillingOk(rest, sized)
    ensures FillingOk(rest.(subfolders := [FolderVal(name, sub.files, sub.subfolders)] + rest.subfolders), sized)
  {
    FilesBelowCons(name, sub.files, sub.subfolders, rest.subfolders);
  }

  lemma SizesFitParts(entries: seq<Entry>)
    requires SizesFit(entries) && entries != []
    ensures entries[0].RegularFile? ==> |entries[0].data| <= INT_MAX
    ensures entries[0].Directory? ==> SizesFit(entries[0].entries)
    ensures SizesFit(entries[1..])
  {
  }

  lemma EmptyFillOk(path: string, free: int)
    requires path != ""
    ensures FillingOk(Fill([], path, free), true)
  {
  }

  /** Every file the build makes is coherent, and the sizes are bounded if those of the disk are. */
  lemma {:induction false} FillFilesOk(entries: seq<Entry>, path: string, free: int, sized: bool)
    requires path != "" && (sized ==> SizesFit(entries))
    ensures FillingOk(Fill(entries, path, free), sized)
    decreases entries
  {
    hide *;
    if entries == [] {
      EmptyFillOk(path, free);
      if !sized {
        FewerSized(Fill(entries, path, free), true);
      }
    } else {
      var e := entries[0];
      if sized {
        SizesFitParts(entries);
      }
      if IsSpecial(e.name) || e.OtherEntry? {
        StepOnSkipped(entries, path, free);
        FillFilesOk(entries[1..], path, free, sized);
      } else if e.RegularFile? {
        StepOnFile(entries, path, free);
        var item := ItemOf(e, path);
        ItemFields(e, path);
        var left := free - Cost(CachedFile(item, free));
        FillFilesOk(entries[1..], path, left, sized);
        CachedFileOk(item, free, Fill(entries[1..], path, left), sized);
      } else {
        StepOnFolder(entries, path, free);
        var subPath := JoinPath(path, e.name);
        var sub := Fill(e.entries, subPath, free);
        FillFilesOk(e.entries, subPath, free, sized);
        FillFilesOk(entries[1..], path, sub.free, sized);
        FolderOk(LastName(subPath), sub, Fill(entries[1..], path, sub.free), sized);
      }
    }
  }

  /** The files of a built tree are coherent, and if the sizes on the disk fit in a C `int` then
      so do theirs. */
  lemma BuildFilesOk(entries: seq<Entry>, path: string, free: int)
    requires path != ""
    ensures forall f | f in AllFiles(Build(entries, path, free)) :: Coherent(f)
    ensures SizesFit(entries) ==> FilesOk(AllFiles(Build(entries, path, free)))
  {
    hide Fill, Coherent, SizesFit, FilesBelow;
    FillFilesOk(entries, path, free, false);
    if SizesFit(entries) {
      FillFilesOk(entries, path, free, true);
    }
  }

  lemma ItemFields(e: Entry, path: string)
    requires e.RegularFile? && path != ""
    ensures ItemOf(e, path).data == e.data
    ensures forall free :: var f := CachedFile(ItemOf(e, path), free);
                           f.name == e.name && f.path == JoinPath(path, e.name)
  {
  }

  /** A loaded file is cached in full exactly when it is too small for gzip, or when its
      compressed form is no longer than its raw form; otherwise its compressed form is cut. */
  lemma LoadedInFullIff(e: Item, free: int)
    requires |e.data| <= free
    ensures var f := CachedFile(e, free);
            f.state != NotLoaded
            && (f.content == Some(if f.encoding == Gzip then e.gzip else e.data)
                <==> |e.data| < MIN_FILE_SIZE_FOR_GZIP || |e.gzip| <= |e.data|)
  {
    KeptIsComplete(e.gzip, |e.data|);
  }

  /** For instance a file of 64 bytes whose compressed form has one more: whatever `gzip` printed, its
      last byte is lost. */
  lemma GzipLongerThanData(e: Item, free: int)
    requires |e.data| == 64 <= free && |e.gzip| == 65
    ensures var f := CachedFile(e, free);
            f.state == LoadedCompressed && f.size == 64 && f.content == Some(e.gzip[..64]) != Some(e.gzip)
  {
    LoadedInFullIff(e, free);
  }

  /** There is no type when `file` prints less than two characters. */
  lemma NoMimeType(output: string)
    ensures MimeType(output).None? <==> |output| < 2
  {
  }

  /** The type of a file is what `file` prints on its line, up to 254 characters. */
  lemma MimeTypeOfLine(line: string)
    requires line != "" && '\0' !in line
    ensures MimeType(line + "\n") == Some(line[..Min(|line|, 254)])
  {
    var kept := Kept(line + "\n", MAX_FILE_TYPE_LENGTH - 1);
    var s := line[..Min(|line|, MAX_FILE_TYPE_LENGTH - 2)];
    assert kept[..|kept| - 1] == s;
    CStringWithoutNul(s);
  }
}
