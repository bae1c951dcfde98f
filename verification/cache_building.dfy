/** Building the cache from a directory (`src/file_cache.c`). */
module CacheBuilding {
  import opened Toolbox
  import opened Disk
  import opened CacheSpec
  import opened FileCaching

  // ---------------------------------------------------------------------------
  // First pass
  // ---------------------------------------------------------------------------

  function CountFiles(entries: seq<Entry>): nat {
    if entries == [] then 0
    else (if !IsSpecial(entries[0].name) && entries[0].RegularFile? then 1 else 0) + CountFiles(entries[1..])
  }

  function CountFolders(entries: seq<Entry>): nat {
    if entries == [] then 0
    else (if !IsSpecial(entries[0].name) && entries[0].Directory? then 1 else 0) + CountFolders(entries[1..])
  }

  /** The first pass counts exactly what the second one inserts. */
  lemma {:induction false} PassesAgree(entries: seq<Entry>, path: string, free: int)
    requires path != ""
    ensures CountFiles(entries) == |Fill(entries, path, free).files|
    ensures CountFolders(entries) == |Fill(entries, path, free).subfolders|
    decreases |entries|
  {
    hide CachedFile;
    if entries != [] {
      var e := entries[0];
      if IsSpecial(e.name) || e.OtherEntry? {
        PassesAgree(entries[1..], path, free);
      } else if e.RegularFile? {
        PassesAgree(entries[1..], path, free - Cost(CachedFile(ItemOf(e, path), free)));
      } else {
        PassesAgree(entries[1..], path, Fill(e.entries, JoinPath(path, e.name), free).free);
      }
    }
  }

  /** The paths of the entries themselves, without what is below them, are short enough. */
  predicate LevelFits(entries: seq<Entry>, path: string)
    requires path != ""
  {
    forall e | e in entries :: IsSpecial(e.name) || EntryFits(e, path)
  }

  lemma {:induction false} FitsAtEachLevel(entries: seq<Entry>, path: string)
    requires path != ""
    ensures PathsFit(entries, path) ==> LevelFits(entries, path)
    decreases |entries|
  {
    if entries != [] {
      FitsAtEachLevel(entries[1..], path);
    }
  }

  method CountFilesAndFoldersInDirectory(entries: seq<Entry>, currentFolderPath: string)
    returns (ok: bool, nbFiles: nat, nbSubfolders: nat)
    requires currentFolderPath != ""
    ensures ok <==> LevelFits(entries, currentFolderPath)
    ensures ok ==> nbFiles == CountFiles(entries) && nbSubfolders == CountFolders(entries)
  {
    nbFiles, nbSubfolders := 0, 0;
    var current := 0;
    while current < |entries|
      invariant current <= |entries|
      invariant LevelFits(entries[..current], currentFolderPath)
      invariant nbFiles + CountFiles(entries[current..]) == CountFiles(entries)
      invariant nbSubfolders + CountFolders(entries[current..]) == CountFolders(entries)
    {
      var entry := entries[current];
      assert entries[..current + 1] == entries[..current] + [entry];
      if IsSpecial(entry.name) {
        current := current + 1;
        continue;
      }
      var entryPath := new PathBuffer(currentFolderPath);
      var pathWasBuilt := entryPath.AppendName(entry.name, MAX_PATH_LENGTH);
      if !pathWasBuilt {
        return false, 0, 0;
      }
      if entry.RegularFile? {
        nbFiles := nbFiles + 1;
      } else if entry.Directory? {
        nbSubfolders := nbSubfolders + 1;
      }
      current := current + 1;
    }
    assert entries[..current] == entries;
    ok := true;
  }

  // ---------------------------------------------------------------------------
  // Second pass
  // ---------------------------------------------------------------------------

  /** Makes a `File` out of a regular file, and takes its size from the free space if it is loaded. */
  method CreateFile(entry: Entry, entryPath: string, ghost path: string, cacheFreeSpace: Counter) returns (file: File)
    requires entry.RegularFile? && path != "" && entryPath == JoinPath(path, entry.name)
    modifies cacheFreeSpace
    ensures fresh(file)
    ensures file.View() == CachedFile(ItemOf(entry, path), old(cacheFreeSpace.value))
    ensures cacheFreeSpace.value == old(cacheFreeSpace.value) - Cost(file.View())
    ensures cacheFreeSpace.value ==
            old(cacheFreeSpace.value) - if file.content.Some? then |file.content.value| else 0
  {
    file := new File();
    file.name := entry.name;
    file.path := entryPath;
    file.size := |entry.data|;
    file.mustUnload := false;
    var contentWasLoaded := file.SetFileContent(cacheFreeSpace.value, entry.data, entry.gzip);
    if contentWasLoaded {
      cacheFreeSpace.value := cacheFreeSpace.value - file.size;
    } else {
      file.mustUnload := true;
    }
    file.SetFileType(entry.mime);
  }

  /** What has been done, and what is left to do, make up the whole. */
  ghost predicate Progress(done: FolderVal, rest: Filling, whole: Filling) {
    && whole.files == done.files + rest.files
    && whole.subfolders == done.subfolders + rest.subfolders
    && whole.free == rest.free
  }

  lemma StartProgress(done: FolderVal, entries: seq<Entry>, path: string, free: int)
    requires path != "" && done.files == [] && done.subfolders == []
    ensures Progress(done, Fill(entries, path, free), Fill(entries, path, free))
  {
  }

  lemma ProgressSkip(done: FolderVal, entries: seq<Entry>, path: string, free: int, whole: Filling)
    requires path != "" && entries != [] && Progress(done, Fill(entries, path, free), whole)
    requires IsSpecial(entries[0].name) || entries[0].OtherEntry?
    ensures Progress(done, Fill(entries[1..], path, free), whole)
  {
    StepOnSkipped(entries, path, free);
  }

  lemma ProgressFile(done: FolderVal, entries: seq<Entry>, path: string, free: int, whole: Filling)
    requires path != "" && entries != [] && Progress(done, Fill(entries, path, free), whole)
    requires !IsSpecial(entries[0].name) && entries[0].RegularFile?
    ensures var f := CachedFile(ItemOf(entries[0], path), free);
            Progress(done.(files := done.files + [f]), Fill(entries[1..], path, free - Cost(f)), whole)
  {
    hide CachedFile, Fill;
    StepOnFile(entries, path, free);
  }

  lemma ProgressFolder(done: FolderVal, entries: seq<Entry>, path: string, free: int, whole: Filling)
    requires path != "" && entries != [] && Progress(done, Fill(entries, path, free), whole)
    requires !IsSpecial(entries[0].name) && entries[0].Directory?
    ensures var subPath := JoinPath(path, entries[0].name);
            var sub := Build(entries[0].entries, subPath, free);
            var left := Fill(entries[0].entries, subPath, free).free;
            Progress(done.(subfolders := done.subfolders + [sub]), Fill(entries[1..], path, left), whole)
  {
    hide CachedFile, Fill, JoinPath;
    StepOnFolder(entries, path, free);
  }

  lemma ProgressDone(done: FolderVal, path: string, free: int, whole: Filling)
    requires path != "" && Progress(done, Fill([], path, free), whole)
    ensures whole == Filling(done.files, done.subfolders, free)
  {
  }

  /** The quantities the loop works with, one entry at a time. */
  lemma StepOnCounts(entries: seq<Entry>, path: string)
    requires path != "" && entries != []
    ensures var e := entries[0];
      && CountFiles(entries) == (if !IsSpecial(e.name) && e.RegularFile? then 1 else 0) + CountFiles(entries[1..])
      && CountFolders(entries) == (if !IsSpecial(e.name) && e.Directory? then 1 else 0) + CountFolders(entries[1..])
      && (PathsFit(entries, path) <==>
           && (IsSpecial(e.name) || |JoinPath(path, e.name)| - 1 <= MAX_PATH_LENGTH)
           && (IsSpecial(e.name) || !e.Directory? || PathsFit(e.entries, JoinPath(path, e.name)))
           && PathsFit(entries[1..], path))
  {
  }

  lemma NothingLeft(path: string)
    requires path != ""
    ensures CountFiles([]) == 0 && CountFolders([]) == 0 && PathsFit([], path)
  {
  }

  /** There is room in the arrays of a folder for what is still to be inserted. */
  ghost predicate RoomFor(folder: Folder, entries: seq<Entry>)
    reads folder
  {
    && folder.nbFiles + CountFiles(entries) == folder.files.Length
    && folder.nbSubfolders + CountFolders(entries) == folder.subfolders.Length
  }

  /** Fills an empty folder from the entries of a directory. Returns false if some path is too
      long, which is fatal to the server. */
  method RecursivelyFillFolder(entries: seq<Entry>, folder: Folder, currentFolderPath: string, cacheFreeSpace: Counter)
    returns (ok: bool)
    requires currentFolderPath != ""
    requires folder.Valid() && folder.view == FolderVal(folder.name, [], []) && RoomFor(folder, entries)
    requires cacheFreeSpace !in folder.Repr
    modifies folder, folder.files, folder.subfolders, cacheFreeSpace
    ensures ok <==> PathsFit(entries, currentFolderPath)
    ensures ok ==> folder.Valid() && folder.Full() && fresh(folder.Repr - old(folder.Repr))
    ensures ok ==>
      var whole := Fill(entries, currentFolderPath, old(cacheFreeSpace.value));
      folder.view == FolderVal(folder.name, whole.files, whole.subfolders) && cacheFreeSpace.value == whole.free
    decreases entries, 0
  {
    hide Fill, CachedFile, CountFiles, CountFolders, PathsFit, JoinPath, Cost, Progress, Folder.Valid, IsSpecial;
    StartProgress(folder.view, entries, currentFolderPath, cacheFreeSpace.value);
    ghost var whole := Fill(entries, currentFolderPath, cacheFreeSpace.value);
    assert entries[0..] == entries;
    var current := 0;
    while current < |entries|
      invariant current <= |entries|
      invariant folder.Valid() && RoomFor(folder, entries[current..])
      invariant cacheFreeSpace !in folder.Repr && fresh(folder.Repr - old(folder.Repr))
      invariant PathsFit(entries, currentFolderPath) <==> PathsFit(entries[current..], currentFolderPath)
      invariant folder.view.name == folder.name
      invariant Progress(folder.view, Fill(entries[current..], currentFolderPath, cacheFreeSpace.value), whole)
    {
      var entry := entries[current];
      ghost var rest := entries[current..];
      assert rest[0] == entry && rest[1..] == entries[current + 1..];
      ghost var free := cacheFreeSpace.value;
      StepOnCounts(rest, currentFolderPath);
      if IsSpecial(entry.name) {
        ProgressSkip(folder.view, rest, currentFolderPath, free, whole);
        current := current + 1;
        continue;
      }
      var entryPath := new PathBuffer(currentFolderPath);
      var pathWasBuilt := entryPath.AppendName(entry.name, MAX_PATH_LENGTH);
      if !pathWasBuilt {
        return false;
      }
      if entry.RegularFile? {
        ProgressFile(folder.view, rest, currentFolderPath, free, whole);
        var file := CreateFile(entry, entryPath.text, currentFolderPath, cacheFreeSpace);
        var _ := folder.AddFile(file);
      } else if entry.Directory? {
        ProgressFolder(folder.view, rest, currentFolderPath, free, whole);
        var subfolder := RecursivelyBuildFolder(entry.entries, entryPath.text, cacheFreeSpace);
        if subfolder == null {
          return false;
        }
        var _ := folder.AddSubfolder(subfolder);
      } else {
        ProgressSkip(folder.view, rest, currentFolderPath, free, whole);
      }
      current := current + 1;
    }
    assert entries[current..] == [];
    NothingLeft(currentFolderPath);
    ProgressDone(folder.view, currentFolderPath, cacheFreeSpace.value, whole);
    return true;
  }

  /** Builds the folder of a directory in two passes, or null if some path is too long. */
  method RecursivelyBuildFolder(entries: seq<Entry>, path: string, cacheFreeSpace: Counter) returns (folder: Folder?)
    requires path != ""
    modifies cacheFreeSpace
    ensures folder != null <==> PathsFit(entries, path)
    ensures folder != null ==>
      && folder.Valid() && folder.Full() && fresh(folder.Repr)
      && folder.view == Build(entries, path, old(cacheFreeSpace.value))
      && cacheFreeSpace.value == Fill(entries, path, old(cacheFreeSpace.value)).free
    decreases entries, 1
  {
    var ok, nbFiles, nbSubfolders := CountFilesAndFoldersInDirectory(entries, path);
    if !ok {
      FitsAtEachLevel(entries, path);
      return null;
    }
    var folderName := ExtractLastNameOfPath(path);
    var newFolder := new Folder(folderName, nbFiles, nbSubfolders);
    ok := RecursivelyFillFolder(entries, newFolder, path, cacheFreeSpace);
    if !ok {
      return null;
    }
    return newFolder;
  }
}
