/** The whole cache: building it from a directory and fetching files (`src/file_cache.c`). */
module Cache {
  import opened Toolbox
  import opened Disk
  import opened CacheSpec
  import opened Lookup
  import opened BuildLookup
  import opened DiskLookup
  import opened FileCaching
  import opened CacheBuilding

  // ---------------------------------------------------------------------------
  // Files by position
  // ---------------------------------------------------------------------------

  /** The file object found by following the names down the folders. */
  ghost function FileAt(folder: Folder, names: seq<string>): File?
    requires folder.Valid() && names != []
    reads folder, folder.Repr
    decreases |names|
  {
    if |names| == 1 then
      var i := FirstIndex(FileNames(folder.view), names[0]);
      if i < folder.nbFiles then folder.files[i] else null
    else
      var i := FirstIndex(FolderNames(folder.view), names[0]);
      if i < folder.nbSubfolders then FileAt(folder.subfolders[i], names[1..]) else null
  }

  /** The object found represents the file found on values. */
  lemma {:induction false} FileAtIsWalk(folder: Folder, names: seq<string>)
    requires folder.Valid() && names != []
    ensures FileAt(folder, names) == null ==> Walk(folder.view, names) == None
    ensures FileAt(folder, names) != null ==>
              && FileAt(folder, names) in folder.Repr
              && Walk(folder.view, names) == Some(FileAt(folder, names).View())
    decreases |names|
  {
    if |names| > 1 {
      var i := FirstIndex(FolderNames(folder.view), names[0]);
      if i < folder.nbSubfolders {
        FileAtIsWalk(folder.subfolders[i], names[1..]);
      }
    }
  }

  /** The object `file` is stored in the tree, at the position `names`. */
  ghost predicate StoredAt(folder: Folder, names: seq<string>, file: File)
    requires folder.Valid()
    reads folder, folder.Repr
    decreases |names|
  {
    if |names| == 0 then false
    else if |names| == 1 then
      exists i :: 0 <= i < folder.nbFiles && folder.files[i] == file && folder.view.files[i].name == names[0]
    else
      exists i :: 0 <= i < folder.nbSubfolders && folder.view.subfolders[i].name == names[0]
                  && StoredAt(folder.subfolders[i], names[1..], file)
  }

  /** In a tidy tree the file object at a position is the one stored there, and no other. */
  lemma {:induction false} StoredIsFound(folder: Folder, path: string, names: seq<string>, file: File)
    requires folder.Valid() && path != "" && names != [] && Tidy(folder.view, path)
    requires StoredAt(folder, names, file)
    ensures FileAt(folder, names) == file
    decreases |names|
  {
    if |names| == 1 {
      var i :| 0 <= i < folder.nbFiles && folder.files[i] == file && folder.view.files[i].name == names[0];
      assert FileNames(folder.view)[i] == names[0];
      var k := FirstIndex(FileNames(folder.view), names[0]);
      assert folder.view.files[k].name == FileNames(folder.view)[k];
      assert k == i;
    } else {
      var i :| 0 <= i < folder.nbSubfolders && folder.view.subfolders[i].name == names[0]
               && StoredAt(folder.subfolders[i], names[1..], file);
      assert FolderNames(folder.view)[i] == names[0];
      var k := FirstIndex(FolderNames(folder.view), names[0]);
      assert folder.view.subfolders[k].name == FolderNames(folder.view)[k];
      assert k == i;
      assert folder.view.subfolders[i] in folder.view.subfolders;
      StoredIsFound(folder.subfolders[i], JoinPath(path, names[0]), names[1..], file);
    }
  }

  // ---------------------------------------------------------------------------
  // Fetching
  // ---------------------------------------------------------------------------

  lemma FirstIndexIs(names: seq<string>, name: string, i: nat)
    requires i <= |names| && (i < |names| ==> names[i] == name)
    requires forall j | 0 <= j < i :: names[j] != name
    ensures FirstIndex(names, name) == i
  {
  }

  method FindSubfolderInFolder(folder: Folder, subfolderName: string) returns (found: Folder?)
    requires folder.Valid()
    ensures var i := FirstIndex(FolderNames(folder.view), subfolderName);
            found == if i < folder.nbSubfolders then folder.subfolders[i] else null
    ensures found == null <==> subfolderName !in FolderNames(folder.view)
    ensures found == null <==> FirstIndex(FolderNames(folder.view), subfolderName) >= folder.nbSubfolders
    ensures found != null ==> found.Valid() && found.Repr <= folder.Repr
  {
    ghost var names := FolderNames(folder.view);
    var i := 0;
    while i < folder.nbSubfolders
      invariant i <= folder.nbSubfolders
      invariant forall j | 0 <= j < i :: names[j] != subfolderName
    {
      assert folder.subfolders[i].Valid();
      if subfolderName == folder.subfolders[i].name {
        FirstIndexIs(names, subfolderName, i);
        return folder.subfolders[i];
      }
      i := i + 1;
    }
    FirstIndexIs(names, subfolderName, i);
    return null;
  }

  method FindFileInFolder(folder: Folder, fileName: string) returns (found: File?)
    requires folder.Valid()
    ensures var i := FirstIndex(FileNames(folder.view), fileName);
            found == if i < folder.nbFiles then folder.files[i] else null
  {
    ghost var names := FileNames(folder.view);
    var i := 0;
    while i < folder.nbFiles
      invariant i <= folder.nbFiles
      invariant forall j | 0 <= j < i :: names[j] != fileName
    {
      assert folder.files[i].View() == folder.view.files[i];
      if fileName == folder.files[i].name {
        FirstIndexIs(names, fileName, i);
        return folder.files[i];
      }
      i := i + 1;
    }
    FirstIndexIs(names, fileName, i);
    return null;
  }

  /** One level of the walk. */
  lemma FileAtCut(folder: Folder, q: string)
    requires folder.Valid()
    ensures var k := SlashIndex(q);
            if k == |q| then
              var i := FirstIndex(FileNames(folder.view), q);
              FileAt(folder, Cut(q)) == if i < folder.nbFiles then folder.files[i] else null
            else
              var i := FirstIndex(FolderNames(folder.view), q[..k]);
              FileAt(folder, Cut(q)) ==
                if i < folder.nbSubfolders then FileAt(folder.subfolders[i], Cut(SkipSlashes(q[k..]))) else null
  {
    var k := SlashIndex(q);
    if k < |q| {
      var rest := Cut(SkipSlashes(q[k..]));
      assert ([q[..k]] + rest)[1..] == rest;
    }
  }

  /** The names that the lookup may copy, those followed by a slash, fit in its buffer with their
      NUL: every slash comes soon enough after the one before it. A request line cannot ask for a
      path that is long enough to break this. */
  predicate NamesFit(path: string) {
    forall j | MAX_NAME_LENGTH <= j < |path| :: SlashNear(path, j)
  }

  predicate SlashNear(path: string, j: nat)
    requires MAX_NAME_LENGTH <= j < |path|
  {
    path[j] == '/' ==> '/' in path[j - MAX_NAME_LENGTH..j]
  }

  lemma NameFits(path: string, from: nat, length: nat)
    requires NamesFit(path) && from + length < |path| && path[from + length] == '/'
    ensures '/' in path[from..from + length] || length < MAX_NAME_LENGTH
  {
    var j := from + length;
    if length >= MAX_NAME_LENGTH {
      assert SlashNear(path, j);
      var i :| 0 <= i < MAX_NAME_LENGTH && path[j - MAX_NAME_LENGTH..j][i] == '/';
      assert path[from..j][length - MAX_NAME_LENGTH + i] == '/';
    }
  }

  class FileCache {
    var root: Folder?
    var size: int
    var maxSize: int

    ghost var Repr: set<object>

    ghost predicate Valid()
      reads this, Repr
      ensures Valid() ==> this in Repr
    {
      && this in Repr
      && root != null && root in Repr && root.Repr <= Repr && this !in root.Repr
      && root.Valid() && root.Full()
    }

    constructor (maxSize: int)
      ensures this.maxSize == maxSize && size == 0 && root == null && Repr == {this}
    {
      root, size, this.maxSize := null, 0, maxSize;
      Repr := {this};
    }

    /** The file with a full path, or null. */
    ghost function Fetched(path: string): File?
      requires Valid()
      reads this, Repr
    {
      hide *;
      FileAt(root, Components(path))
    }

    /** Fetches a file by its full path, reading the path through a moving cursor and copying
        each folder name into a buffer of fixed size. */
    method FindFileInCache(path: string) returns (file: File?)
      requires Valid() && NamesFit(path)
      ensures file == Fetched(path)
    {
      hide *;
      var remaining := SkipLeadingSlashes(path, 0);
      FetchedFrom(this, path, remaining);
      file := FindFrom(root, path, remaining);
    }
  }

  lemma FetchedFrom(cache: FileCache, path: string, start: nat)
    requires cache.Valid() && SkippedTo(path, 0, start)
    ensures cache.root != null && cache.root.Valid()
    ensures cache.Fetched(path) == FileFrom(cache.root, path, start)
  {
    hide FileAt, Cut, SkipSlashes, Folder.Valid;
    assert path[0..] == path;
  }

  /** The file whose path below a folder is at the cursor, or null. */
  ghost function FileFrom(folder: Folder, path: string, at: nat): File?
    requires folder.Valid() && at <= |path|
    reads folder, folder.Repr
  {
    FileAt(folder, Cut(path[at..]))
  }

  /** The name at the cursor has `length` characters. */
  ghost predicate NameAt(path: string, from: nat, length: nat) {
    from + length <= |path| && length == SlashIndex(path[from..])
  }

  /** The first position from `from` on that does not hold a slash is `at`. */
  ghost predicate SkippedTo(path: string, from: nat, at: nat) {
    from <= at <= |path| && path[at..] == SkipSlashes(path[from..])
  }

  /** The last name of the path is that of the file. */
  method FindLast(folder: Folder, path: string, at: nat, ghost length: nat) returns (file: File?)
    requires folder.Valid() && NameAt(path, at, length) && at + length == |path|
    ensures file == FileFrom(folder, path, at)
  {
    hide FileAt, Cut, Folder.Valid, FirstIndex, FileNames;
    FileAtCut(folder, path[at..]);
    file := FindFileInFolder(folder, path[at..]);
  }

  /** The loop of the lookup: the cursor starts after the leading slashes. */
  method FindFrom(root: Folder, path: string, start: nat) returns (file: File?)
    requires root.Valid() && start <= |path| && NamesFit(path)
    ensures file == FileFrom(root, path, start)
  {
    hide *;
    var nextFolderName := new char[MAX_NAME_LENGTH];
    var currentFolder: Folder := root;
    var remaining := start;
    ghost var target := FileFrom(root, path, start);
    while true
      invariant fresh(nextFolderName) && nextFolderName.Length == MAX_NAME_LENGTH
      invariant remaining <= |path|
      invariant currentFolder.Repr <= root.Repr && nextFolderName !in root.Repr
      invariant currentFolder.Valid() && target == FileFrom(root, path, start)
      invariant FileFrom(currentFolder, path, remaining) == target
      decreases |path| - remaining
    {
      var nameLength := FindSlash(path, remaining);
      if remaining + nameLength == |path| {
        file := FindLast(currentFolder, path, remaining, nameLength);
        return;
      }
      var next := NextFolder(currentFolder, path, remaining, nameLength, nextFolderName);
      if next == null {
        return null;
      }
      currentFolder := next;
      var nameEnd := remaining + nameLength;
      remaining := SkipLeadingSlashes(path, nameEnd);
      SlashesSkipped(currentFolder, path, nameEnd, remaining);
    }
  }

  /** The file whose path below a folder comes after the slashes at the cursor, or null. */
  ghost function FileAfter(folder: Folder, path: string, at: nat): File?
    requires folder.Valid() && at <= |path|
    reads folder, folder.Repr
  {
    FileAt(folder, Cut(SkipSlashes(path[at..])))
  }

  lemma SlashesSkipped(folder: Folder, path: string, from: nat, at: nat)
    requires folder.Valid() && SkippedTo(path, from, at)
    ensures FileFrom(folder, path, at) == FileAfter(folder, path, from)
  {
    hide FileAt, Cut, Folder.Valid, SkipSlashes;
  }

  /** Moves into the subfolder whose name is at the cursor. */
  method NextFolder(folder: Folder, path: string, remaining: nat, nameLength: nat, nextFolderName: array<char>)
    returns (next: Folder?)
    requires folder.Valid() && nextFolderName !in folder.Repr
    requires nextFolderName.Length == MAX_NAME_LENGTH && nameLength < nextFolderName.Length
    requires remaining + nameLength < |path| && NameAt(path, remaining, nameLength)
    modifies nextFolderName
    ensures next == null ==> FileFrom(folder, path, remaining) == null
    ensures next != null ==>
      && next.Valid() && next.Repr <= folder.Repr
      && FileFrom(folder, path, remaining) == FileAfter(next, path, remaining + nameLength)
  {
    hide FileAt, Cut, Folder.Valid, SkipSlashes, SlashIndex, FirstIndex, FileNames, FolderNames;
    ghost var cursor := path[remaining..];
    CopyName(path, remaining, nameLength, nextFolderName);
    var name := nextFolderName[..nameLength];
    assert name == cursor[..nameLength];
    FileAtCut(folder, cursor);
    assert path[remaining + nameLength..] == cursor[nameLength..];
    next := FindSubfolderInFolder(folder, name);
  }

  /** `memcpy` of a name and its NUL into the scratch buffer. */
  method CopyName(path: string, from: nat, length: nat, buffer: array<char>)
    requires from + length <= |path| && length < buffer.Length
    modifies buffer
    ensures buffer[..length] == path[from..from + length] && buffer[length] == '\0'
  {
    forall i | 0 <= i < length {
      buffer[i] := path[from + i];
    }
    buffer[length] := '\0';
  }

  lemma {:induction false} SkipRun(p: string, n: nat)
    requires n <= |p| && forall i | 0 <= i < n :: p[i] == '/'
    requires n == |p| || p[n] != '/'
    ensures SkipSlashes(p) == p[n..]
    decreases n
  {
    if n > 0 {
      assert p[1..][n - 1..] == p[n..];
      SkipRun(p[1..], n - 1);
    }
  }

  method SkipLeadingSlashes(path: string, from: nat) returns (at: nat)
    requires from <= |path|
    ensures from <= at <= |path| && SkippedTo(path, from, at)
    ensures from < |path| && path[from] == '/' ==> from < at
  {
    at := from;
    while at < |path| && path[at] == '/'
      invariant from <= at <= |path|
      invariant forall i | from <= i < at :: path[i] == '/'
    {
      at := at + 1;
    }
    SkipRun(path[from..], at - from);
  }

  lemma {:induction false} SlashAfter(p: string, k: nat)
    requires k <= |p| && forall i | 0 <= i < k :: p[i] != '/'
    requires k == |p| || p[k] == '/'
    ensures SlashIndex(p) == k
  {
  }

  /** `strchr`: distance to the next slash, or to the end. */
  method FindSlash(path: string, from: nat) returns (k: nat)
    requires from <= |path|
    ensures from + k <= |path| && NameAt(path, from, k) && (from + k < |path| ==> path[from + k] == '/')
    ensures NamesFit(path) && from + k < |path| ==> k < MAX_NAME_LENGTH
  {
    k := 0;
    while from + k < |path| && path[from + k] != '/'
      invariant from + k <= |path|
      invariant forall i | from <= i < from + k :: path[i] != '/'
    {
      k := k + 1;
    }
    SlashAfter(path[from..], k);
    if NamesFit(path) && from + k < |path| {
      NameFits(path, from, k);
    }
  }

  // ---------------------------------------------------------------------------
  // Building
  // ---------------------------------------------------------------------------

  /** Builds the cache of a directory, or null if some path is too long. */
  method BuildCacheFromDisk(entries: seq<Entry>, rootPath: string, maxSize: int) returns (cache: FileCache?)
    requires rootPath != ""
    ensures cache != null <==> PathsFit(entries, rootPath)
    ensures cache != null ==>
      && cache.Valid() && fresh(cache.Repr) && cache.maxSize == maxSize
      && cache.root.view == Build(entries, rootPath, maxSize)
      && cache.root.size == SumSizes(AllFiles(cache.root.view))
      && cache.size == Held(AllFiles(cache.root.view))
      && (0 <= maxSize ==> 0 <= cache.size <= maxSize)
  {
    hide Fill, PathsFit, Held;
    cache := new FileCache(maxSize);
    var cacheFreeSpace := new Counter(maxSize);
    var rootFolder := RecursivelyBuildFolder(entries, rootPath, cacheFreeSpace);
    if rootFolder == null {
      return null;
    }
    cache.root := rootFolder;
    cache.size := maxSize - cacheFreeSpace.value;
    cache.Repr := cache.Repr + rootFolder.Repr;
    FillConservesBudget(entries, rootPath, maxSize);
    HeldAppend(rootFolder.view.files, FilesBelow(rootFolder.view.subfolders));
  }

  /** The round trip, on objects: the target made from the path stored in any file of a built
      cache is short enough, and leads back to this very object. */
  lemma BuiltObjectIsFound(cache: FileCache, entries: seq<Entry>, rootPath: string, names: seq<string>, file: File)
    requires rootPath != "" && WellNamed(entries) && PathsFit(entries, rootPath) && cache.Valid()
    requires cache.root.view == Build(entries, rootPath, cache.maxSize)
    requires names != [] && StoredAt(cache.root, names, file)
    ensures rootPath <= file.path && |Target(file.View(), rootPath)| <= MAX_PATH_LENGTH
    ensures FileAt(cache.root, Components(Target(file.View(), rootPath))) == file
  {
    hide PathsFit, Build;
    BuildIsTidy(entries, rootPath, cache.maxSize);
    StoredIsFound(cache.root, rootPath, names, file);
    FileAtIsWalk(cache.root, names);
    WalkIffAt(cache.root.view, rootPath, names, file.View());
    LookupFindsEveryFile(cache.root.view, rootPath, names, file.View());
    StoredPathFits(entries, rootPath, cache.maxSize, names, file.View());
  }

  /** Likewise for the lookup itself. */
  method FindStoredFile(cache: FileCache, rootPath: string, file: File,
                        ghost entries: seq<Entry>, ghost names: seq<string>) returns (found: File?)
    requires rootPath != "" && WellNamed(entries) && PathsFit(entries, rootPath) && cache.Valid()
    requires cache.root.view == Build(entries, rootPath, cache.maxSize)
    requires names != [] && StoredAt(cache.root, names, file)
    ensures found == file
  {
    hide PathsFit, Build, FileAt, Components, StoredAt;
    BuiltObjectIsFound(cache, entries, rootPath, names, file);
    found := cache.FindFileInCache(file.path[|rootPath|..]);
  }
}
