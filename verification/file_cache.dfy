/** The file cache in memory (`src/file_cache.c`): files and folders as objects changed in place,
    each one tied to the value it represents. */
module FileCaching {
  import opened Toolbox
  import opened Subprocess
  import opened Disk
  import opened CacheSpec

  /** An integer shared between calls (`int* cache_free_space`). */
  class Counter {
    var value: int

    constructor (initial: int)
      ensures value == initial
    {
      value := initial;
    }
  }

  /** A regular file opened for reading. As the file does not change, `read` delivers all that was
      asked for and remains. */
  class OpenedFile {
    const data: string
    var at: nat

    constructor (data: string)
      ensures this.data == data && at == 0
    {
      this.data, at := data, 0;
    }

    method Read(buffer: array<char>, count: nat) returns (n: nat)
      requires at <= |data| && count <= buffer.Length
      modifies `at, buffer
      ensures n == Min(count, |data| - old(at)) && at == old(at) + n
      ensures buffer[..] == data[old(at)..at] + old(buffer[n..])
    {
      n := Min(count, |data| - at);
      forall i | 0 <= i < n {
        buffer[i] := data[at + i];
      }
      at := at + n;
    }
  }

  class File {
    var name: string
    var path: string
    var state: FileState
    var content: Option<string>
    var size: nat
    var mustUnload: bool
    var mimeType: Option<string>
    var encoding: FileEncoding

    ghost function View(): FileVal
      reads this
    {
      FileVal(name, path, state, content, size, mustUnload, mimeType, encoding)
    }

    constructor ()
      ensures View() == FileVal("", "", NotLoaded, None, 0, false, Some(""), NoEncoding)
    {
      name, path, state, content, size := "", "", NotLoaded, None, 0;
      mustUnload, mimeType, encoding := false, Some(""), NoEncoding;
    }

    /** `fileOutput` is what the program `file` prints. */
    method SetFileType(fileOutput: string)
      modifies this
      ensures View() == old(View()).(mime := MimeType(fileOutput))
    {
      var buffer := new char[MAX_FILE_TYPE_LENGTH];
      var length := RunReadableProcess(fileOutput, buffer, MAX_FILE_TYPE_LENGTH - 1);
      if length < 2 {
        mimeType := None;
      } else {
        ghost var kept := buffer[..length];
        buffer[length - 1] := '\0';
        mimeType := Some(CString(buffer[..]));
        CStringIsLocal(kept[..length - 1], buffer[..]);
      }
    }

    /** `data` is what the file holds on the disk. */
    method SetRawFileContent(data: string)
      requires |data| == size
      modifies this
      ensures View() == old(View()).(content := Some(data), state := LoadedRaw, encoding := NoEncoding)
    {
      var buffer := new char[size];
      var file := new OpenedFile(data);
      var nbBytesRead := 0;
      while nbBytesRead < size
        invariant fresh(file) && file.data == data && file.at == nbBytesRead
        invariant nbBytesRead == 0 || (nbBytesRead == size && buffer[..] == data)
        invariant View() == old(View())
        decreases size - nbBytesRead
      {
        // Each read would write to the beginning of the buffer, but the first one takes it all
        var n := file.Read(buffer, size - nbBytesRead);
        nbBytesRead := nbBytesRead + n;
      }
      content := Some(buffer[..]);
      state := LoadedRaw;
      encoding := NoEncoding;
    }

    /** `gzipOutput` is what `gzip` prints. */
    method SetCompressedFileContent(gzipOutput: string)
      modifies this
      ensures var kept := Kept(gzipOutput, old(size));
              View() == old(View()).(content := Some(kept), size := |kept|,
                                     state := LoadedCompressed, encoding := Gzip)
    {
      // The C cast binds to the factor, which is thus 1
      var bufferLength := 1 * size;
      var buffer := new char[bufferLength];
      var length := RunReadableProcess(gzipOutput, buffer, bufferLength);
      content := Some(buffer[..length]);
      size := length;
      state := LoadedCompressed;
      encoding := Gzip;
    }

    /** Loads the content, unless the file is larger than the free space. */
    method SetFileContent(cacheFreeSpace: int, data: string, gzipOutput: string) returns (loaded: bool)
      requires |data| == size
      modifies this
      ensures loaded <==> |data| <= cacheFreeSpace
      ensures !loaded ==> View() == old(View())
      ensures loaded && |data| < MIN_FILE_SIZE_FOR_GZIP ==>
                View() == old(View()).(content := Some(data), state := LoadedRaw, encoding := NoEncoding)
      ensures loaded && |data| >= MIN_FILE_SIZE_FOR_GZIP ==>
                var kept := Kept(gzipOutput, |data|);
                View() == old(View()).(content := Some(kept), size := |kept|,
                                       state := LoadedCompressed, encoding := Gzip)
    {
      if size > cacheFreeSpace {
        return false;
      }
      if size < MIN_FILE_SIZE_FOR_GZIP {
        SetRawFileContent(data);
      } else {
        SetCompressedFileContent(gzipOutput);
      }
      return true;
    }
  }

  /** Cutting at the NUL that replaces the last byte read. */
  lemma CStringIsLocal(kept: string, memory: string)
    requires |kept| < |memory| && memory[..|kept|] == kept && memory[|kept|] == '\0'
    ensures CString(memory) == CString(kept)
  {
    var c := CString(kept);
    assert memory[..|c|] == c;
    if |c| < |kept| {
      assert memory[|c|] == kept[|c|];
    }
    CStringUnique(memory, c);
  }

  class Folder {
    const name: string
    var size: nat
    const files: array<File?>
    var nbFiles: nat
    const subfolders: array<Folder?>
    var nbSubfolders: nat

    ghost var view: FolderVal
    ghost var Repr: set<object>

    /** The folder represents `view`, in objects of its own. */
    ghost predicate Valid()
      reads this, Repr
      decreases Repr
      ensures Valid() ==> this in Repr && files in Repr && subfolders in Repr
    {
      && this in Repr && files in Repr && subfolders in Repr
      && nbFiles <= files.Length && nbSubfolders <= subfolders.Length
      && view.name == name && |view.files| == nbFiles && |view.subfolders| == nbSubfolders
      && (forall i | 0 <= i < nbFiles ::
            files[i] != null && files[i] in Repr && files[i].View() == view.files[i])
      && (forall i | 0 <= i < nbSubfolders ::
            && subfolders[i] != null && subfolders[i] in Repr
            && subfolders[i].Repr <= Repr && {this, files, subfolders} !! subfolders[i].Repr
            && subfolders[i].Valid() && subfolders[i].Full()
            && subfolders[i].view == view.subfolders[i])
      && size == TotalSize(view)
    }

    /** Both arrays are full. */
    ghost predicate Full()
      reads this
    {
      nbFiles == files.Length && nbSubfolders == subfolders.Length
    }

    constructor (name: string, maxNbFiles: nat, maxNbSubfolders: nat)
      ensures Valid() && fresh(Repr)
      ensures view == FolderVal(name, [], []) && this.name == name
      ensures nbFiles == nbSubfolders == 0
      ensures files.Length == maxNbFiles && subfolders.Length == maxNbSubfolders
    {
      this.name := name;
      size, nbFiles, nbSubfolders := 0, 0, 0;
      files := new File?[maxNbFiles](_ => null);
      subfolders := new Folder?[maxNbSubfolders](_ => null);
      view := FolderVal(name, [], []);
      new;
      Repr := {this, files, subfolders};
    }

    method AddFile(file: File) returns (newSize: nat)
      requires Valid() && nbFiles < files.Length && file !in Repr
      modifies this, files
      ensures Valid() && Repr == old(Repr) + {file}
      ensures view == old(view).(files := old(view).files + [file.View()])
      ensures nbFiles == old(nbFiles) + 1 && files[old(nbFiles)] == file && nbSubfolders == old(nbSubfolders)
      ensures newSize == size
    {
      hide TotalSize;
      ghost var v := view.(files := view.files + [file.View()]);
      TotalSizeWithFile(view, file.View());
      files[nbFiles] := file;
      nbFiles := nbFiles + 1;
      newSize := size + file.size;
      size := newSize;
      Repr := Repr + {file};
      view := v;
    }

    method AddSubfolder(subfolder: Folder) returns (newSize: nat)
      requires Valid() && nbSubfolders < subfolders.Length
      requires subfolder.Valid() && subfolder.Full() && subfolder.Repr !! Repr
      modifies this, subfolders
      ensures Valid() && Repr == old(Repr) + subfolder.Repr
      ensures view == old(view).(subfolders := old(view).subfolders + [subfolder.view])
      ensures nbSubfolders == old(nbSubfolders) + 1 && subfolders[old(nbSubfolders)] == subfolder
      ensures nbFiles == old(nbFiles)
      ensures newSize == size
    {
      hide TotalSize, File.View;
      ghost var v := view.(subfolders := view.subfolders + [subfolder.view]);
      TotalSizeWithFolder(view, subfolder.view);
      subfolders[nbSubfolders] := subfolder;
      nbSubfolders := nbSubfolders + 1;
      newSize := size + subfolder.size;
      size := newSize;
      Repr := Repr + subfolder.Repr;
      view := v;
    }
  }

  /** The sizes of all the files below a folder, loaded or not. */
  function TotalSize(v: FolderVal): nat {
    SumSizes(AllFiles(v))
  }

  lemma {:induction false} FilesBelowAppend(a: seq<FolderVal>, b: seq<FolderVal>)
    ensures FilesBelow(a + b) == FilesBelow(a) + FilesBelow(b)
  {
    if a == [] {
      assert a + b == b;
    } else {
      assert (a + b)[1..] == a[1..] + b;
      FilesBelowAppend(a[1..], b);
    }
  }

  lemma TotalSizeWithFile(v: FolderVal, f: FileVal)
    ensures TotalSize(v.(files := v.files + [f])) == TotalSize(v) + f.size
  {
    SumSizesAppend(v.files + [f], FilesBelow(v.subfolders));
    SumSizesAppend(v.files, [f]);
    SumSizesAppend(v.files, FilesBelow(v.subfolders));
  }

  lemma TotalSizeWithFolder(v: FolderVal, s: FolderVal)
    ensures TotalSize(v.(subfolders := v.subfolders + [s])) == TotalSize(v) + TotalSize(s)
  {
    FilesBelowAppend(v.subfolders, [s]);
    assert FilesBelow([s]) == AllFiles(s);
    SumSizesAppend(v.files, FilesBelow(v.subfolders) + AllFiles(s));
    SumSizesAppend(FilesBelow(v.subfolders), AllFiles(s));
    SumSizesAppend(v.files, FilesBelow(v.subfolders));
  }
}
