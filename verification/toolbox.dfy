/** Path and string helpers (`src/toolbox.c`).

    A C string is modelled by the sequence of its characters, without the final NUL. */
module Toolbox {

  datatype Option<+T> = None | Some(value: T)

  function Min(a: int, b: int): int {
    if a <= b then a else b
  }

  /** The path of the entry `name` of the directory `path`. */
  function JoinPath(path: string, name: string): (r: string)
    requires path != ""
    ensures path <= r
  {
    path + (if path[|path| - 1] == '/' then "" else "/") + name
  }

  /** A buffer holding a path, extended in place. Its capacity is not modelled. */
  class PathBuffer {
    var text: string

    constructor (path: string)
      ensures text == path
    {
      text := path;
    }

    /** Appends a name to the path, unless the result is too long. */
    method AppendName(name: string, maxLength: int) returns (ok: bool)
      requires text != ""
      modifies this
      ensures ok <==> |JoinPath(old(text), name)| - 1 <= maxLength
      ensures text == if ok then JoinPath(old(text), name) else old(text)
    {
      var endsWithSlash := text[|text| - 1] == '/';
      var newLength := |text| + |name| + if endsWithSlash then 0 else 1;
      if newLength - 1 > maxLength {
        return false;
      }
      text := text + (if endsWithSlash then "" else "/") + name;
      return true;
    }
  }

  /** The index `src/toolbox.c` takes for the last slash among the first `n` characters:
      0 when there is none after the first character. */
  function LastSlash(path: string, n: nat): (k: nat)
    requires n <= |path|
    ensures k == 0 || (k < n && path[k] == '/')
    ensures forall i | k < i < n :: path[i] != '/'
  {
    if n <= 1 then 0 else if path[n - 1] == '/' then n - 1 else LastSlash(path, n - 1)
  }

  /** What follows that index. */
  function LastName(path: string): string
    requires path != ""
  {
    path[LastSlash(path, |path|) + 1..]
  }

  /** The name following the last slash of a path. */
  method ExtractLastNameOfPath(path: string) returns (name: string)
    requires path != ""
    ensures name == LastName(path)
  {
    var lastSlashIndex := 0;
    var currentIndex := 1;
    while currentIndex < |path|
      invariant 1 <= currentIndex <= |path|
      invariant lastSlashIndex == LastSlash(path, currentIndex)
    {
      if path[currentIndex] == '/' {
        lastSlashIndex := currentIndex;
      }
      currentIndex := currentIndex + 1;
    }
    name := path[lastSlashIndex + 1..];
  }

  /** Extracting the last name undoes `JoinPath` when the appended name has no slash. */
  lemma LastNameOfJoin(path: string, name: string)
    requires path != "" && '/' !in name
    ensures LastName(JoinPath(path, name)) == name
  {
    var p := JoinPath(path, name);
    var start := |p| - |name|;
    assert p[start..] == name;
    assert p[start - 1] == '/';
    assert forall i | start <= i < |p| :: p[i] == name[i - start];
  }

  /** The text after the last slash, or the whole path when it has none. */
  ghost predicate IsLastName(path: string, name: string) {
    && '/' !in name
    && (path == name || exists dir: string :: path == dir + "/" + name)
  }

  /** Extracting is right exactly for the paths that contain a slash: without one, the
      first character is lost. */
  lemma LastNameIffSlash(path: string)
    requires path != ""
    ensures IsLastName(path, LastName(path)) <==> '/' in path
  {
    var k := LastSlash(path, |path|);
    var name := LastName(path);
    if '/' in path {
      var j :| 0 <= j < |path| && path[j] == '/';
      assert path[k] == '/';
      assert path == path[..k] + "/" + name;
      forall i | 0 <= i < |name|
        ensures name[i] != '/'
      {
        assert name[i] == path[k + 1 + i];
      }
    } else {
      assert |name| < |path|;
      forall dir: string
        ensures path != dir + "/" + name
      {
        assert (dir + "/" + name)[|dir|] == '/';
      }
    }
  }

  /** For instance, the root directory of the web pages, named without a slash. */
  lemma FirstCharacterLost()
    ensures LastName("www") == "ww" && !IsLastName("www", LastName("www"))
  {
    LastNameIffSlash("www");
    assert LastSlash("www", 3) == 0;
  }

  /** A string without its leading spaces. */
  function WithoutSpaces(s: string): (r: string)
    ensures |r| <= |s|
  {
    if s != "" && s[0] == ' ' then WithoutSpaces(s[1..]) else s
  }

  /** Only spaces are left out, and all those at the beginning. */
  lemma {:induction false} OnlySpacesAreSkipped(s: string)
    ensures var n := |s| - |WithoutSpaces(s)|;
            WithoutSpaces(s) == s[n..] && forall i | 0 <= i < n :: s[i] == ' '
    ensures WithoutSpaces(s) == "" || WithoutSpaces(s)[0] != ' '
    decreases |s|
  {
    if s != "" && s[0] == ' ' {
      OnlySpacesAreSkipped(s[1..]);
      assert forall i | 0 < i < |s| :: s[i] == s[1..][i - 1];
    }
  }

  /** Moves a pointer past the spaces it points to. */
  method ConsumeLeadingWhiteSpace(s: string) returns (r: string)
    ensures r == WithoutSpaces(s)
  {
    r := s;
    while r != "" && r[0] == ' '
      invariant WithoutSpaces(r) == WithoutSpaces(s)
      decreases |r|
    {
      r := r[1..];
    }
  }

  /** The C string stored at the start of a memory area: everything up to the first NUL. */
  function CString(memory: string): (s: string)
    ensures |s| <= |memory| && s == memory[..|s|]
    ensures '\0' !in s
    ensures |s| < |memory| ==> memory[|s|] == '\0'
  {
    if memory == "" || memory[0] == '\0' then "" else [memory[0]] + CString(memory[1..])
  }

  lemma {:induction false} CStringWithoutNul(s: string)
    requires '\0' !in s
    ensures CString(s) == s
    decreases |s|
  {
    if s != "" {
      CStringWithoutNul(s[1..]);
      assert s == [s[0]] + s[1..];
    }
  }

  /** Only the first NUL matters. */
  lemma CStringUnique(memory: string, s: string)
    requires |s| < |memory| && s == memory[..|s|] && '\0' !in s && memory[|s|] == '\0'
    ensures CString(memory) == s
  {
    var c := CString(memory);
    assert forall i | 0 <= i < |s| :: s[i] == memory[i] && s[i] != '\0';
    assert forall i | 0 <= i < |c| :: c[i] == memory[i] && c[i] != '\0';
  }
}
