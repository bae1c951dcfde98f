/** Fetching a file by its path, on values (`findFileInCache` in `src/file_cache.c`). */
module Lookup {
  import opened Toolbox
  import opened Disk
  import opened CacheSpec

  // ---------------------------------------------------------------------------
  // Paths as lists of names
  // ---------------------------------------------------------------------------

  /** A path without its leading slashes. */
  function SkipSlashes(p: string): (r: string)
    ensures |r| <= |p| && r == p[|p| - |r|..]
    ensures r == "" || r[0] != '/'
    ensures p != "" && p[0] == '/' ==> |r| < |p|
  {
    if p != "" && p[0] == '/' then SkipSlashes(p[1..]) else p
  }

  /** Index of the first slash, or the length when there is none (`strchr`). */
  function SlashIndex(p: string): (k: nat)
    ensures k <= |p|
    ensures k < |p| ==> p[k] == '/'
    ensures forall i | 0 <= i < k :: p[i] != '/'
  {
    if p == "" || p[0] == '/' then 0 else 1 + SlashIndex(p[1..])
  }

  /** The names the lookup loop cuts out of a path, the file name being last. */
  function Components(p: string): (names: seq<string>)
    ensures names != []
  {
    Cut(SkipSlashes(p))
  }

  /** The names still to be cut when the cursor of the loop is at `q`. */
  function Cut(q: string): (names: seq<string>)
    ensures names != []
    decreases |q|
  {
    var k := SlashIndex(q);
    if k == |q| then [q] else [q[..k]] + Cut(SkipSlashes(q[k..]))
  }

  /** Plain splitting on every slash. */
  function Split(p: string): (pieces: seq<string>)
    ensures pieces != []
  {
    if p == "" then [""]
    else
      var rest := Split(p[1..]);
      if p[0] == '/' then [""] + rest else [[p[0]] + rest[0]] + rest[1..]
  }

  /** Drops the empty pieces, except the last piece. */
  function DropEmpty(pieces: seq<string>): seq<string>
    requires pieces != []
  {
    if |pieces| == 1 then pieces
    else if pieces[0] == "" then DropEmpty(pieces[1..])
    else [pieces[0]] + DropEmpty(pieces[1..])
  }

  /** Splitting at the first slash. */
  lemma {:induction false} SplitAtSlash(a: string, b: string)
    requires '/' !in a
    ensures Split(a + "/" + b) == [a] + Split(b)
  {
    if a == "" {
      assert "" + "/" + b == ['/'] + b;
      assert (['/'] + b)[1..] == b;
    } else {
      var p := a + "/" + b;
      assert p[1..] == a[1..] + "/" + b;
      SplitAtSlash(a[1..], b);
      assert a == [a[0]] + a[1..];
    }
  }

  lemma {:induction false} SplitWithoutSlash(a: string)
    requires '/' !in a
    ensures Split(a) == [a]
  {
    if a != "" {
      SplitWithoutSlash(a[1..]);
      assert a == [a[0]] + a[1..];
    }
  }

  lemma {:induction false} SkippingIsDropping(p: string)
    ensures DropEmpty(Split(p)) == DropEmpty(Split(SkipSlashes(p)))
  {
    if p != "" && p[0] == '/' {
      assert ([""] + Split(p[1..]))[1..] == Split(p[1..]);
      SkippingIsDropping(p[1..]);
    }
  }

  /** A leading slash does not matter. */
  lemma LeadingSlash(p: string)
    ensures Components("/" + p) == Components(p)
  {
    hide Cut, SkipSlashes;
    var s := "/" + p;
    assert s[0] == '/' && s[1..] == p;
    SkipOne(s);
  }

  lemma SkipOne(p: string)
    requires p != "" && p[0] == '/'
    ensures SkipSlashes(p) == SkipSlashes(p[1..])
  {
  }

  /** One turn of the loop. */
  lemma OneName(a: string, b: string)
    requires ProperName(a)
    ensures Components(a + "/" + b) == [a] + Components(b)
  {
    var p := a + "/" + b;
    assert p[0] == a[0];
    assert SkipSlashes(p) == p;
    assert forall i | 0 <= i < |a| :: p[i] == a[i];
    assert p[|a|] == '/';
    assert SlashIndex(p) == |a|;
    assert p[..|a|] == a;
    assert p[|a|..] == "/" + b;
    assert ("/" + b)[1..] == b;
  }

  lemma LastTurn(a: string)
    requires '/' !in a
    ensures Components(a) == [a]
  {
  }

  /** The loop with its moving cursor splits the path on runs of slashes: leading and repeated
      slashes do not matter, a trailing one gives an empty file name. */
  lemma {:induction false} ComponentsSplitOnRuns(p: string)
    ensures Components(p) == DropEmpty(Split(p))
    decreases |p|
  {
    hide Components, Split, DropEmpty, Cut, SkipSlashes, SlashIndex;
    var q := SkipSlashes(p);
    var k := SlashIndex(q);
    SkippingIsDropping(p);
    SkippedAlready(p);
    if k == |q| {
      SplitWithoutSlash(q);
      LastTurn(q);
      DropEmptyLast(q);
    } else {
      var a, b := q[..k], q[k + 1..];
      assert q == a + "/" + b;
      assert a != "";
      SplitAtSlash(a, b);
      OneName(a, b);
      ComponentsSplitOnRuns(b);
      DropEmptyCons(a, Split(b));
    }
  }

  lemma DropEmptyCons(a: string, pieces: seq<string>)
    requires a != "" && pieces != []
    ensures DropEmpty([a] + pieces) == [a] + DropEmpty(pieces)
  {
    assert ([a] + pieces)[1..] == pieces;
  }

  lemma DropEmptyLast(a: string)
    ensures DropEmpty([a]) == [a]
  {
  }

  lemma SkippedAlready(p: string)
    ensures Components(p) == Components(SkipSlashes(p))
  {
    hide Cut;
    assert SkipSlashes(SkipSlashes(p)) == SkipSlashes(p);
  }

  /** Names separated by single slashes. */
  function Join(names: seq<string>): string
    requires names != []
  {
    if |names| == 1 then names[0] else names[0] + "/" + Join(names[1..])
  }

  ghost predicate AllProper(names: seq<string>) {
    forall n | n in names :: ProperName(n)
  }

  /** Cutting undoes joining. */
  lemma {:induction false} ComponentsOfJoin(names: seq<string>)
    requires names != [] && AllProper(names)
    ensures Components(Join(names)) == names
    decreases |names|
  {
    hide Components, Cut;
    assert ProperName(names[0]);
    if |names| == 1 {
      LastTurn(names[0]);
    } else {
      assert AllProper(names[1..]);
      ComponentsOfJoin(names[1..]);
      OneName(names[0], Join(names[1..]));
    }
  }

  // ---------------------------------------------------------------------------
  // Walking the tree
  // ---------------------------------------------------------------------------

  function FileNames(v: FolderVal): seq<string> {
    seq(|v.files|, i requires 0 <= i < |v.files| => v.files[i].name)
  }

  function FolderNames(v: FolderVal): seq<string> {
    seq(|v.subfolders|, i requires 0 <= i < |v.subfolders| => v.subfolders[i].name)
  }

  /** Index of the first occurrence, or the length when there is none. */
  function FirstIndex(names: seq<string>, name: string): (i: nat)
    ensures i <= |names|
    ensures i < |names| ==> names[i] == name
    ensures forall j | 0 <= j < i :: names[j] != name
  {
    if names == [] || names[0] == name then 0 else 1 + FirstIndex(names[1..], name)
  }

  /** Follows the names down the tree, one level for each. */
  function Walk(v: FolderVal, names: seq<string>): Option<FileVal>
    requires names != []
    decreases |names|
  {
    if |names| == 1 then
      var i := FirstIndex(FileNames(v), names[0]);
      if i < |v.files| then Some(v.files[i]) else None
    else
      var i := FirstIndex(FolderNames(v), names[0]);
      if i < |v.subfolders| then Walk(v.subfolders[i], names[1..]) else None
  }

  /** `names` is the position of the file `f` in the tree. */
  ghost predicate At(v: FolderVal, names: seq<string>, f: FileVal)
    decreases |names|
  {
    if |names| == 0 then false
    else if |names| == 1 then f in v.files && f.name == names[0]
    else exists i :: 0 <= i < |v.subfolders| && v.subfolders[i].name == names[0]
                     && At(v.subfolders[i], names[1..], f)
  }

  /** Distinct sibling names, and each file recording the path it was built from. */
  ghost predicate Tidy(v: FolderVal, path: string)
    requires path != ""
    decreases v
  {
    && (forall i, j | 0 <= i < j < |v.files| :: v.files[i].name != v.files[j].name)
    && (forall i, j | 0 <= i < j < |v.subfolders| :: v.subfolders[i].name != v.subfolders[j].name)
    && (forall f | f in v.files :: PlainName(f.name) && f.path == JoinPath(path, f.name))
    && (forall s | s in v.subfolders :: PlainName(s.name) && Tidy(s, JoinPath(path, s.name)))
  }

  ghost predicate PlainName(name: string) {
    ProperName(name) && !IsSpecial(name)
  }

  /** In a tidy tree, walking finds exactly the file at the position. */
  lemma {:induction false} WalkIffAt(v: FolderVal, path: string, names: seq<string>, f: FileVal)
    requires path != "" && names != [] && Tidy(v, path)
    ensures Walk(v, names) == Some(f) <==> At(v, names, f)
    decreases |names|
  {
    if |names| == 1 {
      var k := FirstIndex(FileNames(v), names[0]);
      assert forall i | 0 <= i < |v.files| :: FileNames(v)[i] == v.files[i].name;
    } else {
      var k := FirstIndex(FolderNames(v), names[0]);
      assert forall i | 0 <= i < |v.subfolders| :: FolderNames(v)[i] == v.subfolders[i].name;
      if k < |v.subfolders| {
        assert v.subfolders[k] in v.subfolders;
        WalkIffAt(v.subfolders[k], JoinPath(path, names[0]), names[1..], f);
      }
    }
  }

  /** The separator `JoinPath` puts after a path. */
  function Separator(path: string): string
    requires path != ""
  {
    if path[|path| - 1] == '/' then "" else "/"
  }

  /** A file records its position: its path is the one of the root followed by the names. */
  lemma {:induction false} PathOfPosition(v: FolderVal, path: string, names: seq<string>, f: FileVal)
    requires path != "" && names != [] && Tidy(v, path) && At(v, names, f)
    ensures AllProper(names) && f.path == path + Separator(path) + Join(names)
    decreases |names|
  {
    if |names| == 1 {
      assert f in v.files;
    } else {
      var i :| 0 <= i < |v.subfolders| && v.subfolders[i].name == names[0] && At(v.subfolders[i], names[1..], f);
      var sub := v.subfolders[i];
      assert sub in v.subfolders;
      PathOfPosition(sub, JoinPath(path, names[0]), names[1..], f);
      JoinLevels(path, names, f.path);
    }
  }

  lemma JoinLevels(path: string, names: seq<string>, filePath: string)
    requires path != "" && |names| > 1 && PlainName(names[0]) && AllProper(names[1..])
    requires var subPath := JoinPath(path, names[0]);
             filePath == subPath + Separator(subPath) + Join(names[1..])
    ensures AllProper(names) && filePath == path + Separator(path) + Join(names)
  {
    hide AllProper, Join;
    ProperCons(names);
    var subPath := JoinPath(path, names[0]);
    var rest := Join(names[1..]);
    assert subPath == path + Separator(path) + names[0];
    assert subPath[|subPath| - 1] == names[0][|names[0]| - 1];
    assert Separator(subPath) == "/";
    Reassociate(path + Separator(path), names[0], "/", rest);
  }

  lemma Reassociate(a: string, b: string, c: string, d: string)
    ensures a + b + c + d == a + (b + c + d)
  {
  }

  lemma ProperCons(names: seq<string>)
    requires |names| > 1 && PlainName(names[0]) && AllProper(names[1..])
    ensures AllProper(names) && Join(names) == names[0] + "/" + Join(names[1..])
  {
    assert names == [names[0]] + names[1..];
  }

  /** The part of a stored path a client asks for: what follows the path of the root. */
  function Target(f: FileVal, root: string): string {
    if |root| <= |f.path| then f.path[|root|..] else ""
  }

  /** Building and looking up are inverse: the path stored in a file, without the path of the
      root, leads back to this very file. */
  lemma LookupFindsEveryFile(v: FolderVal, path: string, names: seq<string>, f: FileVal)
    requires path != "" && names != [] && Tidy(v, path) && At(v, names, f)
    ensures path <= f.path
    ensures Components(Target(f, path)) == names
    ensures Walk(v, Components(Target(f, path))) == Some(f)
  {
    hide Components, Cut, Walk, At, Tidy, Join, AllProper;
    PathOfPosition(v, path, names, f);
    ComponentsOfJoin(names);
    LeadingSlash(Join(names));
    assert Target(f, path) == Separator(path) + Join(names);
    assert "" + Join(names) == Join(names);
    WalkIffAt(v, path, names, f);
  }

  lemma {:induction false} NamesOfPosition(v: FolderVal, path: string, names: seq<string>, f: FileVal, n: string)
    requires path != "" && Tidy(v, path) && At(v, names, f) && n in names
    ensures PlainName(n)
    decreases |names|
  {
    if |names| == 1 {
      assert f in v.files;
    } else {
      var i :| 0 <= i < |v.subfolders| && v.subfolders[i].name == names[0] && At(v.subfolders[i], names[1..], f);
      assert v.subfolders[i] in v.subfolders;
      if n != names[0] {
        NamesOfPosition(v.subfolders[i], JoinPath(path, names[0]), names[1..], f, n);
      }
    }
  }

  /** Some file or folder of the tree, at any level, has this name. */
  ghost predicate HasName(v: FolderVal, name: string)
    decreases v
  {
    || (exists f :: f in v.files && f.name == name)
    || (exists s :: s in v.subfolders && (s.name == name || HasName(s, name)))
  }

  /** The current directory and its parent are not in the tree. */
  lemma {:induction false} NoOddNames(v: FolderVal, path: string, name: string)
    requires path != "" && Tidy(v, path) && HasName(v, name)
    ensures name != "" && '/' !in name && name != "." && name != ".."
    decreases v
  {
    if s :| s in v.subfolders && (s.name == name || HasName(s, name)) {
      if s.name != name {
        NoOddNames(s, JoinPath(path, s.name), name);
      }
    }
  }

  /** Nothing is found outside the tree: a path with a `.` or `..` component, or ending with a
      slash, leads nowhere. */
  lemma OddPathsFindNothing(v: FolderVal, path: string, target: string)
    requires path != "" && Tidy(v, path)
    requires "." in Components(target) || ".." in Components(target) || target == "" || target[|target| - 1] == '/'
    ensures Walk(v, Components(target)) == None
  {
    hide Components, Cut, Walk, At, Tidy;
    var names := Components(target);
    var n: string;
    if "." in names {
      n := ".";
    } else if ".." in names {
      n := "..";
    } else {
      EmptyLastComponent(target);
      n := "";
    }
    var found := Walk(v, names);
    if found.Some? {
      WalkIffAt(v, path, names, found.value);
      NamesOfPosition(v, path, names, found.value, n);
      assert false;
    }
  }

  lemma {:induction false} EmptyLastComponent(p: string)
    requires p == "" || p[|p| - 1] == '/'
    ensures "" in Components(p)
    decreases |p|
  {
    hide *;
    var q := SkipSlashes(p);
    var k := SlashIndex(q);
    SkippedAlready(p);
    if k == |q| {
      LastTurn(q);
    } else {
      var a, b := q[..k], q[k + 1..];
      assert q == a + "/" + b;
      assert b == p[|p| - |b|..];
      OneName(a, b);
      EmptyLastComponent(b);
    }
  }
}
