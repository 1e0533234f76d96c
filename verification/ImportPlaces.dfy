/**
  Where an import is looked for, said by places: next to the importing file first, and then in
  each import directory.
 */
module ImportPlaces {
  import opened Paths
  import opened Loader
  import opened Wrappers

  predicate IsSlash(c: char) { c == '/' || c == '\\' }

  /** No slash of either kind. */
  predicate IsFileName(f: string) { forall i :: 0 <= i < |f| ==> !IsSlash(f[i]) }

  predicate EndsInSlash(dir: string) { dir != "" && IsSlash(dir[|dir| - 1]) }

  // ----- the directory of a file -----

  lemma {:induction false} LastSlashIs(path: string, n: nat)
    requires n < |path| && IsSlash(path[n]) && IsFileName(path[n + 1..])
    ensures LastSlash(path) == n
  {
    assert forall i :: n < i < |path| ==> path[i] == path[n + 1..][i - n - 1];
  }

  lemma NoLastSlash(f: string)
    requires IsFileName(f)
    ensures LastSlash(f) == |f|
  {
  }

  lemma DirNameIs(d: string, slash: char, f: string)
    requires IsSlash(slash) && IsFileName(f)
    ensures DirName(d + [slash] + f) == d
    ensures DirName(f) == ""
  {
    var a := d + [slash] + f;
    assert a[|d|] == slash && a[|d| + 1..] == f;
    LastSlashIs(a, |d|);
    assert a[..|d|] == d;
    NoLastSlash(f);
  }

  // ----- a path behind a directory -----

  lemma SplitAt(s: string, n: nat)
    requires n < |s| && s[n] == '/' && '/' !in s[..n]
    ensures Split(s) == [s[..n]] + Split(s[n + 1..])
  {
    assert forall i :: 0 <= i < n ==> s[i] == s[..n][i];
    FindSlashIs(s, n);
  }

  lemma {:induction false} SplitBehindSlash(x: string, y: string)
    requires x != "" && x[|x| - 1] == '/'
    ensures Split(x)[|Split(x)| - 1] == "" && Split(x + y) == Split(x)[..|Split(x)| - 1] + Split(y)
    decreases |x|
  {
    hide Split;
    var n := FindSlash(x);
    var head, tail := x[..n], x[n + 1..];
    assert (x + y)[..n] == head && (x + y)[n + 1..] == tail + y;
    SplitAt(x, n);
    SplitAt(x + y, n);
    if tail == "" {
      assert tail + y == y;
      SplitNothing();
      assert ([head] + [""])[..1] == [head];
    } else {
      SplitBehindSlash(tail, y);
      var rest := Split(tail);
      assert ([head] + rest)[..|rest|] == [head] + rest[..|rest| - 1];
      assert [head] + (rest[..|rest| - 1] + Split(y)) == [head] + rest[..|rest| - 1] + Split(y);
    }
  }

  lemma SplitNothing()
    ensures Split("") == [""]
  {
    FindSlashIs("", 0);
  }

  lemma {:induction false} WalkConcat(dirs: seq<string>, a: seq<string>, b: seq<string>)
    ensures Walk(dirs, a + b) == Walk(Walk(dirs, a), b)
    decreases |a|
  {
    if a == [] {
      assert a + b == b;
    } else {
      assert (a + b)[1..] == a[1..] + b;
      WalkConcat(Enter(dirs, a[0]), a[1..], b);
    }
  }

  /** Walking on behind a slash. */
  lemma WalkBehindSlash(dirs: seq<string>, x: string, y: string)
    requires x == "" || x[|x| - 1] == '/'
    ensures Walk(dirs, Split(x + y)) == Walk(Walk(dirs, Split(x)), Split(y))
  {
    hide Split, Walk;
    if x == "" {
      assert x + y == y;
      WalkNothing(dirs);
    } else {
      SplitBehindSlash(x, y);
      var front := Split(x)[..|Split(x)| - 1];
      assert Split(x) == front + [""];
      WalkConcat(dirs, front, Split(y));
      WalkSnoc(dirs, front, "");
    }
  }

  lemma WalkNothing(dirs: seq<string>)
    ensures Walk(dirs, Split("")) == dirs
  {
    FindSlashIs("", 0);
    assert Split("") == [""];
    assert [""][1..] == [];
  }

  /** A slash hides what comes behind it from the prefix. */
  lemma PrefixBehindSlash(x: string, y: string)
    requires x != "" && x[|x| - 1] == '/' && '\\' !in x
    ensures Prefix(x + y) == Prefix(x)
  {
    if |x| >= 3 { assert (x + y)[..3] == x[..3]; }
    assert (x + y)[..1] == x[..1];
    if |x| == 2 { assert (x + y)[1] == '/'; }
  }

  /** A relative path behind a directory leads from there. */
  lemma LocateBehind(cwd: Place, dir: string, rel: string)
    requires EndsInSlash(dir) && Prefix(Unify(rel)) == ""
    ensures Locate(cwd, dir + rel) == Locate(Locate(cwd, dir), rel)
  {
    hide Split, Walk, Prefix;
    var u, v := Unify(dir), Unify(rel);
    assert Unify(dir + rel) == u + v;
    assert u[|u| - 1] == '/' && '\\' !in u;
    PrefixBehindSlash(u, v);
    var p := |Prefix(u)|;
    assert (u + v)[p..] == u[p..] + v && v[0..] == v;
    var from := if Prefix(u) == "" then cwd else Place(Prefix(u), []);
    WalkBehindSlash(from.dirs, u[p..], v);
  }

  /** One more slash changes nothing behind a slash, nor does its kind. */
  lemma LocateSlash(cwd: Place, dir: string, slash: char)
    requires IsSlash(slash)
    ensures Locate(cwd, dir + [slash]) == Locate(cwd, dir + "/")
    ensures EndsInSlash(dir) ==> Locate(cwd, dir + "/") == Locate(cwd, dir)
  {
    hide Split, Walk, Prefix;
    assert Unify(dir + [slash]) == Unify(dir) + "/" == Unify(dir + "/");
    if EndsInSlash(dir) {
      var u := Unify(dir);
      assert u[|u| - 1] == '/' && '\\' !in u;
      PrefixBehindSlash(u, "/");
      var p := |Prefix(u)|;
      assert (u + "/")[p..] == u[p..] + "/";
      var from := if Prefix(u) == "" then cwd else Place(Prefix(u), []);
      WalkBehindSlash(from.dirs, u[p..], "/");
      WalkSlash(Walk(from.dirs, Split(u[p..])));
    }
  }

  lemma WalkSlash(dirs: seq<string>)
    ensures Walk(dirs, Split("/")) == dirs
  {
    FindSlashIs("/", 0);
    FindSlashIs("", 0);
    assert "/"[1..] == "" && "/"[..0] == "";
    assert Split("/") == [""] + [""];
    assert ([""] + [""])[1..] == [""] && [""][1..] == [];
  }

  /** Joining: where a relative path leads from a directory, or from here if there is none. */
  lemma JoinedPlace(cwd: Place, dir: string, rel: string)
    requires Prefix(Unify(rel)) == ""
    ensures Locate(cwd, JoinPath(dir, rel)) ==
            if dir == "" then Locate(cwd, rel) else Locate(Locate(cwd, dir + "/"), rel)
  {
    hide Locate, Prefix, Unify;
    if dir != "" {
      if EndsInSlash(dir) {
        LocateBehind(cwd, dir, rel);
        LocateSlash(cwd, dir, '/');
      } else {
        LocateBehind(cwd, dir + "/", rel);
      }
    }
  }

  // ----- next to the importer -----

  /** The first candidate for an import of file a. */
  function Beside(a: string, imp: string): string { Normalized(JoinPath(DirName(a), imp)) }

  /** A relative import of a file that stands in no directory leads from the current one. */
  lemma BesidePlain(f: string, imp: string)
    requires IsFileName(f) && Prefix(Unify(imp)) == "" && !TurnsIntoDrive(imp)
    ensures forall cwd :: Locate(cwd, Beside(f, imp)) == Locate(cwd, imp)
  {
    hide Locate, Prefix, Unify, Normalized, TurnsIntoDrive;
    DirNameIs("", '/', f);
    NormalizeKeepsPlace(imp);
  }

  /**
    A relative import of d/f is looked for where it leads from d, from every current directory,
    exactly when d is not empty: a file right under the root looks in the current directory.
    Unless the joined path spells a drive, which normalizing makes of it.
   */
  lemma BesidePlace(d: string, slash: char, f: string, imp: string)
    requires IsSlash(slash) && IsFileName(f) && Prefix(Unify(imp)) == ""
    requires !TurnsIntoDrive(JoinPath(d, imp))
    ensures (forall cwd :: Locate(cwd, Beside(d + [slash] + f, imp)) == Locate(Locate(cwd, d + [slash]), imp)) <==> d != ""
  {
    hide Locate, Prefix, Unify, Normalized, TurnsIntoDrive;
    DirNameIs(d, slash, f);
    NormalizeKeepsPlace(JoinPath(d, imp));
    forall cwd
      ensures Locate(cwd, Beside(d + [slash] + f, imp)) ==
              if d == "" then Locate(cwd, imp) else Locate(Locate(cwd, d + [slash]), imp)
    {
      JoinedPlace(cwd, d, imp);
      LocateSlash(cwd, d, slash);
    }
    if d == "" { RootIsElsewhere(slash, imp); }
  }

  lemma RootIsElsewhere(slash: char, imp: string)
    requires IsSlash(slash) && Prefix(Unify(imp)) == ""
    ensures exists cwd :: Locate(cwd, imp) != Locate(Locate(cwd, "" + [slash]), imp)
  {
    hide Split, Walk, Unify;
    var cwd := Place("C:/", []);
    var root := "" + [slash];
    assert Unify(root) == "/";
    assert Locate(cwd, root).root == "/";
    assert Locate(Locate(cwd, root), imp).root == "/";
    assert Locate(cwd, imp).root == "C:/";
  }

  // ----- which candidate it is -----

  /** The candidate in import directory i. */
  function Within(env: Env, i: nat, imp: string): string
    requires i < |env.importDirs|
  {
    Normalized(JoinPath(env.importDirs[i], imp))
  }

  /**
    A readable file next to the importer is what the import means, whatever the import directories
    hold; otherwise the first import directory with a readable one decides, and without any there
    is no file to import.
   */
  method ImportIsFound(env: Env, a: string, imp: string) returns (r: Option<string>)
    ensures Beside(a, imp) in env.files ==> r == Some(Beside(a, imp))
    ensures Beside(a, imp) !in env.files ==>
      match r
      case Some(p) => exists i :: 0 <= i < |env.importDirs| && Within(env, i, imp) == p && p in env.files &&
                        forall j :: 0 <= j < i ==> Within(env, j, imp) !in env.files
      case None => forall i :: 0 <= i < |env.importDirs| ==> Within(env, i, imp) !in env.files
    ensures forall b :: r == Some(b) && Header(env, a).Some? && imp in Header(env, a).value ==> Imports(env, a, b)
  {
    hide Normalized, JoinPath, DirName, FirstReadable;
    r := ResolveImport(env, imp, DirName(a));
    var c := Candidates(env, imp, DirName(a));
    FirstReadableIs(env, c);
    assert forall i :: 0 <= i < |env.importDirs| ==> c[i + 1] == Within(env, i, imp);
    if Beside(a, imp) !in env.files && r.Some? {
      var k :| 0 <= k < |c| && c[k] == r.value && c[k] in env.files && forall j :: 0 <= j < k ==> c[j] !in env.files;
      assert k > 0;
      forall j | 0 <= j < k - 1 ensures Within(env, j, imp) !in env.files { assert c[j + 1] !in env.files; }
      assert Within(env, k - 1, imp) == r.value;
    }
    if Beside(a, imp) !in env.files && r.None? {
      forall i | 0 <= i < |env.importDirs| ensures Within(env, i, imp) !in env.files { assert c[i + 1] in c; }
    }
  }

  lemma {:induction false} FirstReadableIs(env: Env, c: seq<string>)
    ensures match FirstReadable(env, c)
            case None => forall i :: 0 <= i < |c| ==> c[i] !in env.files
            case Some(p) => exists k :: 0 <= k < |c| && c[k] == p && c[k] in env.files &&
                              forall j :: 0 <= j < k ==> c[j] !in env.files
    ensures c != [] && c[0] in env.files ==> FirstReadable(env, c) == Some(c[0])
  {
    if c != [] && c[0] !in env.files {
      FirstReadableIs(env, c[1..]);
      if FirstReadable(env, c).Some? {
        var p := FirstReadable(env, c).value;
        var k :| 0 <= k < |c[1..]| && c[1..][k] == p && c[1..][k] in env.files && forall j :: 0 <= j < k ==> c[1..][j] !in env.files;
        forall j | 0 <= j < k + 1 ensures c[j] !in env.files { if j > 0 { assert c[1..][j - 1] == c[j]; } }
        assert c[k + 1] == p;
      } else {
        forall i | 0 <= i < |c| ensures c[i] !in env.files { if i > 0 { assert c[1..][i - 1] == c[i]; } }
      }
    }
  }
}
