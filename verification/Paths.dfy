/**
  Path normalization: the loop over segments, the fold it computes, the canonical forms it
  leaves, and when a path still names the same place afterwards.
 */
module Paths {

  function Unify(path: string): (u: string)
    ensures |u| == |path|
    ensures forall i :: 0 <= i < |u| ==> u[i] == if path[i] == '\\' then '/' else path[i]
  {
    seq(|path|, i requires 0 <= i < |path| => if path[i] == '\\' then '/' else path[i])
  }

  predicate IsAlpha(c: char) { 'a' <= c <= 'z' || 'A' <= c <= 'Z' }

  /** Nothing for a relative path, else "/" or a drive such as "C:/". */
  function Prefix(u: string): (p: string)
    ensures p <= u
  {
    if |u| >= 3 && IsAlpha(u[0]) && u[1] == ':' && u[2] == '/' then u[..3]
    else if u != "" && u[0] == '/' then u[..1]
    else ""
  }

  /** Where the first slash is, or the length. */
  function FindSlash(s: string): (n: nat)
    ensures n <= |s|
    ensures forall i :: 0 <= i < n ==> s[i] != '/'
    ensures n < |s| ==> s[n] == '/'
  {
    if s == "" || s[0] == '/' then 0 else 1 + FindSlash(s[1..])
  }

  lemma {:induction false} FindSlashIs(s: string, n: nat)
    requires n <= |s| && (forall i :: 0 <= i < n ==> s[i] != '/') && (n < |s| ==> s[n] == '/')
    ensures FindSlash(s) == n
  {
    if n > 0 { FindSlashIs(s[1..], n - 1); }
  }

  /** The segments between slashes, empty ones included. */
  function Split(s: string): (segs: seq<string>)
    ensures segs != []
    ensures forall i :: 0 <= i < |segs| ==> '/' !in segs[i]
    decreases |s|
  {
    var n := FindSlash(s);
    if n == |s| then [s] else [s[..n]] + Split(s[n + 1..])
  }

  function Join(segs: seq<string>): string {
    if segs == [] then "" else if |segs| == 1 then segs[0] else segs[0] + "/" + Join(segs[1..])
  }

  /** What one segment does to the stack. */
  function Push(relative: bool, stack: seq<string>, seg: string): seq<string> {
    if seg == "" || seg == "." then stack
    else if seg != ".." then stack + [seg]
    else if stack != [] && stack[|stack| - 1] != ".." then stack[..|stack| - 1]
    else if relative then stack + [".."]
    else stack
  }

  function Fold(relative: bool, stack: seq<string>, segs: seq<string>): seq<string>
    decreases |segs|
  {
    if segs == [] then stack else Fold(relative, Push(relative, stack, segs[0]), segs[1..])
  }

  /** A path taken apart: its prefix and what is left of its segments. */
  function Kept(path: string): seq<string> {
    var u := Unify(path);
    Fold(Prefix(u) == "", [], Split(u[|Prefix(u)|..]))
  }

  function Render(prefix: string, stack: seq<string>): string {
    var r := prefix + Join(stack);
    if r == "" then "." else r
  }

  function Normalized(path: string): string {
    Render(Prefix(Unify(path)), Kept(path))
  }

  method NormalizePath(path: string) returns (result: string)
    ensures result == Normalized(path)
  {
    hide Split, Fold, FindSlash, Join;
    var unified := Unify(path);
    var prefix := Prefix(unified);
    var start := |prefix|;
    var stack: seq<string> := [];
    var i := start;
    var more := true;
    while more
      invariant start <= i <= |unified|
      invariant Kept(path) == if more then Fold(prefix == "", stack, Split(unified[i..])) else stack
      decreases more, |unified| - i
    {
      ghost var rest := unified[i..];
      var next := Find(unified, i);
      var seg := unified[i..next];
      SplitStep(rest, prefix == "", stack);
      assert rest[..next - i] == seg && (next < |unified| ==> rest[next - i + 1..] == unified[next + 1..]);
      assert next == |unified| ==> seg == rest;
      ghost var pushed := Push(prefix == "", stack, seg);
      if seg != "" && seg != "." {
        if seg == ".." {
          if stack != [] && stack[|stack| - 1] != ".." {
            stack := stack[..|stack| - 1];
          } else if prefix == "" {
            stack := stack + [".."];
          }
        } else {
          stack := stack + [seg];
        }
      }
      assert stack == pushed;
      more := next < |unified|;
      if more { i := next + 1; }
    }
    var joined := JoinAll(stack);
    result := if prefix + joined == "" then "." else prefix + joined;
  }

  /** `unified.find('/', start)`, with the length for npos. */
  method Find(s: string, start: nat) returns (n: nat)
    requires start <= |s|
    ensures n == start + FindSlash(s[start..]) <= |s|
  {
    n := start;
    while n < |s| && s[n] != '/'
      invariant start <= n <= |s| && forall i :: start <= i < n ==> s[i] != '/'
    {
      n := n + 1;
    }
    FindSlashIs(s[start..], n - start);
  }

  lemma SplitStep(s: string, relative: bool, stack: seq<string>)
    ensures var n := FindSlash(s);
            Fold(relative, stack, Split(s)) ==
            if n == |s| then Push(relative, stack, s) else Fold(relative, Push(relative, stack, s[..n]), Split(s[n + 1..]))
  {
    var n := FindSlash(s);
    if n < |s| { assert ([s[..n]] + Split(s[n + 1..]))[1..] == Split(s[n + 1..]); }
  }

  method JoinAll(stack: seq<string>) returns (result: string)
    ensures result == Join(stack)
  {
    result := "";
    for k := 0 to |stack|
      invariant result == Join(stack[..k])
    {
      JoinSnoc(stack[..k], stack[k]);
      assert stack[..k + 1] == stack[..k] + [stack[k]];
      if k > 0 { result := result + "/"; }
      result := result + stack[k];
    }
    assert stack[..|stack|] == stack;
  }

  lemma {:induction false} JoinSnoc(segs: seq<string>, last: string)
    ensures Join(segs + [last]) == Join(segs) + (if segs == [] then "" else "/") + last
    decreases |segs|
  {
    if |segs| == 1 {
      assert (segs + [last])[1..] == [last];
    } else if segs != [] {
      JoinSnoc(segs[1..], last);
      assert (segs + [last])[1..] == segs[1..] + [last];
      assert segs[0] + "/" + (Join(segs[1..]) + "/" + last) == segs[0] + "/" + Join(segs[1..]) + "/" + last;
    }
  }

  // ----- canonical forms -----

  /** A segment that stays: it is not empty, not ".", and holds no slash of either kind. */
  predicate Plain(seg: string) {
    seg != "" && seg != "." && '/' !in seg && '\\' !in seg
  }

  /** Plain segments, with ".." at most as a leading run, and not at all behind a root. */
  predicate Clean(relative: bool, stack: seq<string>) {
    && (forall i :: 0 <= i < |stack| ==> Plain(stack[i]))
    && (!relative ==> ".." !in stack)
    && forall i, j :: 0 <= i < j < |stack| && stack[j] == ".." ==> stack[i] == ".."
  }

  /** What NormalizePath leaves: ".", or a prefix and clean segments. */
  ghost predicate Canonical(s: string) {
    exists stack :: IsForm(s, stack)
  }

  ghost predicate IsForm(s: string, stack: seq<string>) {
    s == Render(Prefix(s), stack) && Clean(Prefix(s) == "", stack)
  }

  lemma {:induction false} FoldClean(relative: bool, stack: seq<string>, segs: seq<string>)
    requires Clean(relative, stack)
    requires forall i :: 0 <= i < |segs| ==> '/' !in segs[i] && '\\' !in segs[i]
    ensures Clean(relative, Fold(relative, stack, segs))
    decreases |segs|
  {
    if segs != [] {
      FoldClean(relative, Push(relative, stack, segs[0]), segs[1..]);
    }
  }

  lemma {:induction false} SplitKeeps(s: string, c: char)
    requires c !in s
    ensures forall i :: 0 <= i < |Split(s)| ==> c !in Split(s)[i]
    decreases |s|
  {
    var n := FindSlash(s);
    if n < |s| {
      assert c !in s[n + 1..];
      SplitKeeps(s[n + 1..], c);
    }
  }

  lemma KeptIsClean(path: string)
    ensures Clean(Prefix(Unify(path)) == "", Kept(path))
  {
    var u := Unify(path);
    var rest := u[|Prefix(u)|..];
    assert '\\' !in rest;
    SplitKeeps(rest, '\\');
    FoldClean(Prefix(u) == "", [], Split(rest));
  }

  // ----- clean segments go through unchanged -----

  lemma {:induction false} SplitJoin(stack: seq<string>)
    requires stack != [] && forall i :: 0 <= i < |stack| ==> Plain(stack[i])
    ensures Split(Join(stack)) == stack
    decreases |stack|
  {
    hide FindSlash;
    var s, n := Join(stack), |stack[0]|;
    assert Plain(stack[0]);
    if |stack| == 1 {
      FindSlashIs(s, n);
    } else {
      assert s == stack[0] + "/" + Join(stack[1..]);
      assert s[..n] == stack[0] && s[n] == '/' && s[n + 1..] == Join(stack[1..]);
      FindSlashIs(s, n);
      SplitJoin(stack[1..]);
    }
  }

  lemma {:induction false} FoldKeeps(relative: bool, stack: seq<string>, segs: seq<string>)
    requires Clean(relative, stack + segs)
    ensures Fold(relative, stack, segs) == stack + segs
    decreases |segs|
  {
    var all := stack + segs;
    if segs != [] {
      assert all[|stack|] == segs[0] && Plain(segs[0]);
      assert stack != [] ==> all[|stack| - 1] == stack[|stack| - 1];
      assert segs[0] == ".." ==> relative;
      assert Push(relative, stack, segs[0]) == stack + [segs[0]];
      assert stack + [segs[0]] + segs[1..] == all;
      FoldKeeps(relative, stack + [segs[0]], segs[1..]);
    }
  }

  lemma {:induction false} JoinSafe(stack: seq<string>)
    requires forall i :: 0 <= i < |stack| ==> Plain(stack[i])
    ensures '\\' !in Join(stack)
    ensures stack != [] ==> Join(stack) != "" && Join(stack)[0] != '/'
    decreases |stack|
  {
    if |stack| > 1 { JoinSafe(stack[1..]); }
  }

  lemma UnifySafe(s: string)
    requires '\\' !in s
    ensures Unify(s) == s
  {
  }

  /** Behind a root, or relative without looking like a drive, a clean path keeps its segments. */
  lemma FormKept(s: string, stack: seq<string>)
    requires IsForm(s, stack)
    ensures Unify(s) == s && Kept(s) == stack && Normalized(s) == s
  {
    hide Fold, Split, Join, Unify;
    var prefix := Prefix(s);
    JoinSafe(stack);
    UnifySafe(s);
    var rest := s[|prefix|..];
    if stack != [] {
      assert rest == Join(stack);
      SplitJoin(stack);
      FoldKeeps(prefix == "", [], stack);
      assert [] + stack == stack;
    } else {
      NoSegments(prefix == "");
      JoinNone();
      assert prefix + Join(stack) == prefix;
      assert rest == "" || s == ".";
    }
  }

  lemma NoSegments(relative: bool)
    ensures Fold(relative, [], Split("")) == [] && Fold(relative, [], Split(".")) == []
  {
    FindSlashIs("", 0);
    FindSlashIs(".", 1);
    SplitStep("", relative, []);
    SplitStep(".", relative, []);
  }

  lemma JoinNone()
    ensures Join([]) == ""
  {
  }

  // ----- drives -----

  /** A first segment such as "C:" with something behind it. */
  predicate LooksLikeDrive(stack: seq<string>) {
    |stack| >= 2 && |stack[0]| == 2 && IsAlpha(stack[0][0]) && stack[0][1] == ':'
  }

  /** The relative path's kept segments spell a drive. */
  predicate TurnsIntoDrive(path: string) {
    Prefix(Unify(path)) == "" && LooksLikeDrive(Kept(path))
  }

  /** The segments of a normal form: the kept ones, but for a first one that became its drive. */
  function FormStack(path: string): seq<string> {
    if TurnsIntoDrive(path) then Kept(path)[1..] else Kept(path)
  }

  /** What joined relative segments begin with. */
  lemma JoinPrefix(kept: seq<string>)
    requires kept != [] && Clean(true, kept)
    ensures Prefix(Join(kept)) == if LooksLikeDrive(kept) then kept[0] + "/" else ""
    ensures LooksLikeDrive(kept) ==> Join(kept) == kept[0] + "/" + Join(kept[1..]) && Clean(false, kept[1..])
  {
    var s := Join(kept);
    assert |kept| > 1 ==> s == kept[0] + "/" + Join(kept[1..]);
    assert forall i :: 0 <= i < |kept[0]| ==> s[i] == kept[0][i];
    assert |kept| > 1 ==> s[|kept[0]|] == '/';
    assert forall i :: 0 <= i < |kept| && kept[i] == ".." ==> kept[0] == "..";
    if LooksLikeDrive(kept) {
      assert s[..3] == kept[0] + "/";
      assert forall i :: 0 <= i < |kept| ==> kept[i] != "..";
    }
  }

  /** Normalizing gives a canonical form, and what its prefix is. */
  lemma NormalizedIsForm(path: string)
    ensures IsForm(Normalized(path), FormStack(path))
    ensures Prefix(Normalized(path)) == if TurnsIntoDrive(path) then Kept(path)[0] + "/" else Prefix(Unify(path))
  {
    hide Kept, Unify, Split, FindSlash, Join, Clean;
    var prefix, kept, s := Prefix(Unify(path)), Kept(path), Normalized(path);
    KeptIsClean(path);
    if prefix == "" && kept != [] {
      assert "" + Join(kept) == Join(kept);
      JoinNotEmpty(kept);
      JoinPrefix(kept);
      if LooksLikeDrive(kept) { assert Render(kept[0] + "/", kept[1..]) == Join(kept); }
    } else {
      JoinNone();
      assert prefix != "" ==> s[..|prefix|] == prefix;
    }
  }

  lemma JoinNotEmpty(kept: seq<string>)
    requires kept != [] && Clean(true, kept)
    ensures Join(kept) != ""
  {
  }

  /** NormalizePath is idempotent, and its fixed points are the canonical forms. */
  lemma NormalizeIsCanonical(path: string)
    ensures Normalized(Normalized(path)) == Normalized(path)
    ensures Canonical(path) <==> Normalized(path) == path
  {
    hide Render, Clean, Prefix, Kept, Unify, TurnsIntoDrive;
    NormalizedIsForm(path);
    FormKept(Normalized(path), FormStack(path));
    if Canonical(path) {
      var stack :| IsForm(path, stack);
      FormKept(path, stack);
    }
  }

  // ----- what a path names -----

  /** A directory: a root, and the names that lead down from it. */
  datatype Place = Place(root: string, dirs: seq<string>)

  /** One step of following a path, where ".." from a root stays there. */
  function Enter(dirs: seq<string>, seg: string): seq<string> {
    if seg == "" || seg == "." then dirs
    else if seg != ".." then dirs + [seg]
    else if dirs == [] then []
    else dirs[..|dirs| - 1]
  }

  function Walk(dirs: seq<string>, segs: seq<string>): seq<string>
    decreases |segs|
  {
    if segs == [] then dirs else Walk(Enter(dirs, segs[0]), segs[1..])
  }

  /** Where a path leads from a current directory. */
  function Locate(cwd: Place, path: string): Place {
    var u := Unify(path);
    var from := if Prefix(u) == "" then cwd else Place(Prefix(u), []);
    Place(from.root, Walk(from.dirs, Split(u[|Prefix(u)|..])))
  }

  lemma {:induction false} WalkSnoc(dirs: seq<string>, segs: seq<string>, last: string)
    ensures Walk(dirs, segs + [last]) == Enter(Walk(dirs, segs), last)
    decreases |segs|
  {
    if segs == [] {
      assert ([] + [last])[1..] == [];
    } else {
      assert (segs + [last])[1..] == segs[1..] + [last];
      WalkSnoc(Enter(dirs, segs[0]), segs[1..], last);
    }
  }

  /** Pushing a segment and then walking is walking and then entering it. */
  lemma WalkPush(relative: bool, dirs: seq<string>, stack: seq<string>, seg: string)
    requires Clean(relative, stack) && (relative || dirs == [])
    ensures Walk(dirs, Push(relative, stack, seg)) == Enter(Walk(dirs, stack), seg)
  {
    assert stack != [] ==> stack[|stack| - 1] in stack;
    if seg == ".." && stack != [] && stack[|stack| - 1] != ".." {
      var front, last := stack[..|stack| - 1], stack[|stack| - 1];
      assert stack == front + [last];
      WalkSnoc(dirs, front, last);
      assert (Walk(dirs, front) + [last])[..|Walk(dirs, front)|] == Walk(dirs, front);
    } else if seg == ".." && !relative {
      assert stack == [];
    } else if seg != "" && seg != "." {
      WalkSnoc(dirs, stack, seg);
    }
  }

  lemma {:induction false} WalkFold(relative: bool, dirs: seq<string>, stack: seq<string>, segs: seq<string>)
    requires Clean(relative, stack) && (relative || dirs == [])
    requires forall i :: 0 <= i < |segs| ==> '/' !in segs[i] && '\\' !in segs[i]
    ensures Walk(dirs, Fold(relative, stack, segs)) == Walk(Walk(dirs, stack), segs)
    decreases |segs|
  {
    if segs != [] {
      WalkPush(relative, dirs, stack, segs[0]);
      FoldClean(relative, stack, segs[..1]);
      assert Fold(relative, stack, segs[..1]) == Push(relative, stack, segs[0]);
      WalkFold(relative, dirs, Push(relative, stack, segs[0]), segs[1..]);
    }
  }

  /** A path leads where its kept segments lead. */
  lemma LocateKept(cwd: Place, path: string)
    ensures Locate(cwd, path) ==
      if Prefix(Unify(path)) == "" then Place(cwd.root, Walk(cwd.dirs, Kept(path)))
      else Place(Prefix(Unify(path)), Walk([], Kept(path)))
  {
    hide Prefix, Fold, Split;
    var u := Unify(path);
    var rest := u[|Prefix(u)|..];
    assert '\\' !in rest;
    SplitKeeps(rest, '\\');
    WalkFold(Prefix(u) == "", if Prefix(u) == "" then cwd.dirs else [], [], Split(rest));
  }

  /**
    Normalizing keeps what a path names, from every directory, exactly when the path is not a
    relative one whose kept segments spell a drive.
   */
  lemma NormalizeKeepsPlace(path: string)
    ensures (forall cwd :: Locate(cwd, Normalized(path)) == Locate(cwd, path)) <==> !TurnsIntoDrive(path)
  {
    hide Render, Clean, Prefix, Kept, Unify, Locate, Normalized;
    var s := Normalized(path);
    NormalizedIsForm(path);
    FormKept(s, FormStack(path));
    if TurnsIntoDrive(path) {
      var cwd := Place("/", []);
      LocateKept(cwd, path);
      LocateKept(cwd, s);
      assert Locate(cwd, s).root == Kept(path)[0] + "/" != "/";
    } else {
      forall cwd ensures Locate(cwd, s) == Locate(cwd, path) {
        LocateKept(cwd, path);
        LocateKept(cwd, s);
      }
    }
  }

  /** What makes a path absolute: a slash of either kind in front, or behind a drive letter and a colon. */
  lemma Roots(cwd: Place, path: string)
    ensures Locate(cwd, path).root ==
      if |path| >= 3 && IsAlpha(path[0]) && path[1] == ':' && path[2] in {'/', '\\'} then path[..2] + "/"
      else if path != "" && path[0] in {'/', '\\'} then "/"
      else cwd.root
  {
    hide Walk, Split;
    var u := Unify(path);
    if |path| >= 3 && IsAlpha(path[0]) && path[1] == ':' && path[2] in {'/', '\\'} { assert u[..3] == path[..2] + "/"; }
    if path != "" && path[0] in {'/', '\\'} { assert u[..1] == "/"; }
  }

  /** A single segment: nothing and "." stay, ".." goes up and stays at the root, a name goes down. */
  lemma OneSegment(cwd: Place, seg: string)
    requires '/' !in seg && '\\' !in seg
    ensures Locate(cwd, seg) ==
      if seg == "" || seg == "." then cwd
      else if seg == ".." then Place(cwd.root, if cwd.dirs == [] then [] else cwd.dirs[..|cwd.dirs| - 1])
      else Place(cwd.root, cwd.dirs + [seg])
  {
    UnifySafe(seg);
    assert |seg| >= 3 ==> seg[2] in seg;
    assert seg != "" ==> seg[0] in seg;
    assert forall i :: 0 <= i < |seg| ==> seg[i] in seg;
    FindSlashIs(seg, |seg|);
    assert Prefix(seg) == "" && seg[0..] == seg && Split(seg) == [seg];
    assert [seg][1..] == [];
    assert Walk(cwd.dirs, [seg]) == Enter(cwd.dirs, seg);
  }

  /** One that does become a drive: a directory named C: under the current one. */
  lemma DriveExample()
    ensures Normalized("./C:/x") == "C:/x" && TurnsIntoDrive("./C:/x")
  {
    hide Fold, Split, Unify, FindSlash, Join;
    var path, kept := "./C:/x", ["C:", "x"];
    UnifySafe(path);
    DriveSegments(path, kept);
    FoldKeeps(true, [], kept);
    assert [] + kept == kept;
  }

  lemma DriveSegments(path: string, kept: seq<string>)
    requires path == "./C:/x" && kept == ["C:", "x"]
    ensures path[0..] == path && Join(kept) == "C:/x"
    ensures Fold(true, [], Split(path)) == Fold(true, [], kept)
  {
    hide Fold, Split, FindSlash;
    FindSlashIs(path, 1);
    SplitStep(path, true, []);
    assert path[..1] == "." && path[2..] == "C:/x";
    assert kept[1..] == ["x"] && Join(kept) == "C:/x";
    SplitJoin(kept);
  }
}
