/**
  Loading a file and everything it imports: which files end up in the graph, in what order, and
  when loading reports an import cycle.
 */
module Loader {
  import Graph
  import opened Paths
  import opened Wrappers

  datatype Import = Import(path: string, resolvedPath: string)

  datatype LoadedFile = LoadedFile(path: string, imports: seq<Import>)

  type LoadedGraph = seq<LoadedFile>

  /**
    What loading depends on: the readable files, the import directories, the import paths in the
    header of a text (None when lexing or the header fails), and whether a body parses after the
    files loaded so far.
   */
  datatype Env = Env(files: map<string, string>, importDirs: seq<string>,
                     header: string -> Option<seq<string>>, body: (string, LoadedGraph) -> bool)

  /** The last slash of either kind, or the length. */
  function LastSlash(path: string): (n: nat)
    ensures n <= |path|
    ensures n < |path| ==> path[n] == '/' || path[n] == '\\'
    ensures forall i :: (if n < |path| then n + 1 else 0) <= i < |path| ==> path[i] != '/' && path[i] != '\\'
  {
    if path == "" then 0
    else
      var last := |path| - 1;
      if path[last] == '/' || path[last] == '\\' then last
      else if LastSlash(path[..last]) == last then |path|
      else LastSlash(path[..last])
  }

  function DirName(path: string): string {
    if LastSlash(path) == |path| then "" else path[..LastSlash(path)]
  }

  function JoinPath(dir: string, rel: string): string {
    if dir == "" then rel
    else if dir[|dir| - 1] == '/' || dir[|dir| - 1] == '\\' then dir + rel
    else dir + "/" + rel
  }

  /** Where an import is looked for: next to the importer, then in each import directory. */
  function Candidates(env: Env, imp: string, dir: string): (c: seq<string>)
    ensures |c| == 1 + |env.importDirs|
  {
    [Normalized(JoinPath(dir, imp))] +
    seq(|env.importDirs|, i requires 0 <= i < |env.importDirs| => Normalized(JoinPath(env.importDirs[i], imp)))
  }

  /** The first readable candidate. */
  function FirstReadable(env: Env, candidates: seq<string>): (r: Option<string>)
    ensures r.Some? ==> r.value in candidates && r.value in env.files
    ensures r.None? <==> forall c :: c in candidates ==> c !in env.files
  {
    if candidates == [] then None
    else if candidates[0] in env.files then Some(candidates[0])
    else FirstReadable(env, candidates[1..])
  }

  function Resolve(env: Env, imp: string, dir: string): Option<string> {
    FirstReadable(env, Candidates(env, imp, dir))
  }

  lemma ResolvedPath(env: Env, imp: string, dir: string)
    requires Resolve(env, imp, dir).Some?
    ensures Resolve(env, imp, dir).value in env.files && Resolve(env, imp, dir).value != ""
  {
    hide Normalized, FirstReadable, JoinPath;
    var c := Candidates(env, imp, dir);
    var i :| 0 <= i < |c| && c[i] == Resolve(env, imp, dir).value;
    NotEmpty(if i == 0 then JoinPath(dir, imp) else JoinPath(env.importDirs[i - 1], imp));
  }

  lemma NotEmpty(path: string)
    ensures Normalized(path) != ""
  {
  }

  method ResolveImport(env: Env, imp: string, dir: string) returns (r: Option<string>)
    ensures r == Resolve(env, imp, dir)
  {
    hide Normalized, FirstReadable, JoinPath;
    var first := NormalizePath(JoinPath(dir, imp));
    var candidates := [first];
    for i := 0 to |env.importDirs|
      invariant candidates == Candidates(env, imp, dir)[..i + 1]
    {
      var next := NormalizePath(JoinPath(env.importDirs[i], imp));
      candidates := candidates + [next];
    }
    assert candidates == Candidates(env, imp, dir);
    r := ReadFirst(env, candidates);
  }

  method ReadFirst(env: Env, candidates: seq<string>) returns (r: Option<string>)
    ensures r == FirstReadable(env, candidates)
  {
    for i := 0 to |candidates|
      invariant FirstReadable(env, candidates) == FirstReadable(env, candidates[i..])
    {
      assert candidates[i..][1..] == candidates[i + 1..];
      if candidates[i] in env.files { return Some(candidates[i]); }
    }
    r := None;
  }

  // ----- the import relation -----

  /** The imports in a readable file whose header parses. */
  function Header(env: Env, path: string): Option<seq<string>> {
    if path in env.files then env.header(env.files[path]) else None
  }

  /** File a has an import that resolves to file b. */
  ghost predicate Imports(env: Env, a: string, b: string) {
    Header(env, a).Some? &&
    exists imp :: imp in Header(env, a).value && Resolve(env, imp, DirName(a)) == Some(b)
  }

  ghost predicate Chain(env: Env, s: seq<string>) {
    forall i :: 0 <= i < |s| - 1 ==> Imports(env, s[i], s[i + 1])
  }

  /** A chain of imports from the first file on that comes back to a file it passed. */
  ghost predicate CycleFrom(env: Env, first: string, s: seq<string>) {
    |s| >= 2 && s[0] == first && Chain(env, s) && s[|s| - 1] in s[..|s| - 1]
  }

  ghost predicate Reaches(env: Env, first: string, p: string) {
    exists s: seq<string> :: s != [] && s[0] == first && s[|s| - 1] == p && Chain(env, s)
  }

  /** Every import of a listed file is listed before it. */
  ghost predicate ImportsFirst(env: Env, order: seq<string>) {
    forall k, q :: 0 <= k < |order| && Imports(env, order[k], q) ==> q in order[..k]
  }

  /** From a file of such a list, chains only lead backwards in it. */
  lemma {:induction false} ChainsGoBack(env: Env, order: seq<string>, s: seq<string>, k: nat) returns (m: nat)
    requires ImportsFirst(env, order) && Chain(env, s) && s != [] && k < |order| && order[k] == s[0]
    ensures m <= k && order[m] == s[|s| - 1] && (|s| > 1 ==> m < k)
    decreases |s|
  {
    hide Imports;
    m := k;
    if |s| > 1 {
      assert Imports(env, s[0], s[1]);
      var j :| 0 <= j < k && order[j] == s[1];
      ChainPart(env, s, 1);
      m := ChainsGoBack(env, order, s[1..], j);
    }
  }

  lemma ChainPart(env: Env, s: seq<string>, i: nat)
    requires Chain(env, s) && i < |s|
    ensures Chain(env, s[..i + 1]) && Chain(env, s[i..])
  {
    hide Imports;
    var front, back := s[..i + 1], s[i..];
    forall k | 0 <= k < |front| - 1 ensures Imports(env, front[k], front[k + 1]) {
      assert Imports(env, s[k], s[k + 1]);
    }
    forall k | 0 <= k < |back| - 1 ensures Imports(env, back[k], back[k + 1]) {
      assert Imports(env, s[i + k], s[i + k + 1]);
    }
  }

  lemma ChainOn(env: Env, s: seq<string>, p: string)
    requires Chain(env, s) && (s == [] || Imports(env, s[|s| - 1], p))
    ensures Chain(env, s + [p])
  {
    hide Imports;
    var t := s + [p];
    forall k | 0 <= k < |t| - 1 ensures Imports(env, t[k], t[k + 1]) {
      if k < |s| - 1 { assert Imports(env, s[k], s[k + 1]); }
    }
  }

  lemma NoCycleIn(env: Env, order: seq<string>, s: seq<string>, first: string)
    requires ImportsFirst(env, order) && first in order
    requires forall i, j :: 0 <= i < j < |order| ==> order[i] != order[j]
    ensures !CycleFrom(env, first, s)
  {
    hide Imports, ImportsFirst, Chain;
    if CycleFrom(env, first, s) {
      var i :| 0 <= i < |s| - 1 && s[i] == s[|s| - 1];
      var k :| 0 <= k < |order| && order[k] == first;
      ChainPart(env, s, i);
      assert s[..i + 1][i] == s[i] && s[i..][0] == s[i] && s[i..][|s| - 1 - i] == s[|s| - 1];
      var m := ChainsGoBack(env, order, s[..i + 1], k);
      var n := ChainsGoBack(env, order, s[i..], m);
    }
  }

  // ----- what a graph says -----

  /** An import's resolved path: what it resolves to, unless that file was left out. */
  predicate ResolvedTo(env: Env, failed: set<string>, from: string, i: Import) {
    match Resolve(env, i.path, DirName(from))
    case None => i.resolvedPath == ""
    case Some(p) => i.resolvedPath == if p in failed then "" else p
  }

  /** The first n imports of a header, resolved. */
  predicate ImportsAre(env: Env, failed: set<string>, from: string, imports: seq<Import>, names: seq<string>) {
    && |imports| == |names|
    && forall i :: 0 <= i < |names| ==> imports[i].path == names[i] && ResolvedTo(env, failed, from, imports[i])
  }

  predicate FileIs(env: Env, failed: set<string>, f: LoadedFile) {
    Header(env, f.path).Some? && ImportsAre(env, failed, f.path, f.imports, Header(env, f.path).value)
  }

  predicate BodyParses(env: Env, path: string, before: LoadedGraph) {
    path in env.files && env.body(env.files[path], before)
  }

  predicate Listed(graph: LoadedGraph, path: string) { exists i :: 0 <= i < |graph| && graph[i].path == path }

  /** Every path once, every file as its text says, its body parsed after the files before it. */
  predicate GraphOk(env: Env, failed: set<string>, graph: LoadedGraph) {
    && (forall i, j :: 0 <= i < j < |graph| ==> graph[i].path != graph[j].path)
    && (forall i :: 0 <= i < |graph| ==> FileIs(env, failed, graph[i]) && BodyParses(env, graph[i].path, graph[..i]))
  }

  /** Every resolved import of a file is listed before it. */
  predicate ImportsEarlier(graph: LoadedGraph) {
    forall j, k :: 0 <= j < |graph| && 0 <= k < |graph[j].imports| && graph[j].imports[k].resolvedPath != "" ==>
      Listed(graph[..j], graph[j].imports[k].resolvedPath)
  }

  predicate AllResolved(imports: seq<Import>) {
    forall k :: 0 <= k < |imports| ==> imports[k].resolvedPath != ""
  }

  /** A file was left out because its header, or its body at that point, does not parse. */
  predicate IsBad(env: Env, graph: LoadedGraph, path: string) {
    Header(env, path).None? || exists n :: 0 <= n <= |graph| && !BodyParses(env, path, graph[..n])
  }

  datatype LoadError =
    | CannotOpen
    | Cycle(chain: seq<string>)
    | CannotResolve(imp: string, from: string)
    | BadFile(path: string)

  /** What has been loaded when the body of `path` is parsed: some reached files, its imports among them. */
  ghost predicate LoadedBefore(env: Env, entry: string, graph: LoadedGraph, path: string) {
    && GraphOk(env, {}, graph) && ImportsEarlier(graph)
    && (forall p :: Listed(graph, p) ==> Reaches(env, entry, p))
    && forall q :: Imports(env, path, q) ==> Listed(graph, q)
  }

  /** An error says what is wrong with a file that loading gets to. */
  ghost predicate ErrorIsReal(env: Env, perFile: bool, entry: string, e: LoadError) {
    match e
    case CannotOpen => entry !in env.files
    case Cycle(chain) => CycleFrom(env, entry, chain)
    case CannotResolve(imp, from) =>
      !perFile && Reaches(env, entry, from) && Header(env, from).Some? && imp in Header(env, from).value &&
      Resolve(env, imp, DirName(from)).None?
    case BadFile(path) =>
      !perFile && Reaches(env, entry, path) &&
      (Header(env, path).None? || exists g :: LoadedBefore(env, entry, g, path) && !BodyParses(env, path, g))
  }

  // ----- the parts of the state -----

  /** The finished files, each after its imports, all reached from the entry. */
  ghost predicate OrderOk(env: Env, entry: string, order: seq<string>, merged: set<string>) {
    && Graph.Distinct(order) && (forall p :: p in order <==> p in merged) && ImportsFirst(env, order)
    && forall p :: p in merged ==> Reaches(env, entry, p)
  }

  /** The files being loaded are a chain of imports from the entry. */
  ghost predicate LoadingOk(env: Env, entry: string, loading: seq<string>, merged: set<string>) {
    && Graph.Distinct(loading) && Chain(env, loading) && (loading != [] ==> loading[0] == entry)
    && forall p :: p in loading ==> p in env.files && p !in merged
  }

  /** What these imports resolve to is finished. */
  predicate AllMerged(env: Env, from: string, names: seq<string>, merged: set<string>) {
    forall i :: 0 <= i < |names| ==>
      match Resolve(env, names[i], DirName(from)) case None => true case Some(q) => q in merged
  }

  lemma PopLoading(env: Env, entry: string, loading: seq<string>, merged: set<string>)
    requires LoadingOk(env, entry, loading, merged) && loading != []
    ensures LoadingOk(env, entry, loading[..|loading| - 1], merged + {loading[|loading| - 1]})
    ensures Reaches(env, entry, loading[|loading| - 1])
    ensures loading[|loading| - 1] in env.files && loading[|loading| - 1] !in merged
  {
    hide Imports, Chain;
    if |loading| > 1 { ChainPart(env, loading, |loading| - 2); } else { ChainNone(env); }
  }

  /** The files that are not being loaded. */
  ghost function Pending(env: Env, loading: seq<string>): set<string> {
    env.files.Keys - set p | p in loading
  }

  lemma ChainNone(env: Env)
    ensures Chain(env, [])
  {
  }

  lemma PushLoading(env: Env, entry: string, loading: seq<string>, merged: set<string>, path: string)
    requires LoadingOk(env, entry, loading, merged) && path in env.files && path !in merged && path !in loading
    requires if loading == [] then path == entry else Imports(env, loading[|loading| - 1], path)
    ensures LoadingOk(env, entry, loading + [path], merged)
    ensures Pending(env, loading + [path]) < Pending(env, loading)
  {
    hide Imports, Chain;
    ChainOn(env, loading, path);
    assert path in Pending(env, loading) && path !in Pending(env, loading + [path]);
  }

  lemma ClosesCycle(env: Env, perFile: bool, entry: string, loading: seq<string>, merged: set<string>, path: string)
    requires LoadingOk(env, entry, loading, merged) && path in loading && Imports(env, loading[|loading| - 1], path)
    ensures ErrorIsReal(env, perFile, entry, Cycle(loading + [path]))
  {
    hide Imports, Chain;
    ChainOn(env, loading, path);
    assert (loading + [path])[..|loading + [path]| - 1] == loading;
  }

  lemma FinishOrder(env: Env, entry: string, order: seq<string>, merged: set<string>, path: string)
    requires OrderOk(env, entry, order, merged) && path !in merged && Reaches(env, entry, path)
    requires forall q :: Imports(env, path, q) ==> q in merged
    ensures OrderOk(env, entry, order + [path], merged + {path})
  {
    hide Imports, Reaches;
    var order' := order + [path];
    forall k, q | 0 <= k < |order'| && Imports(env, order'[k], q) ensures q in order'[..k] {
      assert order'[..k] == order[..k];
      if k < |order| { assert Imports(env, order[k], q); } else { assert order[..k] == order; }
    }
  }

  lemma HeaderBad(env: Env, graph: LoadedGraph, path: string)
    requires Header(env, path).None?
    ensures IsBad(env, graph, path) && forall q :: !Imports(env, path, q)
  {
  }

  lemma BodyBad(env: Env, graph: LoadedGraph, path: string)
    requires Header(env, path).None? || !BodyParses(env, path, graph)
    ensures IsBad(env, graph, path)
  {
    assert graph[..|graph|] == graph;
  }

  lemma BadIsReal(env: Env, entry: string, graph: LoadedGraph, path: string, order: seq<string>, merged: set<string>)
    requires Reaches(env, entry, path) && (Header(env, path).None? || !BodyParses(env, path, graph))
    requires GraphOk(env, {}, graph) && ImportsEarlier(graph) && OrderOk(env, entry, order, merged)
    requires forall p :: Listed(graph, p) <==> p in merged
    requires forall q :: Imports(env, path, q) ==> q in merged
    ensures ErrorIsReal(env, false, entry, BadFile(path))
  {
    hide Reaches, GraphOk, ImportsEarlier, BodyParses, Imports, Listed;
    assert LoadedBefore(env, entry, graph, path);
  }

  lemma UnresolvedIsReal(env: Env, entry: string, path: string, names: seq<string>, i: nat)
    requires Reaches(env, entry, path) && Header(env, path) == Some(names) && i < |names|
    requires Resolve(env, names[i], DirName(path)).None?
    ensures ErrorIsReal(env, false, entry, CannotResolve(names[i], path))
  {
  }

  lemma StillBad(env: Env, graph: LoadedGraph, f: LoadedFile, path: string)
    requires IsBad(env, graph, path)
    ensures IsBad(env, graph + [f], path)
  {
    if Header(env, path).Some? {
      var n :| 0 <= n <= |graph| && !BodyParses(env, path, graph[..n]);
      assert (graph + [f])[..n] == graph[..n];
    }
  }

  lemma ImportsMerged(env: Env, path: string, names: seq<string>, merged: set<string>)
    requires Header(env, path) == Some(names) && AllMerged(env, path, names, merged)
    ensures forall q :: Imports(env, path, q) ==> q in merged
  {
    hide Resolve;
  }

  lemma ImportEdge(env: Env, path: string, names: seq<string>, i: nat)
    requires Header(env, path) == Some(names) && i < |names| && Resolve(env, names[i], DirName(path)).Some?
    ensures Imports(env, path, Resolve(env, names[i], DirName(path)).value)
    ensures Resolve(env, names[i], DirName(path)).value in env.files
    ensures Resolve(env, names[i], DirName(path)).value != ""
  {
    hide Resolve;
    ResolvedPath(env, names[i], DirName(path));
    assert names[i] in names;
  }

  /** Files that fail later do not change what finished imports resolved to. */
  lemma ImportsKeep(env: Env, failed: set<string>, failed': set<string>, from: string, imports: seq<Import>,
                    names: seq<string>, merged: set<string>)
    requires ImportsAre(env, failed, from, imports, names) && AllMerged(env, from, names, merged)
    requires forall p :: p in merged ==> (p in failed <==> p in failed')
    ensures ImportsAre(env, failed', from, imports, names)
  {
    hide Resolve;
  }

  lemma ImportsNone(env: Env, failed: set<string>, from: string, merged: set<string>)
    ensures ImportsAre(env, failed, from, [], []) && AllMerged(env, from, [], merged)
  {
  }

  lemma AllMergedGrows(env: Env, from: string, names: seq<string>, merged: set<string>, merged': set<string>)
    requires AllMerged(env, from, names, merged) && merged <= merged'
    ensures AllMerged(env, from, names, merged')
  {
    hide Resolve;
  }

  /** One more import of a header is resolved. */
  lemma NextImport(env: Env, failed: set<string>, from: string, imports: seq<Import>, names: seq<string>, i: nat,
                   merged: set<string>)
    requires i < |names| && |imports| == i + 1
    requires ImportsAre(env, failed, from, imports[..i], names[..i]) && AllMerged(env, from, names[..i], merged)
    requires imports[i].path == names[i] && ResolvedTo(env, failed, from, imports[i])
    requires match Resolve(env, names[i], DirName(from)) case None => true case Some(q) => q in merged
    ensures ImportsAre(env, failed, from, imports, names[..i + 1]) && AllMerged(env, from, names[..i + 1], merged)
  {
    hide Resolve, ResolvedTo;
    assert forall k :: 0 <= k < i ==> imports[..i][k] == imports[k] && names[..i][k] == names[k];
  }

  /** A graph stays what it is when a file outside it, and outside all its imports, is left out. */
  lemma FailMore(env: Env, entry: string, failed: set<string>, graph: LoadedGraph, order: seq<string>, merged: set<string>,
                 path: string)
    requires OrderOk(env, entry, order, merged) && GraphOk(env, failed, graph) && path !in merged
    requires forall p :: Listed(graph, p) ==> p in merged
    ensures GraphOk(env, failed + {path}, graph)
  {
    hide OrderOk, Imports, ImportsAre, BodyParses;
    forall i | 0 <= i < |graph| ensures FileIs(env, failed + {path}, graph[i]) {
      var f := graph[i];
      assert Listed(graph, f.path);
      assert FileIs(env, failed, f);
      OrderImports(env, entry, order, merged, f.path);
      ImportsKeep(env, failed, failed + {path}, f.path, f.imports, Header(env, f.path).value, merged);
    }
  }

  lemma OrderImports(env: Env, entry: string, order: seq<string>, merged: set<string>, p: string)
    requires OrderOk(env, entry, order, merged) && p in merged && Header(env, p).Some?
    ensures AllMerged(env, p, Header(env, p).value, merged)
  {
    hide Resolve, Reaches;
    var names := Header(env, p).value;
    var k :| 0 <= k < |order| && order[k] == p;
    forall i | 0 <= i < |names| && Resolve(env, names[i], DirName(p)).Some?
      ensures Resolve(env, names[i], DirName(p)).value in merged
    {
      ImportEdge(env, p, names, i);
      assert Imports(env, order[k], Resolve(env, names[i], DirName(p)).value);
    }
  }

  lemma AddFile(env: Env, failed: set<string>, graph: LoadedGraph, merged: set<string>, path: string, imports: seq<Import>)
    requires GraphOk(env, failed, graph) && ImportsEarlier(graph) && path !in merged && Header(env, path).Some?
    requires forall p :: Listed(graph, p) <==> p in merged && p !in failed
    requires ImportsAre(env, failed, path, imports, Header(env, path).value) && BodyParses(env, path, graph)
    requires AllMerged(env, path, Header(env, path).value, merged)
    ensures GraphOk(env, failed, graph + [LoadedFile(path, imports)]) && ImportsEarlier(graph + [LoadedFile(path, imports)])
    ensures forall p :: Listed(graph + [LoadedFile(path, imports)], p) <==> Listed(graph, p) || p == path
  {
    var f := LoadedFile(path, imports);
    AddOk(env, failed, graph, f);
    AddEarlier(env, failed, graph, merged, f);
    AddListed(graph, f);
  }

  lemma AddOk(env: Env, failed: set<string>, graph: LoadedGraph, f: LoadedFile)
    requires GraphOk(env, failed, graph) && FileIs(env, failed, f) && BodyParses(env, f.path, graph) && !Listed(graph, f.path)
    ensures GraphOk(env, failed, graph + [f])
  {
    hide FileIs, BodyParses;
    var g := graph + [f];
    forall i | 0 <= i < |g| ensures FileIs(env, failed, g[i]) && BodyParses(env, g[i].path, g[..i]) {
      assert g[..i] == graph[..i];
      assert graph[..|graph|] == graph;
    }
    assert forall i :: 0 <= i < |graph| ==> graph[i].path != f.path;
  }

  lemma AddEarlier(env: Env, failed: set<string>, graph: LoadedGraph, merged: set<string>, f: LoadedFile)
    requires ImportsEarlier(graph) && FileIs(env, failed, f)
    requires AllMerged(env, f.path, Header(env, f.path).value, merged)
    requires forall p :: Listed(graph, p) <==> p in merged && p !in failed
    ensures ImportsEarlier(graph + [f])
  {
    hide Resolve, Listed;
    var g := graph + [f];
    forall j, k | 0 <= j < |g| && 0 <= k < |g[j].imports| && g[j].imports[k].resolvedPath != ""
      ensures Listed(g[..j], g[j].imports[k].resolvedPath)
    {
      if j < |graph| {
        assert g[..j] == graph[..j] && g[j] == graph[j];
      } else {
        assert g[..j] == graph;
        assert ResolvedTo(env, failed, f.path, f.imports[k]);
      }
    }
  }

  lemma AddListed(graph: LoadedGraph, f: LoadedFile)
    ensures forall p :: Listed(graph + [f], p) <==> Listed(graph, p) || p == f.path
  {
    var g := graph + [f];
    forall p ensures Listed(g, p) <==> Listed(graph, p) || p == f.path {
      if Listed(graph, p) {
        var i :| 0 <= i < |graph| && graph[i].path == p;
        assert g[i].path == p;
      }
      assert g[|graph|].path == f.path;
    }
  }

  /** LoadState and the graph it fills. */
  class Loading {
    const env: Env
    const perFile: bool
    const entry: string
    var merged: set<string>
    var loading: seq<string>
    var failed: set<string>
    var graph: LoadedGraph
    /** The merged files, failed ones included, in the order they were finished. */
    ghost var order: seq<string>

    ghost predicate Valid()
      reads this
    {
      && OrderOk(env, entry, order, merged)
      && LoadingOk(env, entry, loading, merged)
      && failed <= merged && (!perFile ==> failed == {})
      && (forall p :: Listed(graph, p) <==> p in merged && p !in failed)
      && GraphOk(env, failed, graph) && ImportsEarlier(graph)
      && (!perFile ==> forall f :: f in graph ==> AllResolved(f.imports))
      && forall p :: p in failed ==> IsBad(env, graph, p)
    }

    constructor (env: Env, entry: string, perFile: bool)
      ensures Valid() && this.env == env && this.perFile == perFile && this.entry == entry
      ensures loading == [] && merged == {}
    {
      this.env, this.entry, this.perFile := env, entry, perFile;
      merged, loading, failed, graph, order := {}, [], {}, [], [];
    }

    /** Only files that were not finished before have been finished since. */
    twostate predicate Grew()
      reads this
    {
      loading == old(loading) && old(merged) <= merged && forall p :: p in old(merged) ==> (p in failed <==> p in old(failed))
    }

    /** The file is left out; without per-file mode that is an error. */
    method GiveUp(path: string) returns (err: Option<LoadError>)
      requires Valid() && loading != [] && loading[|loading| - 1] == path
      requires Header(env, path).None? || !BodyParses(env, path, graph)
      requires forall q :: Imports(env, path, q) ==> q in merged
      modifies this
      ensures err.None? <==> perFile
      ensures err.Some? ==> ErrorIsReal(env, perFile, entry, err.value)
      ensures perFile ==> Valid() && loading == old(loading)[..|old(loading)| - 1]
      ensures perFile ==> merged == old(merged) + {path} && failed == old(failed) + {path}
    {
      hide OrderOk, LoadingOk, GraphOk, ImportsEarlier, IsBad, Imports, Listed, BodyParses;
      BodyBad(env, graph, path);
      PopLoading(env, entry, loading, merged);
      if !perFile { BadIsReal(env, entry, graph, path, order, merged); }
      FinishOrder(env, entry, order, merged, path);
      FailMore(env, entry, failed, graph, order, merged, path);
      loading := loading[..|loading| - 1];
      merged := merged + {path};
      order := order + [path];
      if !perFile { return Some(BadFile(path)); }
      failed := failed + {path};
      err := None;
    }

    method LoadFileInto(path: string) returns (err: Option<LoadError>)
      requires Valid() && path in env.files
      requires if loading == [] then path == entry else Imports(env, loading[|loading| - 1], path)
      modifies this
      ensures err.None? ==> Valid() && Grew() && path in merged
      ensures err.None? && path !in old(merged) && path !in failed ==> graph != [] && graph[|graph| - 1].path == path
      ensures err.Some? ==> ErrorIsReal(env, perFile, entry, err.value)
      decreases Pending(env, loading), 0
    {
      hide OrderOk, LoadingOk, GraphOk, ImportsEarlier, IsBad, Imports, Listed, ImportsAre, AllMerged, ErrorIsReal, Pending;
      if path in merged { return None; }
      if path in loading {
        ClosesCycle(env, perFile, entry, loading, merged, path);
        return Some(Cycle(loading + [path]));
      }
      PushLoading(env, entry, loading, merged, path);
      ghost var before := loading;
      loading := loading + [path];
      assert loading[..|loading| - 1] == before;
      var header := env.header(env.files[path]);
      if header.None? {
        HeaderBad(env, graph, path);
        err := GiveUp(path);
        return;
      }
      var imports;
      err, imports := LoadImports(path, header.value);
      if err.Some? { return; }
      ImportsMerged(env, path, header.value, merged);
      if !env.body(env.files[path], graph) {
        err := GiveUp(path);
        return;
      }
      Finish(path, imports);
    }

    /** The file joins the graph. */
    method Finish(path: string, imports: seq<Import>)
      requires Valid() && loading != [] && loading[|loading| - 1] == path && Header(env, path).Some?
      requires ImportsAre(env, failed, path, imports, Header(env, path).value) && BodyParses(env, path, graph)
      requires AllMerged(env, path, Header(env, path).value, merged) && (!perFile ==> AllResolved(imports))
      modifies this
      ensures Valid() && loading == old(loading)[..|old(loading)| - 1]
      ensures merged == old(merged) + {path} && failed == old(failed)
      ensures graph == old(graph) + [LoadedFile(path, imports)]
    {
      hide OrderOk, LoadingOk, GraphOk, ImportsEarlier, IsBad, Imports, Listed, ImportsAre, AllMerged, BodyParses;
      PopLoading(env, entry, loading, merged);
      AddFile(env, failed, graph, merged, path, imports);
      forall p | p in failed ensures IsBad(env, graph + [LoadedFile(path, imports)], p) {
        StillBad(env, graph, LoadedFile(path, imports), p);
      }
      ImportsMerged(env, path, Header(env, path).value, merged);
      FinishOrder(env, entry, order, merged, path);
      graph := graph + [LoadedFile(path, imports)];
      loading := loading[..|loading| - 1];
      merged := merged + {path};
      order := order + [path];
    }

    /** The loop over a header's imports. */
    method LoadImports(path: string, names: seq<string>) returns (err: Option<LoadError>, imports: seq<Import>)
      requires Valid() && loading != [] && loading[|loading| - 1] == path && Header(env, path) == Some(names)
      modifies this
      ensures err.None? ==> Valid() && Grew() && ImportsAre(env, failed, path, imports, names)
      ensures err.None? ==> AllMerged(env, path, names, merged) && (!perFile ==> AllResolved(imports))
      ensures err.Some? ==> ErrorIsReal(env, perFile, entry, err.value)
      decreases Pending(env, loading), 2
    {
      hide OrderOk, LoadingOk, GraphOk, ImportsEarlier, IsBad, Imports, Listed, ResolvedTo, ImportsAre, AllMerged, Resolve;
      ImportsNone(env, failed, path, merged);
      err, imports := None, [];
      for i := 0 to |names|
        invariant err.None? && Valid() && Grew() && |imports| == i && (!perFile ==> AllResolved(imports))
        invariant ImportsAre(env, failed, path, imports, names[..i])
        invariant AllMerged(env, path, names[..i], merged)
      {
        ghost var before, wasMerged, wasFailed := imports, merged, failed;
        var next;
        err, next := LoadImport(path, names, i);
        if err.Some? { return; }
        imports := imports + [next];
        assert imports[..i] == before;
        ImportsKeep(env, wasFailed, failed, path, before, names[..i], wasMerged);
        AllMergedGrows(env, path, names[..i], wasMerged, merged);
        NextImport(env, failed, path, imports, names, i, merged);
      }
      assert names[..|names|] == names;
    }

    /** One turn of that loop. */
    method LoadImport(path: string, ghost names: seq<string>, i: nat) returns (err: Option<LoadError>, next: Import)
      requires Valid() && loading != [] && loading[|loading| - 1] == path && Header(env, path) == Some(names) && i < |names|
      modifies this
      ensures err.None? ==> Valid() && Grew() && next.path == names[i] && ResolvedTo(env, failed, path, next)
      ensures err.None? && !perFile ==> next.resolvedPath != ""
      ensures err.None? ==> match Resolve(env, names[i], DirName(path)) case None => true case Some(q) => q in merged
      ensures err.Some? ==> ErrorIsReal(env, perFile, entry, err.value)
      decreases Pending(env, loading), 1
    {
      hide OrderOk, LoadingOk, GraphOk, ImportsEarlier, IsBad, Imports, Listed, Resolve, DirName, ErrorIsReal;
      var imp := Header(env, path).value[i];
      var resolved := ResolveImport(env, imp, DirName(path));
      next := Import(imp, "");
      err := None;
      if resolved.None? {
        if !perFile {
          PopLoading(env, entry, loading, merged);
          UnresolvedIsReal(env, entry, path, names, i);
          err := Some(CannotResolve(imp, path));
        }
      } else {
        ImportEdge(env, path, names, i);
        err := LoadFileInto(resolved.value);
        next := Import(imp, if resolved.value in failed then "" else resolved.value);
      }
    }
  }

  // ----- the whole load -----

  datatype LoadResult =
    | Loaded(graph: LoadedGraph, entryLoaded: bool)
    | Failed(error: LoadError)

  /** Finished files are exactly the reached ones, and no chain from the entry is a cycle. */
  lemma AllReached(env: Env, entry: string, order: seq<string>, merged: set<string>)
    requires OrderOk(env, entry, order, merged) && entry in merged
    ensures forall p :: p in merged <==> Reaches(env, entry, p)
    ensures forall s :: !CycleFrom(env, entry, s)
  {
    hide Imports, ImportsFirst, Chain;
    forall p | Reaches(env, entry, p) ensures p in merged {
      var s: seq<string> :| s != [] && s[0] == entry && s[|s| - 1] == p && Chain(env, s);
      var k :| 0 <= k < |order| && order[k] == entry;
      var m := ChainsGoBack(env, order, s, k);
    }
    forall s ensures !CycleFrom(env, entry, s) { NoCycleIn(env, order, s, entry); }
  }

  /**
    LoadModuleGraph. A returned graph holds the files reached from the entry but for those left
    out as bad, each once and after what it imports, and the entry last if it is there at all.
    Without per-file mode nothing is left out. In per-file mode the one thing that still ends
    loading is an import cycle, reported exactly when there is one.
   */
  method LoadModuleGraph(env: Env, entryPath: string, perFile: bool) returns (r: LoadResult, ghost bad: set<string>)
    ensures r == Failed(CannotOpen) <==> Normalized(entryPath) !in env.files
    ensures r.Failed? ==> ErrorIsReal(env, perFile, Normalized(entryPath), r.error)
    ensures r.Loaded? ==> GraphOk(env, bad, r.graph) && ImportsEarlier(r.graph)
    ensures r.Loaded? ==> forall p :: Listed(r.graph, p) <==> Reaches(env, Normalized(entryPath), p) && p !in bad
    ensures r.Loaded? ==> forall p :: p in bad ==> IsBad(env, r.graph, p)
    ensures r.Loaded? && !perFile ==> bad == {} && forall f :: f in r.graph ==> AllResolved(f.imports)
    ensures r.Loaded? ==> (r.entryLoaded <==> Normalized(entryPath) !in bad)
    ensures r.Loaded? && r.entryLoaded ==> r.graph != [] && r.graph[|r.graph| - 1].path == Normalized(entryPath)
    ensures r.Loaded? ==> forall s :: !CycleFrom(env, Normalized(entryPath), s)
    ensures perFile && Normalized(entryPath) in env.files ==>
      (r.Failed? <==> exists s :: CycleFrom(env, Normalized(entryPath), s))
  {
    hide Normalized, LoadingOk, OrderOk, GraphOk, ImportsEarlier, IsBad, Reaches, CycleFrom;
    bad := {};
    var entry := NormalizePath(entryPath);
    if entry !in env.files { return Failed(CannotOpen), {}; }
    var state := new Loading(env, entry, perFile);
    var err := state.LoadFileInto(entry);
    if err.Some? { return Failed(err.value), {}; }
    AllReached(env, entry, state.order, state.merged);
    bad := state.failed;
    var graph := state.graph;
    var entryLoaded := graph != [] && graph[|graph| - 1].path == entry;
    assert entryLoaded ==> Listed(graph, entry);
    r := Loaded(graph, entryLoaded);
  }
}
