/** Loading a configuration file with its imports. The chain of files being loaded
    is the only guard against import cycles; it finds every reachable cycle and
    nothing else, and where it is silent loading is plain recursion. */
module Loader {
  import opened Codec
  import opened Digraph
  import Merge

  type Path = string

  /** A file's content, when it can be read: a document, or text that does not parse. */
  datatype File = Garbled | Document(tree: Tree)

  /** Where an import leads. */
  datatype Resolution = NotYaml | Unresolvable | To(path: Path)

  /** The files by canonical path, and how an import is resolved against a path. */
  datatype Disk = Disk(files: map<Path, File>, resolve: (Path, string) -> Resolution)

  datatype Failure =
    | Circular(names: seq<Path>)
    | CannotRead(path: Path)
    | CannotParse(path: Path)
    | ImportNotYaml(name: string)
    | ImportUnresolvable(name: string)

  datatype Loaded<+T> = Done(value: T) | Failed(failure: Failure)

  /** The string entries of a top-level imports array. */
  function ImportList(tree: Tree): seq<string> {
    var raw := Lookup(tree, "imports");
    if raw.Some? && raw.value.Arr? then Strings(raw.value.items) else []
  }

  function Strings(ts: seq<Tree>): seq<string> {
    if ts == [] then [] else (if ts[0].Str? then [ts[0].s] else []) + Strings(ts[1..])
  }

  ghost predicate Chain(d: Disk, chain: seq<Path>) {
    NoRepeats(chain) && forall i | 0 <= i < |chain| :: chain[i] in d.files
  }

  lemma {:induction false} ChainFits(d: Disk, chain: seq<Path>)
    requires Chain(d, chain)
    ensures |chain| <= |d.files|
  {
    StackFits(chain, d.files.Keys);
  }

  /** Loading path under a chain; base is what its imports are resolved against. */
  function Load(d: Disk, chain: seq<Path>, path: Path, base: Path): Loaded<Tree>
    requires Chain(d, chain)
    decreases |d.files| - |chain|, 0, 0
  {
    if path in chain then Failed(Circular(chain + [path]))
    else if path !in d.files then Failed(CannotRead(path))
    else
      ChainFits(d, chain + [path]);
      LoadParsed(d, chain + [path], base, d.files[path], path)
  }

  /** One import, resolved and then loaded. */
  function LoadImport(d: Disk, chain: seq<Path>, base: Path, name: string): Loaded<Tree>
    requires Chain(d, chain)
    decreases |d.files| - |chain|, 1, 0
  {
    match d.resolve(base, name)
    case NotYaml => Failed(ImportNotYaml(name))
    case Unresolvable => Failed(ImportUnresolvable(name))
    case To(p) => Load(d, chain, p, p)
  }

  /** The imports from the k-th on, in order. */
  function LoadAll(d: Disk, chain: seq<Path>, base: Path, imports: seq<string>, k: nat): (r: Loaded<seq<Tree>>)
    requires Chain(d, chain) && k <= |imports|
    decreases |d.files| - |chain|, 2, |imports| - k
  {
    if k == |imports| then Done([])
    else
      var first := LoadImport(d, chain, base, imports[k]);
      if first.Failed? then Failed(first.failure)
      else
        var rest := LoadAll(d, chain, base, imports, k + 1);
        if rest.Failed? then rest else Done([first.value] + rest.value)
  }

  /** One parsed file under a chain that ends in it: its imports, then itself on
      top. */
  function LoadParsed(d: Disk, chain: seq<Path>, base: Path, file: File, path: Path): Loaded<Tree>
    requires Chain(d, chain)
    decreases |d.files| - |chain|, 3, 0
  {
    if file.Garbled? then Failed(CannotParse(path))
    else
      var imported := LoadAll(d, chain, base, ImportList(file.tree), 0);
      if imported.Failed? then Failed(imported.failure)
      else Done(Merge.Fold(Merge.EMPTY, imported.value + [file.tree]))
  }

  // ----- as the program runs it -----

  class Session {
    const disk: Disk
    var chain: seq<Path>

    constructor (disk: Disk)
      ensures this.disk == disk && chain == []
    {
      this.disk, chain := disk, [];
    }

    /** The main file. The chain is left as it was on success. */
    method LoadMerged(path: Path, importBase: Path) returns (r: Loaded<Tree>)
      requires Chain(disk, chain)
      modifies this
      ensures r == Load(disk, old(chain), path, importBase)
      ensures r.Done? ==> chain == old(chain)
    {
      if path in chain {
        return Failed(Circular(chain + [path]));
      }
      if path !in disk.files {
        chain := chain + [path];
        return Failed(CannotRead(path));
      }
      chain := chain + [path];
      ChainFits(disk, chain);
      r := MergeWithImports(path, importBase);
      if r.Failed? {
        return;
      }
      chain := chain[..|chain| - 1];
    }

    /** One file that has just joined the chain. */
    method MergeWithImports(path: Path, importBase: Path) returns (r: Loaded<Tree>)
      requires Chain(disk, chain) && path in disk.files
      modifies this
      ensures chain == old(chain)
      ensures r == LoadParsed(disk, chain, importBase, disk.files[path], path)
      decreases |disk.files| - |chain|, 2
    {
      if disk.files[path].Garbled? {
        return Failed(CannotParse(path));
      }
      var main := disk.files[path].tree;
      var imports := ImportList(main);
      var imported: seq<Tree> := [];
      ghost var all := LoadAll(disk, chain, importBase, imports, 0);
      var k := 0;
      while k < |imports|
        invariant k <= |imports| && chain == old(chain)
        invariant all.Failed? <==> LoadAll(disk, chain, importBase, imports, k).Failed?
        invariant all.Failed? ==> all == LoadAll(disk, chain, importBase, imports, k)
        invariant all.Done? ==> all.value == imported + LoadAll(disk, chain, importBase, imports, k).value
      {
        var tree := ImportOne(importBase, imports[k]);
        if tree.Failed? {
          return Failed(tree.failure);
        }
        imported := imported + [tree.value];
        k := k + 1;
      }
      assert imported + LoadAll(disk, chain, importBase, imports, k).value == imported;
      var merged := Merge.MergeAll(imported, main);
      return Done(merged);
    }

    method ImportOne(importBase: Path, name: string) returns (r: Loaded<Tree>)
      requires Chain(disk, chain)
      modifies this
      ensures chain == old(chain)
      ensures r == LoadImport(disk, chain, importBase, name)
      decreases |disk.files| - |chain|, 1
    {
      var resolved := disk.resolve(importBase, name);
      match resolved {
        case NotYaml => return Failed(ImportNotYaml(name));
        case Unresolvable => return Failed(ImportUnresolvable(name));
        case To(path) => r := LoadCanonical(path);
      }
    }

    /** The chain is left as it was in every case. */
    method LoadCanonical(path: Path) returns (r: Loaded<Tree>)
      requires Chain(disk, chain)
      modifies this
      ensures chain == old(chain)
      ensures r == Load(disk, chain, path, path)
      decreases |disk.files| - |chain|, 0
    {
      if path in chain {
        return Failed(Circular(chain + [path]));
      }
      if path !in disk.files {
        return Failed(CannotRead(path));
      }
      chain := chain + [path];
      ChainFits(disk, chain);
      r := MergeWithImports(path, path);
      chain := chain[..|chain| - 1];
    }
  }

  // ----- the import graph -----

  /** What a file's imports are resolved against: the main file's, against the path
      it was given as; any other's, against its own. */
  function BaseOf(main: Path, mainBase: Path, path: Path): Path {
    if path == main then mainBase else path
  }

  function Targets(d: Disk, base: Path, imports: seq<string>): set<Path> {
    set k | 0 <= k < |imports| && d.resolve(base, imports[k]).To? :: d.resolve(base, imports[k]).path
  }

  function ImportsOf(d: Disk, path: Path): seq<string> {
    if path in d.files && d.files[path].Document? then ImportList(d.files[path].tree) else []
  }

  function ImportGraph(d: Disk, main: Path, mainBase: Path): Graph<Path> {
    map p | p in d.files :: Targets(d, BaseOf(main, mainBase, p), ImportsOf(d, p))
  }

  /** Every file parses and every import leads to a file. */
  ghost predicate Sound(d: Disk, main: Path, mainBase: Path) {
    forall p | p in d.files ::
      && d.files[p].Document?
      && forall k | 0 <= k < |ImportsOf(d, p)| ::
           var to := d.resolve(BaseOf(main, mainBase, p), ImportsOf(d, p)[k]);
           to.To? && to.path in d.files
  }

  lemma {:induction false} SoundIsClosed(d: Disk, main: Path, mainBase: Path)
    requires Sound(d, main, mainBase)
    ensures Closed(ImportGraph(d, main, mainBase))
  {
  }

  /** Each file imports the next. */
  ghost predicate Linked(g: Graph<Path>, p: seq<Path>) {
    forall i | 0 <= i < |p| - 1 :: p[i] in g && p[i + 1] in g[p[i]]
  }

  /** The file being loaded, and the chain above it, as loading reaches them. */
  ghost predicate Reached(d: Disk, main: Path, mainBase: Path, chain: seq<Path>, path: Path) {
    var g := ImportGraph(d, main, mainBase);
    && Sound(d, main, mainBase) && Chain(d, chain) && path in d.files
    && (chain + [path])[0] == main && Linked(g, chain + [path])
    && forall c | c in chain :: Reaches(g, c, path)
  }

  /** The k-th import of a file is an edge of the graph. */
  ghost function ImportEdge(d: Disk, main: Path, mainBase: Path, path: Path, k: nat): (to: Path)
    requires Sound(d, main, mainBase) && path in d.files && k < |ImportsOf(d, path)|
    ensures d.resolve(BaseOf(main, mainBase, path), ImportsOf(d, path)[k]) == To(to)
    ensures to in d.files && to in ImportGraph(d, main, mainBase)[path]
  {
    d.resolve(BaseOf(main, mainBase, path), ImportsOf(d, path)[k]).path
  }

  // ----- cycles -----

  /** Where no cycle can be reached loading succeeds, and is the plain recursion. */
  ghost function PlainLoad(d: Disk, main: Path, mainBase: Path, path: Path): Tree
    requires Sound(d, main, mainBase) && path in d.files && AcyclicFrom(ImportGraph(d, main, mainBase), path)
    decreases |Reach(ImportGraph(d, main, mainBase), path)|, 2, 0
  {
    Merge.Fold(Merge.EMPTY, PlainImports(d, main, mainBase, path) + [d.files[path].tree])
  }

  ghost function PlainImports(d: Disk, main: Path, mainBase: Path, path: Path): seq<Tree>
    requires Sound(d, main, mainBase) && path in d.files && AcyclicFrom(ImportGraph(d, main, mainBase), path)
    decreases |Reach(ImportGraph(d, main, mainBase), path)|, 1, 0
  {
    seq(|ImportsOf(d, path)|, k requires 0 <= k < |ImportsOf(d, path)| => PlainImport(d, main, mainBase, path, k))
  }

  ghost function PlainImport(d: Disk, main: Path, mainBase: Path, path: Path, k: nat): Tree
    requires Sound(d, main, mainBase) && path in d.files && AcyclicFrom(ImportGraph(d, main, mainBase), path)
    requires k < |ImportsOf(d, path)|
    decreases |Reach(ImportGraph(d, main, mainBase), path)|, 0, 0
  {
    var to := ImportEdge(d, main, mainBase, path, k);
    SoundIsClosed(d, main, mainBase);
    Descend(ImportGraph(d, main, mainBase), path, to);
    PlainLoad(d, main, mainBase, to)
  }

  /** From path there is no way back to the chain above it. */
  ghost predicate NoWayBack(g: Graph<Path>, chain: seq<Path>, path: Path) {
    forall c | c in chain :: c != path && !Reaches(g, path, c)
  }

  lemma {:induction false} AcyclicLoads(d: Disk, main: Path, mainBase: Path, chain: seq<Path>, path: Path)
    requires Reached(d, main, mainBase, chain, path) && AcyclicFrom(ImportGraph(d, main, mainBase), path)
    requires NoWayBack(ImportGraph(d, main, mainBase), chain, path)
    ensures Load(d, chain, path, BaseOf(main, mainBase, path)) == Done(PlainLoad(d, main, mainBase, path))
    decreases |Reach(ImportGraph(d, main, mainBase), path)|, 1
  {
    ChainFits(d, chain + [path]);
    var imports, base := ImportsOf(d, path), BaseOf(main, mainBase, path);
    var trees := PlainImports(d, main, mainBase, path);
    forall k | 0 <= k < |imports|
      ensures LoadImport(d, chain + [path], base, imports[k]) == Done(trees[k])
    {
      AcyclicImport(d, main, mainBase, chain, path, k);
    }
    AllDone(d, chain + [path], base, imports, trees, 0);
    assert trees[0..] == trees;
  }

  lemma {:induction false} AcyclicImport(d: Disk, main: Path, mainBase: Path, chain: seq<Path>, path: Path, k: nat)
    requires Reached(d, main, mainBase, chain, path) && AcyclicFrom(ImportGraph(d, main, mainBase), path)
    requires NoWayBack(ImportGraph(d, main, mainBase), chain, path)
    requires k < |ImportsOf(d, path)| && Chain(d, chain + [path])
    ensures LoadImport(d, chain + [path], BaseOf(main, mainBase, path), ImportsOf(d, path)[k]) ==
            Done(PlainImport(d, main, mainBase, path, k))
    decreases |Reach(ImportGraph(d, main, mainBase), path)|, 0
  {
    var to := ImportEdge(d, main, mainBase, path, k);
    SoundIsClosed(d, main, mainBase);
    Descend(ImportGraph(d, main, mainBase), path, to);
    StepDown(d, main, mainBase, chain, path, to);
    AcyclicLoads(d, main, mainBase, chain + [path], to);
  }

  lemma {:induction false} AllDone(d: Disk, chain: seq<Path>, base: Path, imports: seq<string>, trees: seq<Tree>,
        k: nat)
    requires Chain(d, chain) && k <= |imports| == |trees|
    requires forall i | k <= i < |imports| :: LoadImport(d, chain, base, imports[i]) == Done(trees[i])
    ensures LoadAll(d, chain, base, imports, k) == Done(trees[k..])
    decreases |imports| - k
  {
    if k < |imports| {
      assert trees[k..] == [trees[k]] + trees[k + 1..];
      AllDone(d, chain, base, imports, trees, k + 1);
    }
  }

  /** An import of the file being loaded is reached under the longer chain, from
      which on an acyclic graph there is no way back. */
  lemma {:induction false} StepDown(d: Disk, main: Path, mainBase: Path, chain: seq<Path>, path: Path, to: Path)
    requires Reached(d, main, mainBase, chain, path)
    requires to in ImportGraph(d, main, mainBase)[path] && path !in chain
    ensures Reached(d, main, mainBase, chain + [path], to)
    ensures BaseOf(main, mainBase, to) == to || to in chain + [path]
    ensures
      var g := ImportGraph(d, main, mainBase);
      AcyclicFrom(g, path) && NoWayBack(g, chain, path) ==> NoWayBack(g, chain + [path], to)
  {
    var g := ImportGraph(d, main, mainBase);
    EdgeReaches(g, path, to);
    LinkedOn(g, chain + [path], to);
    forall c | c in chain ensures Reaches(g, c, to) {
      ReachesTransitive(g, c, path, to);
    }
    if AcyclicFrom(g, path) && NoWayBack(g, chain, path) {
      StillNoWayBack(g, chain, path, to);
    }
  }

  lemma {:induction false} StillNoWayBack(g: Graph<Path>, chain: seq<Path>, path: Path, to: Path)
    requires AcyclicFrom(g, path) && NoWayBack(g, chain, path) && path in g && to in g[path] && Reaches(g, path, to)
    ensures NoWayBack(g, chain + [path], to)
  {
    forall c | c in chain + [path] ensures !Reaches(g, to, c) && c != to {
      if Reaches(g, to, c) {
        ReachesTransitive(g, path, to, c);
      }
    }
  }

  lemma {:induction false} LinkedOn(g: Graph<Path>, p: seq<Path>, to: Path)
    requires Linked(g, p) && p != [] && p[|p| - 1] in g && to in g[p[|p| - 1]]
    ensures Linked(g, p + [to])
  {
  }

  /** Where loading succeeds no cycle can be reached, nor the chain. */
  lemma {:induction false} LoadedAcyclic(d: Disk, main: Path, mainBase: Path, chain: seq<Path>, path: Path, v: Path)
    requires Reached(d, main, mainBase, chain, path)
    requires Load(d, chain, path, BaseOf(main, mainBase, path)).Done?
    requires v == path || Reaches(ImportGraph(d, main, mainBase), path, v)
    ensures !Reaches(ImportGraph(d, main, mainBase), v, v) && v !in chain
    decreases |d.files| - |chain|
  {
    var g := ImportGraph(d, main, mainBase);
    ChainFits(d, chain + [path]);
    if Reaches(g, path, v) {
      var to := FirstStep(g, path, v);
      StepDown(d, main, mainBase, chain, path, to);
      ImportLoaded(d, main, mainBase, chain, path, to);
      LoadedAcyclic(d, main, mainBase, chain + [path], to, v);
    }
  }

  lemma {:induction false} ImportLoaded(d: Disk, main: Path, mainBase: Path, chain: seq<Path>, path: Path, to: Path)
    requires Reached(d, main, mainBase, chain, path)
    requires Load(d, chain, path, BaseOf(main, mainBase, path)).Done?
    requires to in ImportGraph(d, main, mainBase)[path]
    ensures path !in chain && Chain(d, chain + [path])
    ensures to !in chain + [path] && Load(d, chain + [path], to, to).Done?
  {
    var imports, base := ImportsOf(d, path), BaseOf(main, mainBase, path);
    var k :| 0 <= k < |imports| && d.resolve(base, imports[k]) == To(to);
    LoadedOne(d, chain + [path], base, imports, 0, k);
  }

  lemma {:induction false} LoadedOne(d: Disk, chain: seq<Path>, base: Path, imports: seq<string>, i: nat, k: nat)
    requires Chain(d, chain) && i <= k < |imports| && LoadAll(d, chain, base, imports, i).Done?
    requires d.resolve(base, imports[k]).To?
    ensures Load(d, chain, d.resolve(base, imports[k]).path, d.resolve(base, imports[k]).path).Done?
    decreases k - i
  {
    if i < k {
      LoadedOne(d, chain, base, imports, i + 1, k);
    }
  }

  /** A failure that names a cycle: a walk of the import graph from the main file to
      a file it has already met. */
  ghost predicate FailsCircular<T>(g: Graph<Path>, main: Path, r: Loaded<T>) {
    r.Failed? ==>
      && r.failure.Circular?
      && var names := r.failure.names;
      && Walk(g, names) && names[0] == main
      && names[|names| - 1] in names[..|names| - 1]
  }

  /** When files parse and imports lead to files, the only failure is a circular
      import, and it names a cycle. */
  lemma {:induction false} OnlyCircular(d: Disk, main: Path, mainBase: Path, chain: seq<Path>, path: Path)
    requires Reached(d, main, mainBase, chain, path)
    ensures FailsCircular(ImportGraph(d, main, mainBase), main, Load(d, chain, path, BaseOf(main, mainBase, path)))
    decreases |d.files| - |chain|, 1
  {
    var g := ImportGraph(d, main, mainBase);
    if path in chain {
      var names := chain + [path];
      assert names[..|names| - 1] == chain;
    } else {
      ChainFits(d, chain + [path]);
      var imports, base := ImportsOf(d, path), BaseOf(main, mainBase, path);
      forall k | 0 <= k < |imports|
        ensures FailsCircular(g, main, LoadImport(d, chain + [path], base, imports[k]))
      {
        OnlyCircularImport(d, main, mainBase, chain, path, k);
      }
      AllCircular(d, g, main, chain + [path], base, imports, 0);
    }
  }

  lemma {:induction false} OnlyCircularImport(d: Disk, main: Path, mainBase: Path, chain: seq<Path>, path: Path, k: nat)
    requires Reached(d, main, mainBase, chain, path) && path !in chain && k < |ImportsOf(d, path)|
    requires |chain| < |d.files| && Chain(d, chain + [path])
    ensures FailsCircular(ImportGraph(d, main, mainBase), main,
              LoadImport(d, chain + [path], BaseOf(main, mainBase, path), ImportsOf(d, path)[k]))
    decreases |d.files| - |chain|, 0
  {
    var to := ImportEdge(d, main, mainBase, path, k);
    StepDown(d, main, mainBase, chain, path, to);
    assert to == main ==> to in chain + [path] by {
      assert (chain + [path])[0] == main;
    }
    OnlyCircular(d, main, mainBase, chain + [path], to);
  }

  lemma {:induction false} AllCircular(d: Disk, g: Graph<Path>, main: Path, chain: seq<Path>, base: Path,
                                       imports: seq<string>, k: nat)
    requires Chain(d, chain) && k <= |imports|
    requires forall i | k <= i < |imports| :: FailsCircular(g, main, LoadImport(d, chain, base, imports[i]))
    ensures FailsCircular(g, main, LoadAll(d, chain, base, imports, k))
    decreases |imports| - k
  {
    if k < |imports| {
      AllCircular(d, g, main, chain, base, imports, k + 1);
    }
  }

  /** On files that parse, with imports that lead to files: loading the main file
      fails exactly when a cycle can be reached from it, then always with the
      circular import error naming one, and otherwise yields the plain recursive merge -
      diamonds included. */
  lemma {:induction false} LoadsIffAcyclic(d: Disk, main: Path, mainBase: Path)
    requires Sound(d, main, mainBase) && main in d.files
    ensures
      var r := Load(d, [], main, mainBase);
      && (r.Done? <==> AcyclicFrom(ImportGraph(d, main, mainBase), main))
      && FailsCircular(ImportGraph(d, main, mainBase), main, r)
      && (r.Done? ==>
            AcyclicFrom(ImportGraph(d, main, mainBase), main) && r.value == PlainLoad(d, main, mainBase, main))
  {
    var g := ImportGraph(d, main, mainBase);
    OnlyCircular(d, main, mainBase, [], main);
    if Load(d, [], main, mainBase).Done? {
      LoadedAcyclic(d, main, mainBase, [], main, main);
      forall v | v in g && Reaches(g, main, v) ensures !Reaches(g, v, v) {
        LoadedAcyclic(d, main, mainBase, [], main, v);
      }
    }
    if AcyclicFrom(g, main) {
      AcyclicLoads(d, main, mainBase, [], main);
    }
  }
}
