/** Which imports a document lists, and what a loaded document says because of them:
    the file's own word, else that of the last of its imports, in the order in which
    the file lists them, that says anything. */
module Imports {
  import opened Codec
  import opened Loader
  import Merge

  /** The top-level imports array; empty when there is none. */
  function ImportsArray(tree: Tree): seq<Tree> {
    if IsTable(tree) && "imports" in tree.vals && tree.vals["imports"].Arr? then tree.vals["imports"].items else []
  }

  /** names are the strings of the array, each at its place: at[k] is where the k-th
      of them stands, and no other string is there. */
  ghost predicate Listed(list: seq<Tree>, names: seq<string>, at: seq<nat>) {
    && |at| == |names|
    && (forall k | 0 <= k < |at| :: at[k] < |list| && list[at[k]] == Str(names[k]))
    && (forall j, k | 0 <= j < k < |at| :: at[j] < at[k])
    && forall i: nat | i < |list| && list[i].Str? :: i in at
  }

  /** A file's imports are the strings of its imports array, in their order. */
  lemma {:induction false} ImportsListed(tree: Tree) returns (at: seq<nat>)
    ensures Listed(ImportsArray(tree), ImportList(tree), at)
  {
    at := StringsListed(ImportsArray(tree));
  }

  lemma {:induction false} StringsListed(list: seq<Tree>) returns (at: seq<nat>)
    ensures Listed(list, Strings(list), at)
    decreases list
  {
    if list == [] {
      at := [];
    } else {
      var rest := StringsListed(list[1..]);
      at := Shifted(rest);
      if list[0].Str? {
        at := [0] + at;
      }
      ListedFirst(list, rest, at);
    }
  }

  function Shifted(at: seq<nat>): (r: seq<nat>)
    ensures |r| == |at| && forall k | 0 <= k < |at| :: r[k] == at[k] + 1
  {
    seq(|at|, k requires 0 <= k < |at| => at[k] + 1)
  }

  lemma {:induction false} ListedFirst(list: seq<Tree>, rest: seq<nat>, at: seq<nat>)
    requires list != [] && Listed(list[1..], Strings(list[1..]), rest)
    requires at == if list[0].Str? then [0] + Shifted(rest) else Shifted(rest)
    ensures Listed(list, Strings(list), at)
  {
    var names, more := Strings(list), Strings(list[1..]);
    ShiftedListed(list, more, rest);
    if list[0].Str? {
      assert names == [list[0].s] + more;
      FirstListed(list, more, Shifted(rest));
    } else {
      assert names == more;
    }
  }

  /** The strings after the first entry, at their places in the whole. */
  ghost predicate ListedAfter(list: seq<Tree>, names: seq<string>, at: seq<nat>) {
    && |at| == |names|
    && (forall k | 0 <= k < |at| :: 0 < at[k] < |list| && list[at[k]] == Str(names[k]))
    && (forall j, k | 0 <= j < k < |at| :: at[j] < at[k])
    && forall i: nat | 0 < i < |list| && list[i].Str? :: i in at
  }

  lemma {:induction false} ShiftedListed(list: seq<Tree>, names: seq<string>, rest: seq<nat>)
    requires list != [] && Listed(list[1..], names, rest)
    ensures ListedAfter(list, names, Shifted(rest))
  {
    var at := Shifted(rest);
    forall k | 0 <= k < |at| ensures 0 < at[k] < |list| && list[at[k]] == Str(names[k]) {
      assert list[1..][rest[k]] == list[rest[k] + 1];
    }
    forall i: nat | 0 < i < |list| && list[i].Str? ensures i in at {
      assert list[1..][i - 1] == list[i];
      var k :| 0 <= k < |rest| && rest[k] == i - 1;
      assert at[k] == i;
    }
  }

  lemma {:induction false} FirstListed(list: seq<Tree>, names: seq<string>, at: seq<nat>)
    requires list != [] && list[0].Str? && ListedAfter(list, names, at)
    ensures Listed(list, [list[0].s] + names, [0] + at)
  {
    var all, every := [list[0].s] + names, [0] + at;
    assert forall k | 1 <= k < |every| :: every[k] == at[k - 1] && all[k] == names[k - 1];
    forall i: nat | i < |list| && list[i].Str? ensures i in every {
      assert i > 0 ==> i in at;
    }
  }

  // ----- the documents imported -----

  lemma {:induction false} ImportedAre(d: Disk, chain: seq<Path>, base: Path, imports: seq<string>, k: nat)
    requires Chain(d, chain) && k <= |imports| && LoadAll(d, chain, base, imports, k).Done?
    ensures
      var docs := LoadAll(d, chain, base, imports, k).value;
      && |docs| == |imports| - k
      && forall n | k <= n < |imports| :: LoadImport(d, chain, base, imports[n]) == Done(docs[n - k])
    decreases |imports| - k
  {
    if k < |imports| {
      ImportedAre(d, chain, base, imports, k + 1);
    }
  }

  /** The entry at position i of the array is an import whose document says v at a
      path, and no import listed after it says anything there. */
  ghost predicate LastImportSays(d: Disk, chain: seq<Path>, base: Path, list: seq<Tree>, path: seq<string>, v: Tree,
                                 i: nat)
    requires Chain(d, chain)
  {
    && i < |list| && list[i].Str? && SaysAt(d, chain, base, list[i].s, path, v)
    && forall j | i < j < |list| && list[j].Str? :: SilentAt(d, chain, base, list[j].s, path)
  }

  ghost predicate SaysAt(d: Disk, chain: seq<Path>, base: Path, name: string, path: seq<string>, v: Tree)
    requires Chain(d, chain)
  {
    var doc := LoadImport(d, chain, base, name);
    doc.Done? && Merge.At(doc.value, path) == Merge.Says(v)
  }

  ghost predicate SilentAt(d: Disk, chain: seq<Path>, base: Path, name: string, path: seq<string>)
    requires Chain(d, chain)
  {
    var doc := LoadImport(d, chain, base, name);
    doc.Done? && Merge.At(doc.value, path).Silent?
  }

  /** A file that loads, and a value that is no table: it stands at a path if and only
      if the file says it there, or the file is silent there and the last import, in
      the order of the imports array, that is not silent there says it. */
  lemma {:induction false} LoadedSays(d: Disk, chain: seq<Path>, main: Path, base: Path, path: seq<string>, v: Tree)
    requires Chain(d, chain) && path != [] && !v.Dict? && Load(d, chain, main, base).Done?
    ensures main in d.files && d.files[main].Document? && Chain(d, chain + [main])
    ensures
      var tree, loaded := d.files[main].tree, Load(d, chain, main, base).value;
      Merge.At(loaded, path) == Merge.Says(v) <==>
      || Merge.At(tree, path) == Merge.Says(v)
      || (Merge.At(tree, path).Silent? &&
          exists i: nat :: LastImportSays(d, chain + [main], base, ImportsArray(tree), path, v, i))
  {
    var tree, on := d.files[main].tree, chain + [main];
    var docs := LoadedParts(d, chain, main, base);
    var at := ImportsListed(tree);
    Merge.LastWins(docs + [tree], path, v);
    MainOrImports(docs, tree, path, v);
    LastOfArray(d, on, base, ImportsArray(tree), ImportList(tree), at, docs, path, v);
  }

  /** A file that loads is its imports' documents with its own on top. */
  lemma {:induction false} LoadedParts(d: Disk, chain: seq<Path>, main: Path, base: Path) returns (docs: seq<Tree>)
    requires Chain(d, chain) && Load(d, chain, main, base).Done?
    ensures main in d.files && d.files[main].Document? && Chain(d, chain + [main])
    ensures
      var tree := d.files[main].tree;
      var names := ImportList(tree);
      && Load(d, chain, main, base).value == Merge.Fold(Merge.EMPTY, docs + [tree]) && |docs| == |names|
      && forall n | 0 <= n < |names| :: LoadImport(d, chain + [main], base, names[n]) == Done(docs[n])
  {
    var names := ImportList(d.files[main].tree);
    docs := LoadAll(d, chain + [main], base, names, 0).value;
    ImportedAre(d, chain + [main], base, names, 0);
  }

  /** The last document is the file itself, those before it are its imports. */
  lemma {:induction false} MainOrImports(docs: seq<Tree>, tree: Tree, path: seq<string>, v: Tree)
    ensures (exists n :: Merge.LastSays(docs + [tree], path, v, n)) <==>
            || Merge.At(tree, path) == Merge.Says(v)
            || (Merge.At(tree, path).Silent? && exists n :: Merge.LastSays(docs, path, v, n))
  {
    var all := docs + [tree];
    assert all[|docs|] == tree && forall k | 0 <= k < |docs| :: all[k] == docs[k];
    if n :| Merge.LastSays(all, path, v, n) {
      if n < |docs| {
        assert Merge.At(all[|docs|], path).Silent?;
        assert Merge.LastSays(docs, path, v, n);
      }
    }
    if Merge.At(tree, path) == Merge.Says(v) {
      assert Merge.LastSays(all, path, v, |docs|);
    }
    if n :| Merge.At(tree, path).Silent? && Merge.LastSays(docs, path, v, n) {
      assert Merge.LastSays(all, path, v, n);
    }
  }

  /** Over the documents or over the array, it is the same import. */
  lemma {:induction false} LastOfArray(d: Disk, chain: seq<Path>, base: Path, list: seq<Tree>, names: seq<string>,
                                       at: seq<nat>, docs: seq<Tree>, path: seq<string>, v: Tree)
    requires Chain(d, chain) && Listed(list, names, at) && |docs| == |names|
    requires forall n | 0 <= n < |names| :: LoadImport(d, chain, base, names[n]) == Done(docs[n])
    ensures (exists n :: Merge.LastSays(docs, path, v, n)) <==>
            exists i: nat :: LastImportSays(d, chain, base, list, path, v, i)
  {
    if n :| Merge.LastSays(docs, path, v, n) {
      LastThere(d, chain, base, list, names, at, docs, path, v, n);
    }
    if i: nat :| LastImportSays(d, chain, base, list, path, v, i) {
      var n :| 0 <= n < |at| && at[n] == i;
      assert list[at[n]] == Str(names[n]);
      forall m | n < m < |docs| ensures Merge.At(docs[m], path).Silent? {
        assert at[n] < at[m] && list[at[m]] == Str(names[m]);
        assert SilentAt(d, chain, base, list[at[m]].s, path);
      }
      assert Merge.LastSays(docs, path, v, n);
    }
  }

  lemma {:induction false} LastThere(d: Disk, chain: seq<Path>, base: Path, list: seq<Tree>, names: seq<string>,
                                     at: seq<nat>, docs: seq<Tree>, path: seq<string>, v: Tree, n: nat)
    requires Chain(d, chain) && Listed(list, names, at) && |docs| == |names| && Merge.LastSays(docs, path, v, n)
    requires forall n | 0 <= n < |names| :: LoadImport(d, chain, base, names[n]) == Done(docs[n])
    ensures LastImportSays(d, chain, base, list, path, v, at[n])
  {
    assert list[at[n]] == Str(names[n]);
    forall j | at[n] < j < |list| && list[j].Str? ensures SilentAt(d, chain, base, list[j].s, path) {
      var i: nat := j;
      assert i in at;
      var m :| 0 <= m < |at| && at[m] == j;
      assert m > n;
      assert list[at[m]] == Str(names[m]) && Merge.At(docs[m], path).Silent?;
    }
  }

  // ----- failures -----

  /** What a failure says is so: the file is not there, does not parse, or is on the
      chain already; the import leads to no file of the right kind. */
  ghost predicate True(d: Disk, f: Failure) {
    match f
    case Circular(names) => names != [] && names[|names| - 1] in names[..|names| - 1] && names[|names| - 1] in d.files
    case CannotRead(path) => path !in d.files
    case CannotParse(path) => path in d.files && d.files[path].Garbled?
    case ImportNotYaml(name) => exists base :: d.resolve(base, name).NotYaml?
    case ImportUnresolvable(name) => exists base :: d.resolve(base, name).Unresolvable?
  }

  /** Whatever is on the disk, a load that fails fails with something true. */
  lemma {:induction false} FailsTruly(d: Disk, chain: seq<Path>, path: Path, base: Path)
    requires Chain(d, chain) && Load(d, chain, path, base).Failed?
    ensures True(d, Load(d, chain, path, base).failure)
    decreases |d.files| - |chain|, 0
  {
    if path in chain {
      assert (chain + [path])[..|chain|] == chain;
    } else if path in d.files && d.files[path].Document? {
      ChainFits(d, chain + [path]);
      ImportsFailTruly(d, chain + [path], base, ImportList(d.files[path].tree), 0);
    }
  }

  lemma {:induction false} ImportsFailTruly(d: Disk, chain: seq<Path>, base: Path, imports: seq<string>, k: nat)
    requires Chain(d, chain) && k <= |imports| && LoadAll(d, chain, base, imports, k).Failed?
    ensures True(d, LoadAll(d, chain, base, imports, k).failure)
    decreases |d.files| - |chain|, 1, |imports| - k
  {
    var first := LoadImport(d, chain, base, imports[k]);
    if first.Done? {
      ImportsFailTruly(d, chain, base, imports, k + 1);
    } else if d.resolve(base, imports[k]).To? {
      FailsTruly(d, chain, d.resolve(base, imports[k]).path, d.resolve(base, imports[k]).path);
    }
  }
}
