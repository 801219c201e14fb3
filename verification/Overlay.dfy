/** The configuration service as a machine over its four pieces of state: after any
    run of its operations every setting has its runtime override, else what the
    config file gives it, else its default. */
module Overlay {
  import opened Options
  import opened Codec
  import CodecLaw
  import opened Staging
  import opened Layers
  import opened CanonicalTrees

  /** The schema and what every setting holds before any layer. */
  datatype App = App(fl: Floats, sch: Schema, defaults: Config)

  ghost predicate WfApp(app: App) {
    && Exact(app.fl) && WfSchema(app.fl, app.sch) && app.sch.Section?
    && forall p | TypeAt(app.sch, p).Some? :: p in app.defaults
  }

  /** The service's state: the settings in effect, the config document, the runtime
      overrides and what the config document set. */
  datatype Live = Live(cfg: Config, tree: Option<Tree>, staged: Tree, configSet: Tree)

  /** A file as it is read. */
  datatype Read = NoFile | Unreadable | Parsed(tree: Tree)

  function TreeOf(r: Read): Option<Tree> { if r.Parsed? then Some(r.tree) else None }

  // ----- the operations -----

  function LayTree(app: App, kind: Kind, st: State, t: Option<Tree>): State {
    if t.None? then st else Lay(app.fl, kind, app.sch, st, t.value)
  }

  /** The config tree over the defaults. */
  function ConfigState(app: App, tree: Option<Tree>): State {
    LayTree(app, ConfigLayer, State(app.defaults, NOTHING, false), tree)
  }

  /** Then the runtime tree over that. */
  function Build(app: App, tree: Option<Tree>, runtime: Option<Tree>): State {
    LayTree(app, RuntimeLayer, State(ConfigState(app, tree).cfg, NOTHING, false), runtime)
  }

  function Publish(app: App, st: State, tree: Option<Tree>): Live {
    Live(st.cfg, tree, st.staged, ConfigState(app, tree).staged)
  }

  function Load(app: App, main: Read, runtime: Read): Live {
    Publish(app, Build(app, TreeOf(main), TreeOf(runtime)), TreeOf(main))
  }

  /** A value at a path of a tree of its own. */
  function Nested(path: Path, value: Tree): Tree {
    if path == [] then value else Dict(map[path[0] := Nested(path[1..], value)])
  }

  /** The tree with a value at a path, tables made on the way; None when something
      else stands there. */
  function InsertPath(t: Tree, path: Path, value: Tree): Option<Tree>
    requires t.Dict?
    decreases path
  {
    if |path| <= 1 then Some(Dict(t.vals[(if path == [] then "" else path[0]) := value]))
    else if path[0] in t.vals && !t.vals[path[0]].Dict? then None
    else
      var child := InsertPath(if path[0] in t.vals then t.vals[path[0]] else Dict(map[]), path[1..], value);
      if child.None? then None else Some(Dict(t.vals[path[0] := child.value]))
  }

  /** Into a fresh tree every path goes. */
  lemma {:induction false} InsertFresh(path: Path, value: Tree)
    requires path != []
    ensures InsertPath(Dict(map[]), path, value) == Some(Nested(path, value))
    decreases path
  {
    if |path| > 1 {
      InsertFresh(path[1..], value);
    }
  }

  /** None when some setting rejects what it is given. */
  function SetByPath(app: App, s: Live, path: Path, value: Tree): Option<Live> {
    var rebuilt := Build(app, s.tree, Some(ToPlain(app.fl, s.staged)));
    var laid := Lay(app.fl, RuntimeLayer, app.sch, State(rebuilt.cfg, s.staged, false), Nested(path, value));
    if laid.failed then None else Some(Publish(app, laid, s.tree))
  }

  /** Why a path names no setting to reset. */
  datatype PathError = EmptyPath | UnknownField(segment: string) | NoNestedField

  datatype Cleared = Canonically(path: Path) | NotCleared(error: PathError)

  /** The field that a segment names, by any of its keys. */
  function NamedField(fields: seq<SchemaField>, segment: string): (i: Option<nat>)
    ensures i.Some? ==> i.value < |fields| && segment in KeysOf(fields[i.value]) && !fields[i.value].nolayer
    ensures i.None? ==> forall j | 0 <= j < |fields| :: fields[j].nolayer || segment !in KeysOf(fields[j])
  {
    if fields == [] then None
    else if !fields[0].nolayer && segment in KeysOf(fields[0]) then Some(0)
    else
      var rest := NamedField(fields[1..], segment);
      if rest.None? then None else Some(rest.value + 1)
  }

  /** The canonical path of the one setting a path names. A path's last segment may
      be followed by one more that is empty. */
  function ClearRuntimePath(sch: Schema, path: Path): (c: Cleared)
    requires sch.Section?
    ensures c.Canonically? ==> c.path != []
    decreases path
  {
    if path == [] || path[0] == "" then NotCleared(EmptyPath)
    else
      match NamedField(sch.fields, path[0])
      case None => NotCleared(UnknownField(path[0]))
      case Some(i) =>
        var f := sch.fields[i];
        if f.node.Section? then
          match ClearRuntimePath(f.node, path[1..])
          case NotCleared(e) => NotCleared(e)
          case Canonically(rest) => Canonically([f.key] + rest)
        else if path[1..] != [] && path[1..] != [""] then NotCleared(NoNestedField)
        else Canonically([f.key])
  }

  datatype ResetResult = Reset(live: Live, cleared: bool) | NotReset(error: PathError)

  function ResetByPath(app: App, s: Live, path: Path): ResetResult
    requires app.sch.Section?
  {
    match ClearRuntimePath(app.sch, path)
    case NotCleared(e) => NotReset(e)
    case Canonically(p) =>
      var left := DeleteAt(s.staged, p);
      Reset(Publish(app, Build(app, s.tree, Some(ToPlain(app.fl, left))), s.tree), At(s.staged, p).Some?)
  }

  function ResetAll(app: App, s: Live): Live { Publish(app, Build(app, s.tree, None), s.tree) }

  /** A broken main file leaves everything as it was. */
  function ReloadMain(app: App, s: Live, main: Read, runtime: Read): Live {
    if !main.Parsed? then s else Load(app, main, runtime)
  }

  /** An unreadable runtime file keeps the overrides. */
  function ReloadRuntime(app: App, s: Live, runtime: Read): Live {
    if runtime.Unreadable? then s else Publish(app, Build(app, s.tree, TreeOf(runtime)), s.tree)
  }

  // ----- the invariant -----

  /** e is how v is written, and reads as v. */
  predicate Agrees(fl: Floats, ty: Ty, v: Val, e: Tree) {
    e == Encode(ty, v) && Decode(fl, ty, Zero(fl, ty), ToPlain(fl, e)) == Some(v)
  }

  /** The setting at p is its override, else what the config set, else its default. */
  ghost predicate InEffect(app: App, s: Live, p: Path)
    requires TypeAt(app.sch, p).Some?
  {
    var ty := TypeAt(app.sch, p).value;
    && p in s.cfg && p in app.defaults
    && match At(s.staged, p)
       case Some(e) => Agrees(app.fl, ty, s.cfg[p], e)
       case None =>
         match At(s.configSet, p)
         case Some(e) => Agrees(app.fl, ty, s.cfg[p], e)
         case None => s.cfg[p] == app.defaults[p]
  }

  /** What no layer reaches keeps its default. */
  ghost predicate OnlySettings(app: App, cfg: Config) {
    && cfg.Keys == app.defaults.Keys
    && forall p | p in cfg && TypeAt(app.sch, p).None? :: cfg[p] == app.defaults[p]
  }

  ghost predicate Inv(app: App, s: Live) {
    && OnlySettings(app, s.cfg)
    && Canonical(app.sch, s.staged)
    && s.configSet == ConfigState(app, s.tree).staged
    && (forall p | TypeAt(app.sch, p).Some? :: InEffect(app, s, p))
  }

  lemma {:induction false} DecodedAgrees(app: App, t: Tree, p: Path)
    requires WfApp(app) && Decoded(app.fl, app.sch, t, p).Some?
    ensures
      var ty, v := TypeAt(app.sch, p).value, Decoded(app.fl, app.sch, t, p).value;
      Agrees(app.fl, ty, v, Encode(ty, v))
  {
    var ty := TypeAt(app.sch, p).value;
    WfSetting(app.fl, app.sch, p);
    CodecLaw.LawEverywhere(app.fl, ty, Zero(app.fl, ty), Given(app.sch, t, p).value);
  }

  lemma {:induction false} WfSetting(fl: Floats, sch: Schema, p: Path)
    requires WfSchema(fl, sch) && TypeAt(sch, p).Some?
    ensures
      var ty := TypeAt(sch, p).value;
      CodecLaw.WfTy(fl, ty) && CodecLaw.SoundDefaults(fl, ty, Zero(fl, ty))
    decreases p
  {
    if sch.Section? {
      WfSetting(fl, sch.fields[FieldAt(sch.fields, p[0]).value].node, p[1..]);
    }
  }

  /** What building gives the setting at p. */
  lemma {:induction false} BuiltAt(app: App, tree: Option<Tree>, runtime: Option<Tree>, p: Path)
    requires WfApp(app) && TypeAt(app.sch, p).Some?
    ensures InEffect(app, Publish(app, Build(app, tree, runtime), tree), p)
    ensures ConfigState(app, tree).cfg.Keys >= {p}
    ensures
      var config := if tree.None? then None else Decoded(app.fl, app.sch, tree.value, p);
      var b := Build(app, tree, runtime);
      && p in b.cfg
      && ConfigState(app, tree).cfg[p] == (if config.Some? then config.value else app.defaults[p])
      && At(ConfigState(app, tree).staged, p) ==
         (if config.Some? then Some(Encode(TypeAt(app.sch, p).value, config.value)) else None)
  {
    var start := State(app.defaults, NOTHING, false);
    var config := ConfigState(app, tree);
    Nothing(p);
    if tree.Some? {
      LayAt(app.fl, ConfigLayer, app.sch, start, tree.value, p);
      if Decoded(app.fl, app.sch, tree.value, p).Some? {
        DecodedAgrees(app, tree.value, p);
      }
    }
    if runtime.Some? {
      LayAt(app.fl, RuntimeLayer, app.sch, State(config.cfg, NOTHING, false), runtime.value, p);
      if Decoded(app.fl, app.sch, runtime.value, p).Some? {
        DecodedAgrees(app, runtime.value, p);
      }
    }
  }

  lemma {:induction false} Nothing(p: Path)
    ensures At(NOTHING, p).Some? <==> p == []
  {
  }

  lemma {:induction false} Untouched(app: App, tree: Option<Tree>, runtime: Option<Tree>)
    requires WfApp(app)
    ensures OnlySettings(app, Build(app, tree, runtime).cfg)
    ensures Canonical(app.sch, Build(app, tree, runtime).staged)
    ensures Canonical(app.sch, ConfigState(app, tree).staged)
  {
    var start, config := State(app.defaults, NOTHING, false), ConfigState(app, tree);
    if tree.Some? {
      LaidOnly(app, ConfigLayer, start, tree.value);
    }
    if runtime.Some? {
      LaidOnly(app, RuntimeLayer, State(config.cfg, NOTHING, false), runtime.value);
    }
  }

  lemma {:induction false} LaidOnly(app: App, kind: Kind, st: State, t: Tree)
    requires WfApp(app) && OnlySettings(app, st.cfg) && Canonical(app.sch, st.staged)
    ensures OnlySettings(app, Lay(app.fl, kind, app.sch, st, t).cfg)
    ensures Canonical(app.sch, Lay(app.fl, kind, app.sch, st, t).staged)
  {
    VisitsBelong(app.fl, app.sch, t, []);
    RunOnly(app, kind, st, t, Visits(app.sch, t, []));
    RunCanonical(app.fl, kind, app.sch, t, st, Visits(app.sch, t, []));
  }

  lemma {:induction false} RunOnly(app: App, kind: Kind, st: State, t: Tree, vs: seq<Visit>)
    requires WfApp(app) && AllBelong(app.sch, t, [], vs) && OnlySettings(app, st.cfg)
    ensures OnlySettings(app, Run(app.fl, kind, st, vs).cfg)
    decreases vs
  {
    if vs != [] && !st.failed {
      assert Belongs(app.sch, t, [], vs[0]) && vs[0].path[0..] == vs[0].path;
      RunOnly(app, kind, Take(app.fl, kind, st, vs[0]), t, vs[1..]);
    }
  }

  /** Every build keeps the invariant, whatever the documents. */
  lemma {:induction false} BuildInv(app: App, tree: Option<Tree>, runtime: Option<Tree>)
    requires WfApp(app)
    ensures Inv(app, Publish(app, Build(app, tree, runtime), tree))
  {
    Untouched(app, tree, runtime);
    forall p | TypeAt(app.sch, p).Some?
      ensures InEffect(app, Publish(app, Build(app, tree, runtime), tree), p)
    {
      BuiltAt(app, tree, runtime, p);
    }
  }

  // ----- laying the overrides again -----

  /** Every override staged in u reads back as what it writes. */
  ghost predicate Readable(app: App, u: Tree) {
    forall p | TypeAt(app.sch, p).Some? && At(u, p).Some? :: ReadableAt(app, u, p)
  }

  ghost predicate ReadableAt(app: App, u: Tree, p: Path)
    requires TypeAt(app.sch, p).Some? && At(u, p).Some?
  {
    exists v :: Agrees(app.fl, TypeAt(app.sch, p).value, v, At(u, p).value)
  }

  /** Building from canonical, readable overrides stages exactly those, and fails
      nowhere. */
  lemma {:induction false} Relaid(app: App, tree: Option<Tree>, u: Tree)
    requires WfApp(app) && Canonical(app.sch, u) && Readable(app, u)
    ensures
      var b := Build(app, tree, Some(ToPlain(app.fl, u)));
      b.staged == u && !b.failed
  {
    var plain := ToPlain(app.fl, u);
    var st := State(ConfigState(app, tree).cfg, NOTHING, false);
    var b := Build(app, tree, Some(plain));
    forall p | TypeAt(app.sch, p).Some? && Given(app.sch, plain, p).Some?
      ensures Decoded(app.fl, app.sch, plain, p).Some?
    {
      GivenStaged(app.fl, app.sch, u, p);
      assert ReadableAt(app, u, p);
    }
    FailsIffRejects(app.fl, app.sch, st, plain);
    Untouched(app, tree, Some(plain));
    forall p | TypeAt(app.sch, p).Some? ensures At(b.staged, p) == At(u, p) {
      GivenStaged(app.fl, app.sch, u, p);
      LayAt(app.fl, RuntimeLayer, app.sch, st, plain, p);
      Nothing(p);
      if At(u, p).Some? {
        assert ReadableAt(app, u, p);
      }
    }
    SameTree(app.sch, b.staged, u);
  }

  lemma {:induction false} InvReadable(app: App, s: Live)
    requires WfApp(app) && Inv(app, s)
    ensures Readable(app, s.staged)
  {
    forall p | TypeAt(app.sch, p).Some? && At(s.staged, p).Some? ensures ReadableAt(app, s.staged, p) {
      assert InEffect(app, s, p);
    }
  }

  /** Two states in effect from the same layers agree at p. */
  lemma {:induction false} SameEffect(app: App, s: Live, r: Live, p: Path)
    requires TypeAt(app.sch, p).Some? && InEffect(app, s, p) && InEffect(app, r, p)
    requires At(s.staged, p) == At(r.staged, p)
    requires At(s.staged, p).None? ==> At(s.configSet, p) == At(r.configSet, p)
    ensures s.cfg[p] == r.cfg[p]
  {
  }

  /** The document and the overrides determine the state. */
  lemma {:induction false} SameLive(app: App, s: Live, r: Live)
    requires WfApp(app) && Inv(app, s) && Inv(app, r) && s.tree == r.tree && SameSettings(app.sch, s.staged, r.staged)
    ensures s == r
  {
    SameTree(app.sch, s.staged, r.staged);
    forall p | p in s.cfg ensures s.cfg[p] == r.cfg[p] {
      if TypeAt(app.sch, p).Some? {
        assert InEffect(app, s, p) && InEffect(app, r, p);
        SameEffect(app, s, r, p);
      }
    }
    assert s.cfg == r.cfg;
  }

  /** The state is what building from its own documents and overrides gives. */
  lemma {:induction false} Rebuild(app: App, s: Live)
    requires WfApp(app) && Inv(app, s)
    ensures Publish(app, Build(app, s.tree, Some(ToPlain(app.fl, s.staged))), s.tree) == s
    ensures !Build(app, s.tree, Some(ToPlain(app.fl, s.staged))).failed
  {
    InvReadable(app, s);
    Relaid(app, s.tree, s.staged);
    BuildInv(app, s.tree, Some(ToPlain(app.fl, s.staged)));
    SameLive(app, s, Publish(app, Build(app, s.tree, Some(ToPlain(app.fl, s.staged))), s.tree));
  }
}
