/** What setting, resetting and reloading do to each setting, and what the service
    reports about it. */
module OverlayLaws {
  import opened Options
  import opened Codec
  import CodecLaw
  import opened Staging
  import opened Layers
  import opened CanonicalTrees
  import opened Overlay

  // ----- setting -----

  /** The setting at p after a set: the value it was given, or just what it was. */
  ghost predicate SetTo(app: App, s: Live, r: Live, given: Option<Val>, p: Path)
    requires TypeAt(app.sch, p).Some?
  {
    && p in r.cfg && p in s.cfg
    && r.cfg[p] == (if given.Some? then given.value else s.cfg[p])
    && At(r.staged, p) == (if given.Some? then Some(Encode(TypeAt(app.sch, p).value, given.value)) else At(s.staged, p))
  }

  /** A set is rejected exactly when some setting rejects what it is given, and then
      nothing is published; otherwise it changes only the settings it gives a value. */
  lemma {:induction false} SetEffect(app: App, s: Live, path: Path, value: Tree)
    requires WfApp(app) && Inv(app, s)
    ensures SetByPath(app, s, path, value).None? <==> Rejects(app.fl, app.sch, Nested(path, value))
    ensures
      var r, root := SetByPath(app, s, path, value), Nested(path, value);
      r.Some? ==>
        && Inv(app, r.value) && r.value.tree == s.tree && r.value.configSet == s.configSet
        && forall p | TypeAt(app.sch, p).Some? :: SetTo(app, s, r.value, Decoded(app.fl, app.sch, root, p), p)
  {
    var root := Nested(path, value);
    Rebuild(app, s);
    var st := State(s.cfg, s.staged, false);
    var laid := Lay(app.fl, RuntimeLayer, app.sch, st, root);
    FailsIffRejects(app.fl, app.sch, st, root);
    if !laid.failed {
      LaidOnly(app, RuntimeLayer, st, root);
      forall p | TypeAt(app.sch, p).Some?
        ensures SetTo(app, s, Publish(app, laid, s.tree), Decoded(app.fl, app.sch, root, p), p)
        ensures InEffect(app, Publish(app, laid, s.tree), p)
      {
        assert InEffect(app, s, p);
        LayAt(app.fl, RuntimeLayer, app.sch, st, root, p);
        if Decoded(app.fl, app.sch, root, p).Some? {
          DecodedAgrees(app, root, p);
        }
      }
    }
  }

  /** A path that leads to nothing changes nothing. */
  lemma {:induction false} SetNowhere(app: App, s: Live, path: Path, value: Tree)
    requires WfApp(app) && Inv(app, s)
    requires forall p | TypeAt(app.sch, p).Some? :: Given(app.sch, Nested(path, value), p).None?
    ensures SetByPath(app, s, path, value) == Some(s)
  {
    SetEffect(app, s, path, value);
    var r := SetByPath(app, s, path, value).value;
    forall p | TypeAt(app.sch, p).Some? ensures At(r.staged, p) == At(s.staged, p) {
      assert SetTo(app, s, r, None, p);
    }
    SameLive(app, r, s);
  }

  // ----- naming one setting -----

  /** The path names the setting at p: each segment is one of its field's keys. */
  predicate Names(sch: Schema, path: Path, p: Path)
    requires sch.Section?
    decreases path
  {
    if path == [] || path[0] == "" || p == [] || FieldAt(sch.fields, p[0]).None? then false
    else
      var f := sch.fields[FieldAt(sch.fields, p[0]).value];
      && !f.nolayer && path[0] in KeysOf(f)
      && if f.node.Section? then Names(f.node, path[1..], p[1..])
         else p[1..] == [] && (path[1..] == [] || path[1..] == [""])
  }

  lemma {:induction false} NamedUnique(fl: Floats, sch: Schema, i: nat, segment: string)
    requires WfSchema(fl, sch) && sch.Section? && i < |sch.fields|
    requires segment in KeysOf(sch.fields[i]) && !sch.fields[i].nolayer
    ensures NamedField(sch.fields, segment) == Some(i)
  {
    var j := NamedField(sch.fields, segment);
    assert j.Some?;
    var f, g := sch.fields[i], sch.fields[j.value];
    assert j.value != i ==> KeysApart(f, g);
  }

  /** Resolving a path gives exactly the setting that it names. */
  lemma {:induction false} ClearsNamed(fl: Floats, sch: Schema, path: Path, p: Path)
    requires WfSchema(fl, sch) && sch.Section?
    ensures ClearRuntimePath(sch, path) == Canonically(p) <==> Names(sch, path, p)
    ensures Names(sch, path, p) ==> TypeAt(sch, p).Some?
    decreases path
  {
    if path != [] && path[0] != "" && NamedField(sch.fields, path[0]).Some? {
      var i := NamedField(sch.fields, path[0]).value;
      var f := sch.fields[i];
      FieldAtKey(fl, sch, i);
      if p != [] && FieldAt(sch.fields, p[0]).Some? {
        var j := FieldAt(sch.fields, p[0]).value;
        if !sch.fields[j].nolayer && path[0] in KeysOf(sch.fields[j]) {
          NamedUnique(fl, sch, j, path[0]);
        }
      }
      if f.node.Section? {
        if p != [] {
          ClearsNamed(fl, f.node, path[1..], p[1..]);
          assert p == [p[0]] + p[1..];
        }
        if ClearRuntimePath(f.node, path[1..]).Canonically? {
          assert ([f.key] + ClearRuntimePath(f.node, path[1..]).path)[1..] == ClearRuntimePath(f.node, path[1..]).path;
        }
      } else if p != [] && p[1..] == [] {
        assert p == [p[0]];
      }
    }
  }

  /** A value set at a path that names a setting is given to it, and to no other. */
  lemma {:induction false} NestedGives(fl: Floats, sch: Schema, path: Path, value: Tree, p: Path, q: Path)
    requires WfSchema(fl, sch) && sch.Section? && Names(sch, path, p) && path[|path| - 1] != ""
    requires TypeAt(sch, q).Some?
    ensures Given(sch, Nested(path, value), q) == if q == p then Some(value) else None
    decreases path
  {
    var t := Nested(path, value);
    var i, j := FieldAt(sch.fields, p[0]).value, FieldAt(sch.fields, q[0]).value;
    var f := sch.fields[j];
    if i == j {
      FoundAmong(t, KeysOf(f), path[0]);
      assert p == [p[0]] + p[1..] && q == [q[0]] + q[1..];
      if f.node.Section? {
        assert path[1..] != [] && path[1..][|path[1..]| - 1] == path[|path| - 1];
        NestedGives(fl, f.node, path[1..], value, p[1..], q[1..]);
      } else {
        assert path[1..] == [];
      }
    } else {
      assert KeysApart(sch.fields[i], f);
      forall k | k in KeysOf(f) ensures Lookup(t, k).None? {
      }
      CodecLaw.NoKey(t, KeysOf(f));
    }
  }

  lemma {:induction false} FoundAmong(t: Tree, keys: seq<string>, key: string)
    requires t.Dict? && t.vals.Keys == {key} && key in keys
    ensures FindKey(t, keys) == Some(t.vals[key])
    decreases keys
  {
    if keys[0] != key {
      FoundAmong(t, keys[1..], key);
    }
  }

  // ----- resetting -----

  /** What the config file gives the setting at p, or its default. */
  function Underneath(app: App, tree: Option<Tree>, p: Path): Option<Val> {
    var given := if tree.None? then None else Decoded(app.fl, app.sch, tree.value, p);
    if given.Some? then given else if p in app.defaults then Some(app.defaults[p]) else None
  }

  /** A reset drops the one override its path names, and its setting falls back to
      what lies underneath; every other setting is as it was. */
  lemma {:induction false} ResetEffect(app: App, s: Live, path: Path, p: Path)
    requires WfApp(app) && Inv(app, s) && Names(app.sch, path, p)
    ensures
      var r := ResetByPath(app, s, path);
      && r.Reset? && Inv(app, r.live) && r.live.tree == s.tree && r.live.configSet == s.configSet
      && (r.cleared <==> At(s.staged, p).Some?)
      && p in r.live.cfg && Some(r.live.cfg[p]) == Underneath(app, s.tree, p) && At(r.live.staged, p) == None
      && forall q | TypeAt(app.sch, q).Some? && q != p :: SetTo(app, s, r.live, None, q)
  {
    ClearsNamed(app.fl, app.sch, path, p);
    var left := DeleteAt(s.staged, p);
    var r := ResetByPath(app, s, path);
    DeleteThenAt(s.staged, p);
    DeleteCanonical(app.sch, s.staged, p);
    InvReadable(app, s);
    forall q | TypeAt(app.sch, q).Some? && q != p ensures At(left, q) == At(s.staged, q) {
      SettingsApart(app.sch, p, q);
      DeleteElsewhere(s.staged, p, q);
    }
    forall q | TypeAt(app.sch, q).Some? && At(left, q).Some? ensures ReadableAt(app, left, q) {
      assert ReadableAt(app, s.staged, q);
    }
    Relaid(app, s.tree, left);
    BuildInv(app, s.tree, Some(ToPlain(app.fl, left)));
    assert InEffect(app, r.live, p);
    BuiltAt(app, s.tree, Some(ToPlain(app.fl, left)), p);
    Fallback(app, r.live, p);
    forall q | TypeAt(app.sch, q).Some? && q != p ensures SetTo(app, s, r.live, None, q) {
      assert InEffect(app, s, q) && InEffect(app, r.live, q);
      SameEffect(app, s, r.live, q);
    }
  }

  /** A setting that is not overridden has what lies underneath. */
  lemma {:induction false} Fallback(app: App, s: Live, p: Path)
    requires WfApp(app) && Inv(app, s) && TypeAt(app.sch, p).Some? && At(s.staged, p).None?
    ensures p in s.cfg && Some(s.cfg[p]) == Underneath(app, s.tree, p)
  {
    assert InEffect(app, s, p);
    BuiltAt(app, s.tree, None, p);
    if s.tree.Some? && Decoded(app.fl, app.sch, s.tree.value, p).Some? {
      DecodedAgrees(app, s.tree.value, p);
    }
  }

  /** Resetting undoes a first set, whatever keys the path used. */
  lemma {:induction false} SetThenReset(app: App, s: Live, path: Path, value: Tree, p: Path)
    requires WfApp(app) && Inv(app, s) && Names(app.sch, path, p) && path[|path| - 1] != ""
    requires At(s.staged, p).None? && SetByPath(app, s, path, value).Some?
    ensures ResetByPath(app, SetByPath(app, s, path, value).value, path) == Reset(s, true)
  {
    SetEffect(app, s, path, value);
    var mid := SetByPath(app, s, path, value).value;
    ResetEffect(app, mid, path, p);
    var r := ResetByPath(app, mid, path).live;
    ClearsNamed(app.fl, app.sch, path, p);
    NestedGives(app.fl, app.sch, path, value, p, p);
    assert Decoded(app.fl, app.sch, Nested(path, value), p).Some?;
    assert SetTo(app, s, mid, Decoded(app.fl, app.sch, Nested(path, value), p), p);
    forall q | TypeAt(app.sch, q).Some? ensures At(r.staged, q) == At(s.staged, q) {
      NestedGives(app.fl, app.sch, path, value, p, q);
      assert q != p ==> SetTo(app, s, mid, None, q) && SetTo(app, mid, r, None, q);
    }
    SameLive(app, r, s);
  }

  /** With every override dropped each setting has what lies underneath. */
  lemma {:induction false} ResetAllEffect(app: App, s: Live, p: Path)
    requires WfApp(app) && Inv(app, s) && TypeAt(app.sch, p).Some?
    ensures
      var r := ResetAll(app, s);
      Inv(app, r) && r.staged == NOTHING && p in r.cfg && Some(r.cfg[p]) == Underneath(app, s.tree, p)
  {
    BuildInv(app, s.tree, None);
    Nothing(p);
    Fallback(app, ResetAll(app, s), p);
  }

  // ----- documents -----

  /** A value in the config file that does not decode changes no other setting: two
      documents that give q the same leave q the same. */
  lemma {:induction false} ConfigIsPerSetting(app: App, t: Tree, u: Tree, runtime: Option<Tree>, q: Path)
    requires WfApp(app) && TypeAt(app.sch, q).Some? && Given(app.sch, t, q) == Given(app.sch, u, q)
    ensures
      var a, b := Build(app, Some(t), runtime), Build(app, Some(u), runtime);
      q in a.cfg && q in b.cfg && a.cfg[q] == b.cfg[q]
  {
    var a, b := ConfigState(app, Some(t)), ConfigState(app, Some(u));
    BuiltAt(app, Some(t), runtime, q);
    BuiltAt(app, Some(u), runtime, q);
    if runtime.Some? {
      VisitsBelong(app.fl, app.sch, runtime.value, []);
      SameRun(app, State(a.cfg, NOTHING, false), State(b.cfg, NOTHING, false), runtime.value,
              Visits(app.sch, runtime.value, []), q);
    }
  }

  lemma {:induction false} SameRun(app: App, a: State, b: State, t: Tree, vs: seq<Visit>, q: Path)
    requires AllBelong(app.sch, t, [], vs) && a.staged == b.staged && a.failed == b.failed
    requires q in a.cfg && q in b.cfg && a.cfg[q] == b.cfg[q]
    ensures
      var x, y := Run(app.fl, RuntimeLayer, a, vs), Run(app.fl, RuntimeLayer, b, vs);
      q in x.cfg && q in y.cfg && x.cfg[q] == y.cfg[q] && x.staged == y.staged && x.failed == y.failed
    decreases vs
  {
    if vs != [] && !a.failed {
      SameRun(app, Take(app.fl, RuntimeLayer, a, vs[0]), Take(app.fl, RuntimeLayer, b, vs[0]), t, vs[1..], q);
    }
  }

  /** Overrides written out in the parsed shape and loaded again give the same
      state. */
  lemma {:induction false} SaveThenLoad(app: App, s: Live)
    requires WfApp(app) && Inv(app, s) && s.tree.Some?
    ensures Load(app, Parsed(s.tree.value), Parsed(ToPlain(app.fl, s.staged))) == s
  {
    Rebuild(app, s);
  }

  // ----- runs -----

  datatype Op =
    | SetOp(path: Path, value: Tree)
    | ResetOp(path: Path)
    | ResetAllOp
    | ReloadMainOp(main: Read, runtime: Read)
    | ReloadRuntimeOp(runtime: Read)

  function Step(app: App, s: Live, op: Op): Live
    requires app.sch.Section?
  {
    match op
    case SetOp(path, value) =>
      var r := SetByPath(app, s, path, value);
      if r.Some? then r.value else s
    case ResetOp(path) =>
      var r := ResetByPath(app, s, path);
      if r.Reset? then r.live else s
    case ResetAllOp => ResetAll(app, s)
    case ReloadMainOp(main, runtime) => ReloadMain(app, s, main, runtime)
    case ReloadRuntimeOp(runtime) => ReloadRuntime(app, s, runtime)
  }

  function After(app: App, s: Live, ops: seq<Op>): Live
    requires app.sch.Section?
    decreases ops
  {
    if ops == [] then s else After(app, Step(app, s, ops[0]), ops[1..])
  }

  lemma {:induction false} StepInv(app: App, s: Live, op: Op)
    requires WfApp(app) && Inv(app, s)
    ensures Inv(app, Step(app, s, op))
  {
    match op
    case SetOp(path, value) => SetEffect(app, s, path, value);
    case ResetOp(path) =>
      var c := ClearRuntimePath(app.sch, path);
      if c.Canonically? {
        ClearsNamed(app.fl, app.sch, path, c.path);
        ResetEffect(app, s, path, c.path);
      }
    case ResetAllOp => BuildInv(app, s.tree, None);
    case ReloadMainOp(main, runtime) => BuildInv(app, TreeOf(main), TreeOf(runtime));
    case ReloadRuntimeOp(runtime) => BuildInv(app, s.tree, TreeOf(runtime));
  }

  /** The document in effect: of the main files read, the last that parsed. */
  function LastDocument(tree: Option<Tree>, ops: seq<Op>): Option<Tree>
    decreases ops
  {
    if ops == [] then tree
    else
      match ops[0]
      case ReloadMainOp(Parsed(t), _) => LastDocument(Some(t), ops[1..])
      case _ => LastDocument(tree, ops[1..])
  }

  lemma {:induction false} StepDocument(app: App, s: Live, op: Op)
    requires WfApp(app) && Inv(app, s)
    ensures
      Step(app, s, op).tree == match op case ReloadMainOp(Parsed(t), _) => Some(t) case _ => s.tree
  {
  }

  lemma {:induction false} RunsDocument(app: App, s: Live, ops: seq<Op>)
    requires WfApp(app) && Inv(app, s)
    ensures After(app, s, ops).tree == LastDocument(s.tree, ops)
    decreases ops
  {
    if ops != [] {
      StepInv(app, s, ops[0]);
      StepDocument(app, s, ops[0]);
      RunsDocument(app, Step(app, s, ops[0]), ops[1..]);
    }
  }

  /** After loading and any run of operations the document is the last main file that
      parsed, and every setting is its override, else what that document gives it, else
      its default. */
  lemma {:induction false} EveryRun(app: App, main: Read, runtime: Read, ops: seq<Op>, p: Path)
    requires WfApp(app) && TypeAt(app.sch, p).Some?
    ensures
      var s := After(app, Load(app, main, runtime), ops);
      var tree := LastDocument(match main case Parsed(t) => Some(t) case _ => None, ops);
      && Inv(app, s) && p in s.cfg && s.tree == tree
      && (At(s.staged, p).Some? ==> Agrees(app.fl, TypeAt(app.sch, p).value, s.cfg[p], At(s.staged, p).value))
      && (At(s.staged, p).None? ==> Some(s.cfg[p]) == Underneath(app, tree, p))
  {
    BuildInv(app, TreeOf(main), TreeOf(runtime));
    RunsInv(app, Load(app, main, runtime), ops);
    RunsDocument(app, Load(app, main, runtime), ops);
    var s := After(app, Load(app, main, runtime), ops);
    assert InEffect(app, s, p);
    if At(s.staged, p).None? {
      Fallback(app, s, p);
    }
  }

  lemma {:induction false} RunsInv(app: App, s: Live, ops: seq<Op>)
    requires WfApp(app) && Inv(app, s)
    ensures Inv(app, After(app, s, ops))
    decreases ops
  {
    if ops != [] {
      StepInv(app, s, ops[0]);
      RunsInv(app, Step(app, s, ops[0]), ops[1..]);
    }
  }
}
