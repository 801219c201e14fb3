/** What a reload does to each setting, and what each setting is after any history of
    the service: told from the documents and the operations, not from the machine. */
module Reloads {
  import opened Options
  import opened Codec
  import opened Staging
  import opened Layers
  import opened LayerOrder
  import opened Denotation
  import opened Overlay
  import opened OverlayLaws

  // ----- what a document gives a setting -----

  /** The tree gives the setting at p this value: at each section, what stands under
      the first of the field's keys that is there. */
  ghost predicate Gives(sch: Schema, t: Tree, p: Path, raw: Tree)
    decreases p
  {
    match sch
    case Setting(_) => p == [] && raw == t
    case Section(fields) =>
      exists i: nat, k: nat ::
        GivesThrough(fields, t, p, i, k) && Gives(fields[i].node, t.vals[KeyAt(fields[i], k)], p[1..], raw)
  }

  /** The i-th field is the one that p goes through, and its k-th key the first there. */
  ghost predicate GivesThrough(fields: seq<SchemaField>, t: Tree, p: Path, i: nat, k: nat) {
    && p != [] && i < |fields| && fields[i].key == p[0] && !fields[i].nolayer
    && (forall j | 0 <= j < i :: fields[j].key != p[0])
    && k < |fields[i].others| + 1 && IsTable(t) && KeyAt(fields[i], k) in t.vals
    && forall j: nat | j < k :: KeyAt(fields[i], j) !in t.vals
  }

  function KeyAt(f: SchemaField, k: nat): string
    requires k < |f.others| + 1
  {
    if k == 0 then f.key else f.others[k - 1]
  }

  /** A layer gives a setting just that. */
  lemma {:induction false} GivenIs(sch: Schema, t: Tree, p: Path, raw: Tree)
    ensures Given(sch, t, p) == Some(raw) <==> Gives(sch, t, p, raw)
    decreases p
  {
    if sch.Section? {
      if Given(sch, t, p) == Some(raw) {
        var i := FieldAt(sch.fields, p[0]).value;
        var k := GivenThrough(sch.fields, t, p);
        GivenIs(sch.fields[i].node, t.vals[KeyAt(sch.fields[i], k)], p[1..], raw);
      }
      if i: nat, k: nat :| GivesThrough(sch.fields, t, p, i, k) &&
                           Gives(sch.fields[i].node, t.vals[KeyAt(sch.fields[i], k)], p[1..], raw) {
        ThroughGiven(sch.fields, t, p, i, k);
        GivenIs(sch.fields[i].node, t.vals[KeyAt(sch.fields[i], k)], p[1..], raw);
      }
    }
  }

  lemma {:induction false} GivenThrough(fields: seq<SchemaField>, t: Tree, p: Path) returns (k: nat)
    requires p != [] && FieldAt(fields, p[0]).Some?
    requires
      var f := fields[FieldAt(fields, p[0]).value];
      !f.nolayer && FindKey(t, KeysOf(f)).Some?
    ensures
      var i := FieldAt(fields, p[0]).value;
      GivesThrough(fields, t, p, i, k) && FindKey(t, KeysOf(fields[i])) == Some(t.vals[KeyAt(fields[i], k)])
  {
    FieldFirst(fields, p[0]);
    var f := fields[FieldAt(fields, p[0]).value];
    FindsFirst(t, KeysOf(f));
    k :| FirstThere(t, KeysOf(f), k);
    assert KeysOf(f)[k] == KeyAt(f, k) && forall j: nat | j < k :: KeysOf(f)[j] == KeyAt(f, j);
  }

  lemma {:induction false} ThroughGiven(fields: seq<SchemaField>, t: Tree, p: Path, i: nat, k: nat)
    requires GivesThrough(fields, t, p, i, k)
    ensures FieldAt(fields, p[0]) == Some(i) && FindKey(t, KeysOf(fields[i])) == Some(t.vals[KeyAt(fields[i], k)])
  {
    FieldFirst(fields, p[0]);
    var f := fields[i];
    FindsFirst(t, KeysOf(f));
    assert KeysOf(f)[k] == KeyAt(f, k) && forall j: nat | j < k :: KeysOf(f)[j] == KeyAt(f, j);
    assert FirstThere(t, KeysOf(f), k);
  }

  lemma {:induction false} FieldFirst(fields: seq<SchemaField>, key: string)
    ensures var i := FieldAt(fields, key); i.Some? ==> forall j | 0 <= j < i.value :: fields[j].key != key
    decreases fields
  {
    if fields != [] && fields[0].key != key {
      FieldFirst(fields[1..], key);
      assert forall j | 1 <= j < |fields| :: fields[j] == fields[1..][j - 1];
    }
  }

  /** What the tree gives the setting at p denotes v. */
  ghost predicate Says(app: App, t: Tree, p: Path, v: Val)
    requires TypeAt(app.sch, p).Some?
  {
    var ty := TypeAt(app.sch, p).value;
    exists raw :: Gives(app.sch, t, p, raw) && Denotes(app.fl, ty, Zero(app.fl, ty), raw, v)
  }

  lemma {:induction false} SaysIs(app: App, t: Tree, p: Path, v: Val)
    requires TypeAt(app.sch, p).Some?
    ensures Decoded(app.fl, app.sch, t, p) == Some(v) <==> Says(app, t, p, v)
  {
    var ty := TypeAt(app.sch, p).value;
    if Given(app.sch, t, p).Some? {
      var raw := Given(app.sch, t, p).value;
      GivenIs(app.sch, t, p, raw);
      DecodeDenotes(app.fl, ty, Zero(app.fl, ty), raw, v);
    }
    if raw :| Gives(app.sch, t, p, raw) && Denotes(app.fl, ty, Zero(app.fl, ty), raw, v) {
      GivenIs(app.sch, t, p, raw);
    }
  }

  // ----- one reading of the documents -----

  /** What a runtime document overrides the setting at p with: the value it decodes
      to, unless an earlier setting has rejected its own. */
  ghost function Overriding(app: App, runtime: Option<Tree>, p: Path): Option<Val> {
    if runtime.None? || StopsBefore(app.fl, app.sch, runtime.value, p) then None
    else Decoded(app.fl, app.sch, runtime.value, p)
  }

  /** The setting at p has the override, else what the document gives it, else its
      default; and just the override is staged. */
  ghost predicate Shows(app: App, s: Live, tree: Option<Tree>, o: Option<Val>, p: Path)
    requires TypeAt(app.sch, p).Some?
  {
    && p in s.cfg
    && Some(s.cfg[p]) == (if o.Some? then o else Underneath(app, tree, p))
    && At(s.staged, p) == (if o.Some? then Some(Encode(TypeAt(app.sch, p).value, o.value)) else None)
  }

  lemma {:induction false} BuildShows(app: App, tree: Option<Tree>, runtime: Option<Tree>, p: Path)
    requires WfApp(app) && TypeAt(app.sch, p).Some?
    ensures Shows(app, Publish(app, Build(app, tree, runtime), tree), tree, Overriding(app, runtime, p), p)
  {
    BuiltAt(app, tree, runtime, p);
    Nothing(p);
    if runtime.Some? {
      RuntimeLayAt(app.fl, app.sch, State(ConfigState(app, tree).cfg, NOTHING, false), runtime.value, p);
    }
  }

  /** Reading both files: the document is the main file's, none when it is missing or
      broken. */
  lemma {:induction false} LoadEffect(app: App, main: Read, runtime: Read, p: Path)
    requires WfApp(app) && TypeAt(app.sch, p).Some?
    ensures
      var s := Load(app, main, runtime);
      var tree := match main case Parsed(t) => Some(t) case NoFile => None case Unreadable => None;
      var over := match runtime case Parsed(u) => Some(u) case NoFile => None case Unreadable => None;
      Inv(app, s) && s.tree == tree && Shows(app, s, tree, Overriding(app, over, p), p)
  {
    BuildInv(app, TreeOf(main), TreeOf(runtime));
    BuildShows(app, TreeOf(main), TreeOf(runtime), p);
  }

  /** Reloading the main file takes the new document and the overrides of the runtime
      file, none when that is missing or broken; a main file that is missing or broken
      changes nothing. */
  lemma {:induction false} ReloadMainEffect(app: App, s: Live, main: Read, runtime: Read, p: Path)
    requires WfApp(app) && Inv(app, s) && TypeAt(app.sch, p).Some?
    ensures
      var r := ReloadMain(app, s, main, runtime);
      var over := match runtime case Parsed(u) => Some(u) case NoFile => None case Unreadable => None;
      match main
      case Parsed(t) => Inv(app, r) && r.tree == Some(t) && Shows(app, r, Some(t), Overriding(app, over, p), p)
      case NoFile => r == s
      case Unreadable => r == s
  {
    LoadEffect(app, main, runtime, p);
  }

  /** Reloading the runtime file keeps the document and takes the file's overrides, none
      when it is missing; a file that cannot be read changes nothing. */
  lemma {:induction false} ReloadRuntimeEffect(app: App, s: Live, runtime: Read, p: Path)
    requires WfApp(app) && Inv(app, s) && TypeAt(app.sch, p).Some?
    ensures
      var r := ReloadRuntime(app, s, runtime);
      match runtime
      case Parsed(u) => Inv(app, r) && r.tree == s.tree && Shows(app, r, s.tree, Overriding(app, Some(u), p), p)
      case NoFile => Inv(app, r) && r.tree == s.tree && Shows(app, r, s.tree, None, p)
      case Unreadable => r == s
  {
    BuildInv(app, s.tree, TreeOf(runtime));
    BuildShows(app, s.tree, TreeOf(runtime), p);
  }

  // ----- histories -----

  /** The override in effect at p, when it was o before the operations. */
  ghost function LastOverride(app: App, o: Option<Val>, ops: seq<Op>, p: Path): Option<Val>
    requires app.sch.Section?
    decreases ops
  {
    if ops == [] then o else LastOverride(app, NextOverride(app, o, ops[0], p), ops[1..], p)
  }

  /** A set that no setting rejects overrides what it gives a value; a reset drops the
      override that it names; reading the runtime file replaces them all. */
  ghost function NextOverride(app: App, o: Option<Val>, op: Op, p: Path): Option<Val>
    requires app.sch.Section?
  {
    match op
    case SetOp(path, value) =>
      var given := Decoded(app.fl, app.sch, Nested(path, value), p);
      if Rejects(app.fl, app.sch, Nested(path, value)) || given.None? then o else given
    case ResetOp(path) => if Names(app.sch, path, p) then None else o
    case ResetAllOp => None
    case ReloadMainOp(Parsed(_), Parsed(u)) => Overriding(app, Some(u), p)
    case ReloadMainOp(Parsed(_), _) => None
    case ReloadMainOp(_, _) => o
    case ReloadRuntimeOp(Parsed(u)) => Overriding(app, Some(u), p)
    case ReloadRuntimeOp(NoFile) => None
    case ReloadRuntimeOp(Unreadable) => o
  }

  lemma {:induction false} StepShows(app: App, s: Live, o: Option<Val>, op: Op, p: Path)
    requires WfApp(app) && Inv(app, s) && TypeAt(app.sch, p).Some? && Shows(app, s, s.tree, o, p)
    ensures
      var r := Step(app, s, op);
      r.tree == LastDocument(s.tree, [op]) && Shows(app, r, r.tree, NextOverride(app, o, op, p), p)
  {
    assert [op][1..] == [];
    match op
    case SetOp(path, value) =>
      SetEffect(app, s, path, value);
      if !Rejects(app.fl, app.sch, Nested(path, value)) {
        assert SetTo(app, s, Step(app, s, op), Decoded(app.fl, app.sch, Nested(path, value), p), p);
      }
    case ResetOp(path) => ResetShows(app, s, o, path, p);
    case ResetAllOp =>
      ResetAllEffect(app, s, p);
      Nothing(p);
    case ReloadMainOp(main, runtime) => ReloadMainEffect(app, s, main, runtime, p);
    case ReloadRuntimeOp(runtime) => ReloadRuntimeEffect(app, s, runtime, p);
  }

  lemma {:induction false} ResetShows(app: App, s: Live, o: Option<Val>, path: Path, p: Path)
    requires WfApp(app) && Inv(app, s) && TypeAt(app.sch, p).Some? && Shows(app, s, s.tree, o, p)
    ensures
      var r := Step(app, s, ResetOp(path));
      r.tree == s.tree && Shows(app, r, s.tree, if Names(app.sch, path, p) then None else o, p)
  {
    ClearsNamed(app.fl, app.sch, path, p);
    var c := ClearRuntimePath(app.sch, path);
    if c.Canonically? {
      ClearsNamed(app.fl, app.sch, path, c.path);
      ResetEffect(app, s, path, c.path);
      if c.path != p {
        assert SetTo(app, s, Step(app, s, ResetOp(path)), None, p);
      }
    }
  }

  /** After loading and any run of operations the document is the last that was read,
      and every setting has its last override, else what that document gives it, else
      its default. */
  lemma {:induction false} EveryHistory(app: App, main: Read, runtime: Read, ops: seq<Op>, p: Path)
    requires WfApp(app) && TypeAt(app.sch, p).Some?
    ensures
      var s := After(app, Load(app, main, runtime), ops);
      var tree := match main case Parsed(t) => Some(t) case NoFile => None case Unreadable => None;
      var over := match runtime case Parsed(u) => Some(u) case NoFile => None case Unreadable => None;
      && s.tree == LastDocument(tree, ops)
      && Shows(app, s, LastDocument(tree, ops), LastOverride(app, Overriding(app, over, p), ops, p), p)
  {
    LoadEffect(app, main, runtime, p);
    RunShows(app, Load(app, main, runtime), Overriding(app, TreeOf(runtime), p), ops, p);
  }

  lemma {:induction false} RunShows(app: App, s: Live, o: Option<Val>, ops: seq<Op>, p: Path)
    requires WfApp(app) && Inv(app, s) && TypeAt(app.sch, p).Some? && Shows(app, s, s.tree, o, p)
    ensures
      var r := After(app, s, ops);
      r.tree == LastDocument(s.tree, ops) && Shows(app, r, r.tree, LastOverride(app, o, ops, p), p)
    decreases ops
  {
    if ops != [] {
      StepInv(app, s, ops[0]);
      StepShows(app, s, o, ops[0], p);
      assert [ops[0]][1..] == [];
      RunShows(app, Step(app, s, ops[0]), NextOverride(app, o, ops[0], p), ops[1..], p);
    }
  }
}
