/** Applying a layer: a parsed tree laid over a typed configuration, leaf by leaf.
    What a layer gives each leaf is defined on its own, and the walk over the
    schema is shown to do exactly that. */
module Layers {
  import opened Options
  import opened Codec
  import CodecLaw
  import opened Staging
  import opened Tables
  import Decoder

  /** A section's fields are settings of their own; anything else is one setting,
      decoded wholesale. */
  datatype Schema = Setting(ty: Ty) | Section(fields: seq<SchemaField>)

  datatype SchemaField = SchemaField(key: string, others: seq<string>, nolayer: bool, node: Schema)

  /** A typed configuration: the value of every setting, by its canonical path. */
  type Config = map<Path, Val>

  function KeysOf(f: SchemaField): seq<string> { [f.key] + f.others }

  ghost predicate WfSchema(fl: Floats, sch: Schema) {
    match sch
    case Setting(ty) => CodecLaw.WfTy(fl, ty) && CodecLaw.SoundDefaults(fl, ty, Zero(fl, ty))
    case Section(fields) =>
      && (forall i, j | 0 <= i < |fields| && 0 <= j < |fields| && i != j :: KeysApart(fields[i], fields[j]))
      && forall i | 0 <= i < |fields| :: WfSchema(fl, fields[i].node)
  }

  ghost predicate KeysApart(f: SchemaField, g: SchemaField) {
    forall k :: !(k in KeysOf(f) && k in KeysOf(g))
  }

  // ----- settings by path -----

  /** The field with a canonical key. */
  function FieldAt(fields: seq<SchemaField>, key: string): (i: Option<nat>)
    ensures i.Some? ==> i.value < |fields| && fields[i.value].key == key
    ensures i.None? ==> forall j | 0 <= j < |fields| :: fields[j].key != key
  {
    if fields == [] then None
    else if fields[0].key == key then Some(0)
    else
      var rest := FieldAt(fields[1..], key);
      if rest.None? then None else Some(rest.value + 1)
  }

  /** The type of the setting at a path that layers reach. */
  function TypeAt(sch: Schema, p: Path): Option<Ty>
    decreases p
  {
    match sch
    case Setting(ty) => if p == [] then Some(ty) else None
    case Section(fields) =>
      if p == [] || FieldAt(fields, p[0]).None? then None
      else
        var f := fields[FieldAt(fields, p[0]).value];
        if f.nolayer then None else TypeAt(f.node, p[1..])
  }

  /** What a layer gives the setting at a path: canonical keys win over other ones. */
  function Given(sch: Schema, t: Tree, p: Path): Option<Tree>
    decreases p
  {
    match sch
    case Setting(_) => if p == [] then Some(t) else None
    case Section(fields) =>
      if p == [] || FieldAt(fields, p[0]).None? then None
      else
        var f := fields[FieldAt(fields, p[0]).value];
        var val := FindKey(t, KeysOf(f));
        if f.nolayer || val.None? then None else Given(f.node, val.value, p[1..])
  }

  /** The value a layer gives the setting at a path, when it gives one that decodes. */
  function Decoded(fl: Floats, sch: Schema, t: Tree, p: Path): Option<Val> {
    var ty, raw := TypeAt(sch, p), Given(sch, t, p);
    if ty.Some? && raw.Some? then Decode(fl, ty.value, Zero(fl, ty.value), raw.value) else None
  }

  lemma {:induction false} SettingsApart(sch: Schema, p: Path, q: Path)
    requires TypeAt(sch, p).Some? && TypeAt(sch, q).Some? && p != q
    ensures Apart(p, q)
    decreases p
  {
    if sch.Section? && p[0] == q[0] {
      SettingsApart(sch.fields[FieldAt(sch.fields, p[0]).value].node, p[1..], q[1..]);
      ApartAbove(p, q);
    }
  }

  // ----- the walk -----

  /** A setting the walk comes to, and what the layer gives it. */
  datatype Visit = Visit(path: Path, ty: Ty, raw: Tree)

  function Visits(sch: Schema, t: Tree, at: Path): seq<Visit>
    decreases sch, 1, 0
  {
    match sch
    case Setting(ty) => [Visit(at, ty, t)]
    case Section(_) => if IsTable(t) then VisitsFrom(sch, t, at, 0) else []
  }

  function VisitsFrom(sch: Schema, t: Tree, at: Path, k: nat): seq<Visit>
    requires sch.Section? && k <= |sch.fields|
    decreases sch, 0, |sch.fields| - k
  {
    if k == |sch.fields| then [] else VisitField(sch.fields[k], t, at) + VisitsFrom(sch, t, at, k + 1)
  }

  function VisitField(f: SchemaField, t: Tree, at: Path): seq<Visit>
    decreases f
  {
    var val := FindKey(t, KeysOf(f));
    if f.nolayer || val.None? then [] else Visits(f.node, val.value, at + [f.key])
  }

  /** A visit to a setting below at, with what t gives it. */
  ghost predicate Belongs(sch: Schema, t: Tree, at: Path, v: Visit) {
    && at <= v.path
    && TypeAt(sch, v.path[|at|..]) == Some(v.ty)
    && Given(sch, t, v.path[|at|..]) == Some(v.raw)
  }

  ghost predicate AllBelong(sch: Schema, t: Tree, at: Path, vs: seq<Visit>) {
    forall v | v in vs :: Belongs(sch, t, at, v)
  }

  /** The walk comes only to settings the layer gives something. */
  lemma {:induction false} VisitsBelong(fl: Floats, sch: Schema, t: Tree, at: Path)
    requires WfSchema(fl, sch)
    ensures AllBelong(sch, t, at, Visits(sch, t, at))
    decreases sch, 1, 0
  {
    match sch
    case Setting(_) =>
    case Section(_) =>
      if IsTable(t) {
        VisitsFromBelong(fl, sch, t, at, 0);
      }
  }

  lemma {:induction false} VisitsFromBelong(fl: Floats, sch: Schema, t: Tree, at: Path, k: nat)
    requires sch.Section? && k <= |sch.fields| && WfSchema(fl, sch)
    ensures AllBelong(sch, t, at, VisitsFrom(sch, t, at, k))
    decreases sch, 0, |sch.fields| - k
  {
    if k < |sch.fields| {
      VisitsFromBelong(fl, sch, t, at, k + 1);
      var f := sch.fields[k];
      var val := FindKey(t, KeysOf(f));
      if !f.nolayer && val.Some? {
        VisitsBelong(fl, f.node, val.value, at + [f.key]);
        forall v | v in VisitField(f, t, at) ensures Belongs(sch, t, at, v) {
          BelongsAbove(fl, sch, t, at, k, v);
        }
      }
    }
  }

  lemma {:induction false} FieldAtKey(fl: Floats, sch: Schema, k: nat)
    requires WfSchema(fl, sch) && sch.Section? && k < |sch.fields|
    ensures FieldAt(sch.fields, sch.fields[k].key) == Some(k)
  {
    var i := FieldAt(sch.fields, sch.fields[k].key);
    assert i.Some? && (i.value != k ==> KeysApart(sch.fields[i.value], sch.fields[k]));
    assert sch.fields[k].key in KeysOf(sch.fields[k]) && sch.fields[k].key in KeysOf(sch.fields[i.value]);
  }

  lemma {:induction false} BelongsAbove(fl: Floats, sch: Schema, t: Tree, at: Path, k: nat, v: Visit)
    requires WfSchema(fl, sch) && sch.Section? && k < |sch.fields|
    requires
      var f := sch.fields[k];
      !f.nolayer && FindKey(t, KeysOf(f)).Some? && Belongs(f.node, FindKey(t, KeysOf(f)).value, at + [f.key], v)
    ensures Belongs(sch, t, at, v)
  {
    FieldAtKey(fl, sch, k);
    var rest := v.path[|at|..];
    assert at == (at + [sch.fields[k].key])[..|at|];
    assert rest[0] == v.path[|at|] == sch.fields[k].key && rest[1..] == v.path[|at| + 1..];
  }

  /** The walk comes to every setting the layer gives something. */
  lemma {:induction false} Visited(fl: Floats, sch: Schema, t: Tree, at: Path, p: Path)
    requires WfSchema(fl, sch) && TypeAt(sch, p).Some? && Given(sch, t, p).Some?
    ensures Visit(at + p, TypeAt(sch, p).value, Given(sch, t, p).value) in Visits(sch, t, at)
    decreases p
  {
    match sch
    case Setting(_) => assert at + p == at;
    case Section(fields) =>
      var k := FieldAt(fields, p[0]).value;
      var val := FindKey(t, KeysOf(fields[k])).value;
      assert IsTable(t) by { FoundInTable(t, KeysOf(fields[k])); }
      Visited(fl, fields[k].node, val, at + [p[0]], p[1..]);
      assert at + [p[0]] + p[1..] == at + p;
      FieldVisited(sch, t, at, 0, k, Visit(at + p, TypeAt(sch, p).value, Given(sch, t, p).value));
  }

  lemma {:induction false} FoundInTable(t: Tree, keys: seq<string>)
    requires FindKey(t, keys).Some?
    ensures IsTable(t)
  {
    if Lookup(t, keys[0]).None? {
      FoundInTable(t, keys[1..]);
    }
  }

  lemma {:induction false} FieldVisited(sch: Schema, t: Tree, at: Path, i: nat, k: nat, v: Visit)
    requires sch.Section? && i <= k < |sch.fields| && v in VisitField(sch.fields[k], t, at)
    ensures v in VisitsFrom(sch, t, at, i)
    decreases k - i
  {
    if i < k {
      FieldVisited(sch, t, at, i + 1, k, v);
    }
  }

  // ----- laying a layer -----

  /** The config layer passes over what does not decode; the runtime layer stops. */
  datatype Kind = ConfigLayer | RuntimeLayer

  datatype State = State(cfg: Config, staged: Tree, failed: bool)

  function Take(fl: Floats, kind: Kind, st: State, v: Visit): State {
    match Decode(fl, v.ty, Zero(fl, v.ty), v.raw)
    case None => if kind == RuntimeLayer then st.(failed := true) else st
    case Some(val) => State(st.cfg[v.path := val], SetAt(st.staged, v.path, Encode(v.ty, val)), st.failed)
  }

  function Run(fl: Floats, kind: Kind, st: State, vs: seq<Visit>): State
    decreases vs
  {
    if vs == [] || st.failed then st else Run(fl, kind, Take(fl, kind, st, vs[0]), vs[1..])
  }

  lemma {:induction false} RunAppend(fl: Floats, kind: Kind, st: State, vs: seq<Visit>, ws: seq<Visit>)
    ensures Run(fl, kind, st, vs + ws) == Run(fl, kind, Run(fl, kind, st, vs), ws)
    decreases vs
  {
    if vs == [] {
      assert vs + ws == ws;
    } else if !st.failed {
      assert (vs + ws)[1..] == vs[1..] + ws;
      RunAppend(fl, kind, Take(fl, kind, st, vs[0]), vs[1..], ws);
    }
  }

  function Lay(fl: Floats, kind: Kind, sch: Schema, st: State, t: Tree): State {
    Run(fl, kind, st, Visits(sch, t, []))
  }

  /** The setting at p is as it was. */
  predicate Kept(before: State, after: State, p: Path) {
    && (p in before.cfg <==> p in after.cfg)
    && (p in before.cfg ==> after.cfg[p] == before.cfg[p])
    && At(after.staged, p) == At(before.staged, p)
  }

  /** The setting at p has the value v, and v is staged there. */
  predicate Took(sch: Schema, after: State, p: Path, v: Val) {
    && p in after.cfg && after.cfg[p] == v
    && TypeAt(sch, p).Some? && At(after.staged, p) == Some(Encode(TypeAt(sch, p).value, v))
  }

  lemma {:induction false} TakeAt(fl: Floats, kind: Kind, sch: Schema, t: Tree, st: State, v: Visit, p: Path)
    requires Belongs(sch, t, [], v) && sch.Section? && TypeAt(sch, p).Some?
    ensures
      var after := Take(fl, kind, st, v);
      if v.path == p && Decoded(fl, sch, t, p).Some? then Took(sch, after, p, Decoded(fl, sch, t, p).value)
      else Kept(st, after, p)
  {
    assert v.path[0..] == v.path;
    var val := Decode(fl, v.ty, Zero(fl, v.ty), v.raw);
    if val.Some? {
      if v.path == p {
        SetThenAt(st.staged, p, Encode(v.ty, val.value));
      } else {
        SettingsApart(sch, v.path, p);
        SetElsewhere(st.staged, v.path, Encode(v.ty, val.value), p);
      }
    }
  }

  /** A run leaves a setting as it was or gives it what the layer gives it, and the
      latter exactly for visited settings that decode, unless it stopped. */
  lemma {:induction false} RunAt(fl: Floats, kind: Kind, sch: Schema, t: Tree, st: State, vs: seq<Visit>, p: Path)
    requires AllBelong(sch, t, [], vs) && sch.Section? && TypeAt(sch, p).Some?
    ensures
      var after := Run(fl, kind, st, vs);
      || Kept(st, after, p)
      || (Decoded(fl, sch, t, p).Some? && Took(sch, after, p, Decoded(fl, sch, t, p).value))
    ensures Decoded(fl, sch, t, p).None? ==> Kept(st, Run(fl, kind, st, vs), p)
    ensures (forall v | v in vs :: v.path != p) ==> Kept(st, Run(fl, kind, st, vs), p)
    ensures (exists v :: v in vs && v.path == p) && Decoded(fl, sch, t, p).Some? && !Run(fl, kind, st, vs).failed ==>
              Took(sch, Run(fl, kind, st, vs), p, Decoded(fl, sch, t, p).value)
    decreases vs
  {
    if vs != [] && !st.failed {
      TakeAt(fl, kind, sch, t, st, vs[0], p);
      RunAt(fl, kind, sch, t, Take(fl, kind, st, vs[0]), vs[1..], p);
    }
  }

  /** What a layer does to the setting at p: with the config layer it gets its value
      exactly when it is given one that decodes; the runtime layer may have stopped
      before it, and has stopped exactly when some setting is given what does not
      decode. */
  lemma {:induction false} LayAt(fl: Floats, kind: Kind, sch: Schema, st: State, t: Tree, p: Path)
    requires WfSchema(fl, sch) && sch.Section? && TypeAt(sch, p).Some? && !st.failed
    ensures
      var after, val := Lay(fl, kind, sch, st, t), Decoded(fl, sch, t, p);
      && (val.None? ==> Kept(st, after, p))
      && (val.Some? ==> Took(sch, after, p, val.value) || (after.failed && Kept(st, after, p)))
    ensures kind == ConfigLayer ==> !Lay(fl, kind, sch, st, t).failed
  {
    VisitsBelong(fl, sch, t, []);
    RunAt(fl, kind, sch, t, st, Visits(sch, t, []), p);
    if Given(sch, t, p).Some? {
      Visited(fl, sch, t, [], p);
      assert [] + p == p;
    }
    NeverFails(fl, st, Visits(sch, t, []));
  }

  lemma {:induction false} NeverFails(fl: Floats, st: State, vs: seq<Visit>)
    requires !st.failed
    ensures !Run(fl, ConfigLayer, st, vs).failed
    decreases vs
  {
    if vs != [] {
      NeverFails(fl, Take(fl, ConfigLayer, st, vs[0]), vs[1..]);
    }
  }

  /** Some setting is given what it rejects. */
  ghost predicate Rejects(fl: Floats, sch: Schema, t: Tree) {
    exists p :: TypeAt(sch, p).Some? && Given(sch, t, p).Some? && Decoded(fl, sch, t, p).None?
  }

  lemma {:induction false} FailsIffRejects(fl: Floats, sch: Schema, st: State, t: Tree)
    requires WfSchema(fl, sch) && !st.failed
    ensures Lay(fl, RuntimeLayer, sch, st, t).failed <==> Rejects(fl, sch, t)
  {
    var vs := Visits(sch, t, []);
    VisitsBelong(fl, sch, t, []);
    RunFails(fl, st, vs);
    if Lay(fl, RuntimeLayer, sch, st, t).failed {
      var v :| v in vs && Decode(fl, v.ty, Zero(fl, v.ty), v.raw).None?;
      assert Belongs(sch, t, [], v) && v.path[0..] == v.path;
      assert Decoded(fl, sch, t, v.path).None?;
    }
    if Rejects(fl, sch, t) {
      var p :| TypeAt(sch, p).Some? && Given(sch, t, p).Some? && Decoded(fl, sch, t, p).None?;
      Visited(fl, sch, t, [], p);
    }
  }

  lemma {:induction false} RunFails(fl: Floats, st: State, vs: seq<Visit>)
    requires !st.failed
    ensures Run(fl, RuntimeLayer, st, vs).failed <==>
            exists v :: v in vs && Decode(fl, v.ty, Zero(fl, v.ty), v.raw).None?
    decreases vs
  {
    if vs != [] && Decode(fl, vs[0].ty, Zero(fl, vs[0].ty), vs[0].raw).Some? {
      RunFails(fl, Take(fl, RuntimeLayer, st, vs[0]), vs[1..]);
    }
  }

  // ----- as the program runs it -----

  /** One application of a layer to a configuration. */
  class LayerApply {
    const fl: Floats
    const kind: Kind
    const staged: OrderedTable
    var cfg: Config

    constructor (fl: Floats, kind: Kind, cfg: Config, staged: OrderedTable)
      ensures this.fl == fl && this.kind == kind && this.cfg == cfg && this.staged == staged
    {
      this.fl, this.kind, this.cfg, this.staged := fl, kind, cfg, staged;
    }

    ghost function Now(failed: bool): State
      requires staged.Valid()
      reads this, staged, staged.Repr
    {
      State(cfg, staged.View(), failed)
    }

    /** Applies a tree to a section; false when the runtime layer met a value that
        does not decode. */
    method ApplyContainer(sch: Schema, t: Tree, path: Path) returns (ok: bool)
      requires sch.Section? && staged.Valid()
      modifies this, staged.Repr
      ensures staged.Valid() && fresh(staged.Repr - old(staged.Repr))
      ensures Now(!ok) == Run(fl, kind, old(Now(false)), Visits(sch, t, path))
      decreases sch, 2
    {
      if !IsTable(t) {
        return true;
      }
      ghost var start := Now(false);
      ok := true;
      for k := 0 to |sch.fields|
        invariant staged.Valid() && fresh(staged.Repr - old(staged.Repr)) && ok
        invariant Run(fl, kind, start, VisitsFrom(sch, t, path, 0)) ==
                  Run(fl, kind, Now(false), VisitsFrom(sch, t, path, k))
      {
        RunAppend(fl, kind, Now(false), VisitField(sch.fields[k], t, path), VisitsFrom(sch, t, path, k + 1));
        ok := ApplyField(sch.fields[k], t, path);
        if !ok {
          return;
        }
      }
    }

    /** Applies the field's first key that the tree has. */
    method ApplyField(f: SchemaField, t: Tree, path: Path) returns (ok: bool)
      requires staged.Valid()
      modifies this, staged.Repr
      ensures staged.Valid() && fresh(staged.Repr - old(staged.Repr))
      ensures Now(!ok) == Run(fl, kind, old(Now(false)), VisitField(f, t, path))
      decreases f
    {
      ok := true;
      if f.nolayer {
        return;
      }
      var val := Decoder.FirstKey(t, KeysOf(f));
      if val.None? {
        return;
      }
      if f.node.Section? {
        ok := ApplyContainer(f.node, val.value, path + [f.key]);
      } else {
        ok := ApplyLeaf(f.node.ty, val.value, path + [f.key]);
      }
    }

    /** Decodes one setting, and stages what it holds now. */
    method ApplyLeaf(ty: Ty, t: Tree, path: Path) returns (ok: bool)
      requires staged.Valid() && path != []
      modifies this, staged.Repr
      ensures staged.Valid() && fresh(staged.Repr - old(staged.Repr))
      ensures Now(!ok) == Run(fl, kind, old(Now(false)), [Visit(path, ty, t)])
    {
      ghost var v := Visit(path, ty, t);
      assert Run(fl, kind, Now(false), [v]) == Take(fl, kind, Now(false), v);
      var decoded := Decoder.DecodeInto(fl, ty, Zero(fl, ty), t);
      if decoded.None? {
        return kind != RuntimeLayer;
      }
      cfg := cfg[path := decoded.value];
      staged.SetStaged(path, Encode(ty, decoded.value));
      return true;
    }
  }
}
