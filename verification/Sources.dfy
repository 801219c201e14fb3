/** What the service reports at a path: the value in effect, the layer it comes from
    and what that layer holds. */
module Sources {
  import opened Options
  import opened Codec
  import CodecLaw
  import opened Staging
  import opened Layers
  import opened CanonicalTrees
  import opened Overlay
  import opened OverlayLaws

  // ----- the effective value -----

  /** 32-bit floats of an encoded tree as 64-bit ones. */
  function Widen(fl: Floats, t: Tree): Tree {
    match t
    case F32(g) => F64(fl.widen(g))
    case Table(vals) => Table(map k | k in vals :: Widen(fl, vals[k]))
    case Arr(items) => Arr(seq(|items|, k requires 0 <= k < |items| => Widen(fl, items[k])))
    case _ => t
  }

  function FieldKeys(fields: seq<SchemaField>): set<string> { set i | 0 <= i < |fields| :: fields[i].key }

  /** The configuration below at as it serializes; an unset option leaves no key. */
  function EncodeConfig(sch: Schema, cfg: Config, at: Path): Tree
    decreases sch, 1
  {
    match sch
    case Setting(ty) => if at in cfg then Encode(ty, cfg[at]) else Absent
    case Section(fields) =>
      Table(map k | k in FieldKeys(fields) && EncodeField(sch, cfg, at, k) != Absent :: EncodeField(sch, cfg, at, k))
  }

  function EncodeField(sch: Schema, cfg: Config, at: Path, key: string): Tree
    requires sch.Section? && key in FieldKeys(sch.fields)
    decreases sch, 0
  {
    EncodeConfig(sch.fields[FieldAt(sch.fields, key).value].node, cfg, at + [key])
  }

  function Walk(t: Tree, path: Path): Option<Tree>
    decreases path
  {
    if path == [] then Some(t)
    else
      var next := Lookup(t, path[0]);
      if next.None? then None else Walk(next.value, path[1..])
  }

  function GetByPath(app: App, s: Live, path: Path): Option<Tree> {
    Walk(Widen(app.fl, EncodeConfig(app.sch, s.cfg, [])), path)
  }

  lemma {:induction false} EncodedAt(fl: Floats, sch: Schema, cfg: Config, at: Path, p: Path)
    requires TypeAt(sch, p).Some? && at + p in cfg
    ensures
      var e := Encode(TypeAt(sch, p).value, cfg[at + p]);
      sch.Section? || e != Absent ==>
        Walk(Widen(fl, EncodeConfig(sch, cfg, at)), p) == if e == Absent then None else Some(Widen(fl, e))
    decreases p
  {
    if p == [] {
      assert at + p == at;
    } else {
      var node := sch.fields[FieldAt(sch.fields, p[0]).value].node;
      assert at + [p[0]] + p[1..] == at + p;
      assert p[0] in FieldKeys(sch.fields);
      EncodedAt(fl, node, cfg, at + [p[0]], p[1..]);
      EncodedKey(fl, sch, cfg, at, p[0]);
      if node.Setting? {
        assert at + [p[0]] == at + p && p[1..] == [];
      }
    }
  }

  lemma {:induction false} EncodedKey(fl: Floats, sch: Schema, cfg: Config, at: Path, key: string)
    requires sch.Section? && key in FieldKeys(sch.fields)
    ensures
      var child := EncodeField(sch, cfg, at, key);
      Lookup(Widen(fl, EncodeConfig(sch, cfg, at)), key) == if child == Absent then None else Some(Widen(fl, child))
  {
  }

  /** The value reported at a setting's path is what its value in effect writes. */
  lemma {:induction false} GetsSetting(app: App, s: Live, p: Path)
    requires WfApp(app) && Inv(app, s) && TypeAt(app.sch, p).Some?
    ensures p in s.cfg
    ensures
      var e := Encode(TypeAt(app.sch, p).value, s.cfg[p]);
      GetByPath(app, s, p) == if e == Absent then None else Some(Widen(app.fl, e))
  {
    assert InEffect(app, s, p);
    assert [] + p == p;
    EncodedAt(app.fl, app.sch, s.cfg, [], p);
  }

  /** Reading a setting just set gives what the value set writes. */
  lemma {:induction false} SetThenGet(app: App, s: Live, path: Path, value: Tree, p: Path)
    requires WfApp(app) && Inv(app, s) && Names(app.sch, path, p) && path[|path| - 1] != ""
    requires SetByPath(app, s, path, value).Some?
    ensures TypeAt(app.sch, p).Some? && Decoded(app.fl, app.sch, Nested(path, value), p).Some?
    ensures
      var ty, v := TypeAt(app.sch, p).value, Decoded(app.fl, app.sch, Nested(path, value), p).value;
      && Decode(app.fl, ty, Zero(app.fl, ty), value) == Some(v)
      && GetByPath(app, SetByPath(app, s, path, value).value, p) == Some(Widen(app.fl, Encode(ty, v)))
  {
    ClearsNamed(app.fl, app.sch, path, p);
    NestedGives(app.fl, app.sch, path, value, p, p);
    SetEffect(app, s, path, value);
    var r, v := SetByPath(app, s, path, value).value, Decoded(app.fl, app.sch, Nested(path, value), p);
    assert v.Some?;
    assert SetTo(app, s, r, v, p);
    var ty := TypeAt(app.sch, p).value;
    WfSetting(app.fl, app.sch, p);
    CodecLaw.DecodedPresent(app.fl, ty, Zero(app.fl, ty), value);
    GetsSetting(app, r, p);
  }

  // ----- where it comes from -----

  datatype ValueSource = FromDefault | FromConfig | FromRuntime

  /** The canonical keys of a path that any keys may name, into value structs too. */
  function CanonicalPath(sch: Schema, path: Path): Option<Path>
    decreases path
  {
    if path == [] then Some([])
    else
      match sch
      case Setting(ty) => CanonicalInType(ty, path)
      case Section(fields) =>
        var i := KeyedField(fields, path[0]);
        if i.None? then None
        else
          var rest := CanonicalPath(fields[i.value].node, path[1..]);
          if rest.None? then None else Some([fields[i.value].key] + rest.value)
  }

  /** The first field with the segment among its keys. */
  function KeyedField(fields: seq<SchemaField>, segment: string): (i: Option<nat>)
    ensures i.Some? ==> i.value < |fields| && segment in KeysOf(fields[i.value])
    ensures i.None? ==> forall j | 0 <= j < |fields| :: segment !in KeysOf(fields[j])
  {
    if fields == [] then None
    else if segment in KeysOf(fields[0]) then Some(0)
    else
      var rest := KeyedField(fields[1..], segment);
      if rest.None? then None else Some(rest.value + 1)
  }

  /** An option counts as what it holds; anything but a struct has no fields. */
  function CanonicalInType(ty: Ty, path: Path): Option<Path>
    decreases path, ty
  {
    if path == [] then Some([])
    else
      match ty
      case TOption(e) => CanonicalInType(e, path)
      case TStruct(fields, _) =>
        var i := KeyedMember(fields, path[0]);
        if i.None? then None
        else
          var rest := CanonicalInType(fields[i.value].ty, path[1..]);
          if rest.None? then None else Some([fields[i.value].key] + rest.value)
      case _ => None
  }

  function KeyedMember(fields: seq<Field>, segment: string): (i: Option<nat>)
    ensures i.Some? ==> i.value < |fields|
  {
    if fields == [] then None
    else if segment in LookupKeys(fields[0]) then Some(0)
    else
      var rest := KeyedMember(fields[1..], segment);
      if rest.None? then None else Some(rest.value + 1)
  }

  function Source(app: App, s: Live, path: Path): ValueSource {
    match CanonicalPath(app.sch, path)
    case None => FromDefault
    case Some(p) =>
      if At(s.staged, p).Some? then FromRuntime
      else if At(s.configSet, p).Some? then FromConfig
      else FromDefault
  }

  /** What the runtime layer holds at a path, plain. */
  function RuntimeValue(app: App, s: Live, path: Path): Option<Tree> {
    match CanonicalPath(app.sch, path)
    case None => None
    case Some(p) => if At(s.staged, p).Some? then Some(ToPlain(app.fl, At(s.staged, p).value)) else None
  }

  function ConfigValue(app: App, s: Live, path: Path): Option<Tree> {
    match CanonicalPath(app.sch, path)
    case None => None
    case Some(p) => if At(s.configSet, p).Some? then Some(ToPlain(app.fl, At(s.configSet, p).value)) else None
  }

  /** A canonical path of the schema. */
  predicate Leads(sch: Schema, q: Path)
    decreases q
  {
    q == [] || (sch.Section? && FieldAt(sch.fields, q[0]).Some? &&
                Leads(sch.fields[FieldAt(sch.fields, q[0]).value].node, q[1..]))
  }

  lemma {:induction false} CanonicalItself(fl: Floats, sch: Schema, q: Path)
    requires WfSchema(fl, sch) && Leads(sch, q)
    ensures CanonicalPath(sch, q) == Some(q)
    decreases q
  {
    if q != [] {
      var i := FieldAt(sch.fields, q[0]).value;
      var j := KeyedField(sch.fields, q[0]);
      assert q[0] in KeysOf(sch.fields[i]) && j.Some?;
      var f, g := sch.fields[i], sch.fields[j.value];
      assert i != j.value ==> KeysApart(f, g);
      CanonicalItself(fl, f.node, q[1..]);
      assert q == [q[0]] + q[1..];
    }
  }

  /** The layer reported for a setting is the one its value comes from, and what that
      layer is said to hold reads as the value in effect. */
  lemma {:induction false} SourceOfSetting(app: App, s: Live, p: Path)
    requires WfApp(app) && Inv(app, s) && TypeAt(app.sch, p).Some?
    ensures p in s.cfg && p in app.defaults
    ensures
      var ty := TypeAt(app.sch, p).value;
      match Source(app, s, p)
      case FromRuntime =>
        RuntimeValue(app, s, p).Some? &&
        Decode(app.fl, ty, Zero(app.fl, ty), RuntimeValue(app, s, p).value) == Some(s.cfg[p])
      case FromConfig =>
        RuntimeValue(app, s, p).None? && ConfigValue(app, s, p).Some? &&
        Decode(app.fl, ty, Zero(app.fl, ty), ConfigValue(app, s, p).value) == Some(s.cfg[p])
      case FromDefault =>
        RuntimeValue(app, s, p).None? && ConfigValue(app, s, p).None? && s.cfg[p] == app.defaults[p]
  {
    assert InEffect(app, s, p);
    SettingNamed(app.sch, p);
    CanonicalItself(app.fl, app.sch, p);
  }

  lemma {:induction false} SettingNamed(sch: Schema, p: Path)
    requires TypeAt(sch, p).Some?
    ensures Leads(sch, p)
    decreases p
  {
    if p != [] {
      SettingNamed(sch.fields[FieldAt(sch.fields, p[0]).value].node, p[1..]);
    }
  }

  /** Some setting below q is staged. */
  ghost predicate AnyBelow(sch: Schema, t: Tree, q: Path) {
    exists p :: q <= p && TypeAt(sch, p).Some? && At(t, p).Some?
  }

  /** A section path takes the highest layer that any setting under it uses. */
  lemma {:induction false} SourceOfSection(app: App, s: Live, q: Path)
    requires WfApp(app) && Inv(app, s) && q != [] && SectionAt(app.sch, q)
    ensures Source(app, s, q) ==
            if AnyBelow(app.sch, s.staged, q) then FromRuntime
            else if AnyBelow(app.sch, s.configSet, q) then FromConfig
            else FromDefault
  {
    CanonicalItself(app.fl, app.sch, q);
    Untouched(app, s.tree, None);
    StagedBelow(app.sch, s.staged, q);
    StagedBelow(app.sch, s.configSet, q);
  }

  predicate SectionAt(sch: Schema, q: Path)
    ensures SectionAt(sch, q) ==> Leads(sch, q)
    decreases q
  {
    sch.Section? &&
    (q == [] ||
     (FieldAt(sch.fields, q[0]).Some? && SectionAt(sch.fields[FieldAt(sch.fields, q[0]).value].node, q[1..])))
  }

  lemma {:induction false} StagedBelow(sch: Schema, t: Tree, q: Path)
    requires Canonical(sch, t) && SectionAt(sch, q) && (q == [] ==> t != NOTHING)
    ensures At(t, q).Some? <==> AnyBelow(sch, t, q)
    decreases q
  {
    if At(t, q).Some? {
      var p := SettingBelow(sch, t, q);
    }
    StagedSection(sch, t, q);
  }

  lemma {:induction false} SettingBelow(sch: Schema, t: Tree, q: Path) returns (p: Path)
    requires Canonical(sch, t) && SectionAt(sch, q) && t != NOTHING && At(t, q).Some?
    ensures q <= p && TypeAt(sch, p).Some? && At(t, p).Some?
    decreases q
  {
    if q == [] {
      p := SomeSetting(sch, t);
    } else {
      assert CanonicalKey(sch, q[0], t.vals[q[0]]);
      var r := SettingBelow(sch.fields[FieldAt(sch.fields, q[0]).value].node, t.vals[q[0]], q[1..]);
      p := [q[0]] + r;
      assert p[1..] == r;
    }
  }
}
