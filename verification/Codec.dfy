/** Decoding layer trees into typed values and encoding them back. Go types are
    replaced by descriptors; the law is that encoding what was decoded, turning it
    into the parsed shape and decoding again gives the same value. */
module Codec {
  import opened Options
  import opened ConfigTexts

  newtype int64 = x: int | -0x8000_0000_0000_0000 <= x < 0x8000_0000_0000_0000

  type Float32(==, !new)
  type Float64(==, !new)

  /** The float conversions the codec uses. */
  datatype Floats = Floats(
    narrow: Float64 -> Float32,
    widen: Float32 -> Float64,
    ofInt: int64 -> Float64,
    ofUint: nat -> Float64)

  /** Widening loses nothing. */
  ghost predicate Exact(fl: Floats) { forall x :: fl.narrow(fl.widen(x)) == x }

  // ----- layer trees -----

  /** A layer tree. Documents parse into strings, integers, 64-bit floats,
      booleans, arrays and dictionaries; encoded values also hold tables, 32-bit
      floats, integers above the signed range, and the mark of an unset option. */
  datatype Tree =
    | Str(s: string)
    | Int(i: int64)
    | Uint(u: nat)
    | F64(f: Float64)
    | F32(g: Float32)
    | Bool(b: bool)
    | Arr(items: seq<Tree>)
    | Dict(vals: map<string, Tree>)
    | Table(vals: map<string, Tree>)
    | Absent

  predicate IsTable(t: Tree) { t.Dict? || t.Table? }

  function Lookup(t: Tree, key: string): Option<Tree> {
    if IsTable(t) && key in t.vals then Some(t.vals[key]) else None
  }

  /** The parsed shape of an encoded tree. */
  function ToPlain(fl: Floats, t: Tree): Tree {
    match t
    case F32(g) => F64(fl.widen(g))
    case Uint(u) => if u < 0x8000_0000_0000_0000 then Int(u as int64) else F64(fl.ofUint(u))
    case Table(vals) => Dict(map k | k in vals :: ToPlain(fl, vals[k]))
    case Arr(items) => Arr(seq(|items|, k requires 0 <= k < |items| => ToPlain(fl, items[k])))
    case _ => t
  }

  // ----- types and values -----

  datatype Ty =
    | TBool
    | TString
    | TEnum(variants: seq<string>)
    | TInt(lo: int, hi: int)
    | TUint(max: nat)
    | TF32
    | TF64
    | TOption(elem: Ty)
    | TList(elem: Ty)
    | TMap(elem: Ty)
    | TStruct(fields: seq<Field>, init: Option<seq<Val>>)
    | TModule
    | TBarItem
    | TCustom(own: Custom)

  /** A leaf type with its own decoding and encoding, which may be anything. */
  datatype Custom = Custom(zero: Val, unmarshal: Tree -> Option<Val>, marshal: Val -> Tree)

  /** A field of a value struct: its keys, whether it must be present, and whether
      layers leave it alone. init of the struct holds hand-written defaults. */
  datatype Field = Field(key: string, others: seq<string>, required: bool, nolayer: bool, ty: Ty)

  datatype Val =
    | VBool(b: bool)
    | VStr(s: string)
    | VInt(i: int)
    | VF32(g: Float32)
    | VF64(f: Float64)
    | VNone
    | VSome(v: Val)
    | VList(items: seq<Val>)
    | VMap(entries: map<string, Val>)
    | VStruct(subs: seq<Val>)
    | VItem(item: BarItem)
    | VClick(click: ClickAction)
    | VWorkspace(action: WorkspaceAction)
    | VColor(color: ColorValue)

  datatype BarItem = BarItem(mod: string, class': string, group: Option<BarGroup>)

  datatype BarGroup = BarGroup(name: string, modules: seq<BarItem>)

  /** Canonical first, then aliases, then deprecated ones. */
  function LookupKeys(f: Field): seq<string> { [f.key] + f.others }

  function FindKey(t: Tree, keys: seq<string>): Option<Tree> {
    if keys == [] then None
    else if Lookup(t, keys[0]).Some? then Lookup(t, keys[0])
    else FindKey(t, keys[1..])
  }

  function Sub(v: Val, i: nat): Val { if v.VStruct? && i < |v.subs| then v.subs[i] else VNone }

  /** A fresh value, before decoding. */
  function Zero(fl: Floats, ty: Ty): Val {
    match ty
    case TBool => VBool(false)
    case TString => VStr("")
    case TEnum(_) => VStr("")
    case TModule => VStr("")
    case TInt(_, _) => VInt(0)
    case TUint(_) => VInt(0)
    case TF32 => VF32(fl.narrow(fl.ofInt(0)))
    case TF64 => VF64(fl.ofInt(0))
    case TOption(_) => VNone
    case TList(_) => VList([])
    case TMap(_) => VMap(map[])
    case TStruct(fields, _) => VStruct(seq(|fields|, k requires 0 <= k < |fields| => Zero(fl, fields[k].ty)))
    case TBarItem => VItem(BarItem("", "", None))
    case TCustom(own) => own.zero
  }

  /** What field i holds before its key is looked at. */
  function Base(ty: Ty, cur: Val, i: nat): Val
    requires ty.TStruct?
  {
    if ty.init.Some? then Sub(VStruct(ty.init.value), i) else Sub(cur, i)
  }

  // ----- bar items -----

  const BUILTIN_MODULES: set<string> := {
    "battery", "bluetooth", "brightness", "cava", "clock", "cpu", "dashboard", "hyprland-workspaces",
    "hyprsunset", "idle-inhibit", "keybind-mode", "keyboard-input", "mail", "media", "mango-workspaces",
    "microphone", "netstat", "network", "niri-workspaces", "notifications", "power", "power-profiles",
    "ram", "recorder", "screenshot", "separator", "storage", "sway-workspaces", "systray", "treeman",
    "updates", "volume", "weather", "window-title", "world-clock"}

  const CUSTOM_PREFIX: string := "custom-"

  predicate IsModule(s: string) {
    if CUSTOM_PREFIX <= s then |s| > |CUSTOM_PREFIX| else s in BUILTIN_MODULES
  }

  function DecodeModule(t: Tree): Option<string> {
    if t.Str? && IsModule(t.s) then Some(t.s) else None
  }

  /** A table with a module and a class, or a bare module name. */
  function DecodeModuleRef(t: Tree): Option<BarItem> {
    if IsTable(t) then
      var m, c := Lookup(t, "module"), Lookup(t, "class");
      if m.Some? && c.Some? && c.value.Str? && DecodeModule(m.value).Some?
      then Some(BarItem(DecodeModule(m.value).value, c.value.s, None)) else None
    else
      var m := DecodeModule(t);
      if m.Some? then Some(BarItem(m.value, "", None)) else None
  }

  function DecodeRefs(ts: seq<Tree>): Option<seq<BarItem>> {
    AllSome(seq(|ts|, k requires 0 <= k < |ts| => DecodeModuleRef(ts[k])))
  }

  function DecodeGroup(t: Tree): Option<BarGroup> {
    var n, ms := Lookup(t, "name"), Lookup(t, "modules");
    if n.Some? && ms.Some? && n.value.Str? && ms.value.Arr? then
      var refs := DecodeRefs(ms.value.items);
      if refs.Some? then Some(BarGroup(n.value.s, refs.value)) else None
    else None
  }

  /** A module reference first, then a group. */
  function DecodeBarItem(t: Tree): Option<BarItem> {
    var ref := DecodeModuleRef(t);
    if ref.Some? then ref
    else
      var g := DecodeGroup(t);
      if g.Some? then Some(BarItem("", "", g)) else None
  }

  function EncodeBarItem(item: BarItem): Tree {
    if item.group.Some? then
      var g := item.group.value;
      Table(map["name" := Str(g.name),
                "modules" := Arr(seq(|g.modules|, k requires 0 <= k < |g.modules| => EncodeBarItem(g.modules[k])))])
    else if item.class' != "" then Table(map["module" := Str(item.mod), "class" := Str(item.class')])
    else Str(item.mod)
  }

  // ----- decoding -----

  /** The values, when all are there. */
  function AllSome<T>(vs: seq<Option<T>>): (r: Option<seq<T>>)
    ensures r.Some? <==> forall k | 0 <= k < |vs| :: vs[k].Some?
    ensures r.Some? ==> |r.value| == |vs| && forall k | 0 <= k < |vs| :: vs[k] == Some(r.value[k])
  {
    if forall k | 0 <= k < |vs| :: vs[k].Some?
    then Some(seq(|vs|, k requires 0 <= k < |vs| && vs[k].Some? => vs[k].value)) else None
  }

  function AllSomeMap<T>(vs: map<string, Option<T>>): (r: Option<map<string, T>>)
    ensures r.Some? <==> forall k | k in vs :: vs[k].Some?
    ensures r.Some? ==> r.value.Keys == vs.Keys && forall k | k in vs :: vs[k] == Some(r.value[k])
  {
    if forall k | k in vs :: vs[k].Some? then Some(map k | k in vs && vs[k].Some? :: vs[k].value) else None
  }

  /** A tree as a value of the type, over the value already there; None for a tree
      the type rejects. */
  function Decode(fl: Floats, ty: Ty, cur: Val, t: Tree): Option<Val>
    decreases ty, 0
  {
    match ty
    case TBool => if t.Bool? then Some(VBool(t.b)) else None
    case TString => if t.Str? then Some(VStr(t.s)) else None
    case TEnum(variants) => if t.Str? && t.s in variants then Some(VStr(t.s)) else None
    case TModule => if DecodeModule(t).Some? then Some(VStr(DecodeModule(t).value)) else None
    case TInt(lo, hi) => if t.Int? && lo <= t.i as int <= hi then Some(VInt(t.i as int)) else None
    case TUint(max) => if t.Int? && 0 <= t.i as int <= max then Some(VInt(t.i as int)) else None
    case TF32 =>
      if t.F64? then Some(VF32(fl.narrow(t.f)))
      else if t.Int? then Some(VF32(fl.narrow(fl.ofInt(t.i))))
      else None
    case TF64 => if t.F64? then Some(VF64(t.f)) else if t.Int? then Some(VF64(fl.ofInt(t.i))) else None
    case TOption(e) =>
      var v := Decode(fl, e, Zero(fl, e), t);
      if v.Some? then Some(VSome(v.value)) else None
    case TList(e) =>
      var vs := if t.Arr? then AllSome(ItemDecodings(fl, e, t.items)) else None;
      if vs.Some? then Some(VList(vs.value)) else None
    case TMap(e) =>
      var vs := if IsTable(t) then AllSomeMap(EntryDecodings(fl, e, t.vals)) else None;
      if vs.Some? then Some(VMap(vs.value)) else None
    case TStruct(_, _) =>
      var vs := if IsTable(t) then AllSome(FieldDecodings(fl, ty, cur, t)) else None;
      if vs.Some? then Some(VStruct(vs.value)) else None
    case TBarItem =>
      var item := DecodeBarItem(t);
      if item.Some? then Some(VItem(item.value)) else None
    case TCustom(own) => own.unmarshal(t)
  }

  function ItemDecodings(fl: Floats, e: Ty, ts: seq<Tree>): seq<Option<Val>>
    decreases e, 1
  {
    seq(|ts|, k requires 0 <= k < |ts| => Decode(fl, e, Zero(fl, e), ts[k]))
  }

  function EntryDecodings(fl: Floats, e: Ty, ts: map<string, Tree>): map<string, Option<Val>>
    decreases e, 1
  {
    map k | k in ts :: Decode(fl, e, Zero(fl, e), ts[k])
  }

  function FieldDecodings(fl: Floats, ty: Ty, cur: Val, t: Tree): seq<Option<Val>>
    requires ty.TStruct?
    decreases ty.fields, 2
  {
    seq(|ty.fields|, i requires 0 <= i < |ty.fields| => DecodeField(fl, ty.fields[i], Base(ty, cur, i), t))
  }

  /** A field of a value struct: its first present key, else what it held. */
  function DecodeField(fl: Floats, f: Field, base: Val, t: Tree): Option<Val>
    decreases f.ty, 1
  {
    if f.nolayer then Some(base)
    else
      match FindKey(t, LookupKeys(f))
      case None => if f.required then None else Some(base)
      case Some(val) => Decode(fl, f.ty, base, val)
  }

  // ----- encoding -----

  function Encode(ty: Ty, v: Val): Tree
    decreases ty
  {
    match (ty, v)
    case (TCustom(own), _) => own.marshal(v)
    case (TBool, VBool(b)) => Bool(b)
    case (TString, VStr(s)) => Str(s)
    case (TEnum(_), VStr(s)) => Str(s)
    case (TModule, VStr(s)) => Str(s)
    case (TInt(_, _), VInt(i)) => EncodeInt(i)
    case (TUint(_), VInt(i)) => EncodeInt(i)
    case (TF32, VF32(g)) => F32(g)
    case (TF64, VF64(f)) => F64(f)
    case (TOption(e), VSome(w)) => Encode(e, w)
    case (TList(e), VList(vs)) => Arr(seq(|vs|, k requires 0 <= k < |vs| => Encode(e, vs[k])))
    case (TMap(e), VMap(m)) => Table(map k | k in m && Encode(e, m[k]) != Absent :: Encode(e, m[k]))
    case (TStruct(fields, _), VStruct(vs)) =>
      if |vs| != |fields| then Absent
      else Table(map k |
             && k in EncodedKeys(fields)
             && Encode(fields[IndexOfKey(fields, k)].ty, vs[IndexOfKey(fields, k)]) != Absent ::
             Encode(fields[IndexOfKey(fields, k)].ty, vs[IndexOfKey(fields, k)]))
    case (TBarItem, VItem(item)) => EncodeBarItem(item)
    case _ => Absent
  }

  function EncodeInt(i: int): Tree {
    if -0x8000_0000_0000_0000 <= i < 0x8000_0000_0000_0000 then Int(i as int64)
    else if i >= 0 then Uint(i)
    else Absent
  }

  function EncodedKeys(fields: seq<Field>): set<string> {
    set i | 0 <= i < |fields| :: fields[i].key
  }

  /** The field a canonical key belongs to. */
  function IndexOfKey(fields: seq<Field>, key: string): (i: nat)
    requires key in EncodedKeys(fields)
    ensures i < |fields| && fields[i].key == key
  {
    if fields[0].key == key then 0
    else
      assert key in EncodedKeys(fields[1..]) by {
        var i :| 0 <= i < |fields| && fields[i].key == key;
        assert fields[1..][i - 1].key == key;
      }
      IndexOfKey(fields[1..], key) + 1
  }

  // ----- clamped numbers -----

  function Clamp(i: int, lo: int, hi: int): int { if i < lo then lo else if i > hi then hi else i }

  /** An unsigned number of the primitive's range, clamped rather than rejected. */
  function Clamped(max: nat, lo: nat, hi: nat): Custom {
    Custom(VInt(0),
           (t: Tree) => if t.Int? && 0 <= t.i as int <= max then Some(VInt(Clamp(t.i as int, lo, hi))) else None,
           (v: Val) => if v.VInt? then EncodeInt(v.i) else Absent)
  }

  // ----- settings given as one string -----

  const CLICK_ACTION: Custom :=
    Custom(VClick(NO_CLICK),
           (t: Tree) => if t.Str? then Some(VClick(ParseClick(t.s))) else None,
           (v: Val) => if v.VClick? then Str(v.click.Text()) else Absent)

  const WORKSPACE_ACTION: Custom :=
    Custom(VWorkspace(WorkspaceAction(WorkspaceNone, "")),
           (t: Tree) => if t.Str? then Some(VWorkspace(ParseWorkspaceClick(t.s))) else None,
           (v: Val) => if v.VWorkspace? then Str(v.action.Text()) else Absent)

  const COLOR: Custom :=
    Custom(VColor(ColorValue(ColorAuto, "", "")),
           (t: Tree) => if t.Str? && ParseColor(t.s).Some? then Some(VColor(ParseColor(t.s).value)) else None,
           (v: Val) => if v.VColor? then Str(v.color.Text()) else Absent)

  const HEX_COLOR: Custom :=
    Custom(VStr(""),
           (t: Tree) => if t.Str? && IsHexColor(t.s) then Some(VStr(t.s)) else None,
           (v: Val) => if v.VStr? then Str(v.s) else Absent)
}
