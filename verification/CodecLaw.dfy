/** The codec law: whenever a tree decodes to a value, encoding that value, taking
    the parsed shape and decoding again gives the same value - exactly when every
    default that decoding fell back on is itself a value that can be written and
    read. */
module CodecLaw {
  import opened Options
  import opened Codec
  import opened ConfigTexts

  /** No key names two fields, here and in every nested struct, and types with their
      own codec write what they read. */
  ghost predicate WfTy(fl: Floats, ty: Ty) {
    match ty
    case TOption(e) => WfTy(fl, e)
    case TList(e) => WfTy(fl, e)
    case TMap(e) => WfTy(fl, e)
    case TCustom(own) => forall t :: ReadsBack(fl, own, t)
    case TStruct(fields, _) =>
      && Distinct(fields)
      && forall i | 0 <= i < |fields| :: WfTy(fl, fields[i].ty)
    case _ => true
  }

  /** What a type's own decoding makes of t is written as something that it decodes to
      the same again. */
  ghost predicate ReadsBack(fl: Floats, own: Custom, t: Tree) {
    own.unmarshal(t).Some? ==>
      var v := own.unmarshal(t).value;
      own.marshal(v) != Absent && own.unmarshal(ToPlain(fl, own.marshal(v))) == Some(v)
  }

  /** Clamped numbers do. */
  lemma {:induction false} ClampedReadsBack(fl: Floats, max: nat, lo: nat, hi: nat)
    requires lo <= hi <= max && lo < 0x8000_0000_0000_0000
    ensures WfTy(fl, TCustom(Clamped(max, lo, hi)))
  {
    var own := Clamped(max, lo, hi);
    forall t ensures ReadsBack(fl, own, t) {
      if own.unmarshal(t).Some? {
        var i := Clamp(t.i as int, lo, hi);
        assert own.unmarshal(t) == Some(VInt(i)) && own.marshal(VInt(i)) == Int(i as int64);
      }
    }
  }

  /** So do actions and colours. */
  lemma {:induction false} TextsReadBack(fl: Floats, own: Custom)
    requires own in {CLICK_ACTION, WORKSPACE_ACTION, COLOR, HEX_COLOR}
    ensures WfTy(fl, TCustom(own))
  {
    forall t ensures ReadsBack(fl, own, t) {
      if own.unmarshal(t).Some? {
        TextReadsBack(fl, own, t);
      }
    }
  }

  lemma {:induction false} TextReadsBack(fl: Floats, own: Custom, t: Tree)
    requires own in {CLICK_ACTION, WORKSPACE_ACTION, COLOR, HEX_COLOR} && own.unmarshal(t).Some?
    ensures ReadsBack(fl, own, t)
  {
    var v := own.unmarshal(t).value;
    if own == CLICK_ACTION {
      ParsedClickProper(t.s);
      ClickReadsBack(v.click);
    } else if own == WORKSPACE_ACTION {
      WorkspaceReadsBack(t.s, v.action);
    } else if own == COLOR {
      ColorReadsBack(t.s, v.color);
    }
  }

  ghost predicate Distinct(fields: seq<Field>) {
    forall i, j | 0 <= i < |fields| && 0 <= j < |fields| && i != j :: Apart(fields[i], fields[j])
  }

  ghost predicate Apart(f: Field, g: Field) {
    forall k :: !(k in LookupKeys(f) && k in LookupKeys(g))
  }

  /** Writing v and reading it back over cur gives v. */
  predicate Reproduces(fl: Floats, ty: Ty, cur: Val, v: Val) {
    Decode(fl, ty, cur, ToPlain(fl, Encode(ty, v))) == Some(v)
  }

  /** Every default taken for a key that t lacks is unset or reproduces. */
  predicate Filled(fl: Floats, ty: Ty, cur: Val, t: Tree)
    decreases ty, 0
  {
    match ty
    case TOption(e) => Filled(fl, e, Zero(fl, e), t)
    case TList(e) => t.Arr? ==> forall k | 0 <= k < |t.items| :: Filled(fl, e, Zero(fl, e), t.items[k])
    case TMap(e) => IsTable(t) ==> forall k | k in t.vals :: Filled(fl, e, Zero(fl, e), t.vals[k])
    case TStruct(fields, _) => forall i | 0 <= i < |fields| :: FieldFilled(fl, fields[i], Base(ty, cur, i), t)
    case _ => true
  }

  predicate FieldFilled(fl: Floats, f: Field, base: Val, t: Tree)
    decreases f.ty, 1
  {
    f.nolayer ||
    match FindKey(t, LookupKeys(f))
    case None => DefaultStorable(fl, f.ty, base)
    case Some(val) => Filled(fl, f.ty, base, val)
  }

  predicate DefaultStorable(fl: Floats, ty: Ty, default: Val) {
    Encode(ty, default) == Absent || Storable(fl, ty, default, default)
  }

  // ----- what can be written and read back -----

  /** v is one of the type's values that a document can hold: in the type's range and
      in that of a document's integers, among the variants, set; a struct has what it
      held before in each field that layers leave alone or that is unset. */
  predicate Storable(fl: Floats, ty: Ty, cur: Val, v: Val)
    decreases ty, 0
  {
    match ty
    case TBool => v.VBool?
    case TString => v.VStr?
    case TEnum(variants) => v.VStr? && v.s in variants
    case TModule => v.VStr? && IsModule(v.s)
    case TInt(lo, hi) => v.VInt? && lo <= v.i <= hi && -0x8000_0000_0000_0000 <= v.i < 0x8000_0000_0000_0000
    case TUint(max) => v.VInt? && 0 <= v.i <= max && v.i < 0x8000_0000_0000_0000
    case TF32 => v.VF32?
    case TF64 => v.VF64?
    case TOption(e) => v.VSome? && Storable(fl, e, Zero(fl, e), v.v)
    case TList(e) => v.VList? && forall k | 0 <= k < |v.items| :: Storable(fl, e, Zero(fl, e), v.items[k])
    case TMap(e) => v.VMap? && forall k | k in v.entries :: EntryStorable(fl, e, v.entries[k])
    case TStruct(fields, _) =>
      && v.VStruct? && |v.subs| == |fields|
      && forall i | 0 <= i < |fields| :: FieldStorable(fl, fields[i], Base(ty, cur, i), v.subs[i])
    case TBarItem => v.VItem? && ItemStorable(v.item)
    case TCustom(own) => own.unmarshal(ToPlain(fl, own.marshal(v))) == Some(v)
  }

  predicate EntryStorable(fl: Floats, e: Ty, v: Val)
    decreases e, 1
  {
    Encode(e, v) != Absent && Storable(fl, e, Zero(fl, e), v)
  }

  predicate FieldStorable(fl: Floats, f: Field, base: Val, v: Val)
    decreases f.ty, 1
  {
    if f.nolayer then v == base
    else if Encode(f.ty, v) == Absent then !f.required && v == base
    else Storable(fl, f.ty, base, v)
  }

  /** A module reference, or a group of them with nothing else set. */
  predicate ItemStorable(item: BarItem) {
    if item.group.None? then IsModule(item.mod)
    else item.mod == "" && item.class' == "" && forall m | m in item.group.value.modules :: RefStorable(m)
  }

  predicate RefStorable(item: BarItem) { item.group.None? && IsModule(item.mod) }

  // ----- decoded values are present -----

  lemma {:induction false} BarItemPresent(item: BarItem)
    ensures EncodeBarItem(item) != Absent
  {
  }

  lemma {:induction false} DecodedPresent(fl: Floats, ty: Ty, cur: Val, t: Tree)
    requires WfTy(fl, ty) && Decode(fl, ty, cur, t).Some?
    ensures Encode(ty, Decode(fl, ty, cur, t).value) != Absent
    decreases ty
  {
    match ty
    case TOption(e) => DecodedPresent(fl, e, Zero(fl, e), t);
    case TBarItem => BarItemPresent(DecodeBarItem(t).value);
    case TCustom(own) => assert ReadsBack(fl, own, t);
    case _ => PlainPresent(fl, ty, cur, t);
  }

  lemma {:induction false} PlainPresent(fl: Floats, ty: Ty, cur: Val, t: Tree)
    requires !ty.TOption? && !ty.TBarItem? && !ty.TCustom? && Decode(fl, ty, cur, t).Some?
    ensures Encode(ty, Decode(fl, ty, cur, t).value) != Absent
  {
  }

  // ----- bar items -----

  function PlainItems(fl: Floats, items: seq<BarItem>): (ts: seq<Tree>)
    ensures |ts| == |items| && forall k | 0 <= k < |items| :: ts[k] == ToPlain(fl, EncodeBarItem(items[k]))
  {
    seq(|items|, k requires 0 <= k < |items| => ToPlain(fl, EncodeBarItem(items[k])))
  }

  /** The union instance: module references and groups of them. */
  lemma {:induction false} BarItemRoundTrip(fl: Floats, t: Tree)
    requires DecodeBarItem(t).Some?
    ensures DecodeBarItem(ToPlain(fl, EncodeBarItem(DecodeBarItem(t).value))) == DecodeBarItem(t)
  {
    var item := DecodeBarItem(t).value;
    DecodedItem(t);
    ItemReproduces(fl, item);
  }

  // ----- structs -----

  lemma {:induction false} NoKey(t: Tree, keys: seq<string>)
    requires forall k | k in keys :: Lookup(t, k).None?
    ensures FindKey(t, keys).None?
  {
    if keys != [] {
      NoKey(t, keys[1..]);
    }
  }

  lemma {:induction false} IndexUnique(fields: seq<Field>, i: nat)
    requires i < |fields| && Distinct(fields)
    ensures fields[i].key in EncodedKeys(fields) && IndexOfKey(fields, fields[i].key) == i
  {
    var j := IndexOfKey(fields, fields[i].key);
    assert fields[i].key in LookupKeys(fields[i]) && fields[j].key in LookupKeys(fields[j]);
  }

  /** In an encoded struct a field is found under its canonical key, when set. */
  lemma {:induction false} FieldInPlain(fl: Floats, ty: Ty, vs: seq<Val>, i: nat)
    requires ty.TStruct? && WfTy(fl, ty) && |vs| == |ty.fields| && i < |vs|
    ensures
      var e := Encode(ty.fields[i].ty, vs[i]);
      FindKey(ToPlain(fl, Encode(ty, VStruct(vs))), LookupKeys(ty.fields[i])) ==
        if e == Absent then None else Some(ToPlain(fl, e))
  {
    var fields, p := ty.fields, ToPlain(fl, Encode(ty, VStruct(vs)));
    var f := fields[i];
    IndexUnique(fields, i);
    var keys := LookupKeys(f);
    assert keys[0] == f.key;
    if Encode(f.ty, vs[i]) == Absent {
      forall k | k in keys ensures Lookup(p, k).None? {
        OtherKey(fields, i, k);
      }
      NoKey(p, keys);
    }
  }

  /** A key of field i is no other field's canonical key. */
  lemma {:induction false} OtherKey(fields: seq<Field>, i: nat, k: string)
    requires i < |fields| && k in LookupKeys(fields[i])
    requires Distinct(fields)
    ensures k in EncodedKeys(fields) ==> IndexOfKey(fields, k) == i
  {
    if k in EncodedKeys(fields) {
      var j := IndexOfKey(fields, k);
      assert k in LookupKeys(fields[j]);
    }
  }

  // ----- what decoding accepts -----

  /** v is a value of the type: in range, among the variants, its elements too. A
      struct's field may also be what it held before, unless its key is required. */
  ghost predicate Admits(fl: Floats, ty: Ty, cur: Val, v: Val)
    decreases ty, 0
  {
    match ty
    case TBool => v.VBool?
    case TString => v.VStr?
    case TEnum(variants) => v.VStr? && v.s in variants
    case TModule => v.VStr? && IsModule(v.s)
    case TInt(lo, hi) => v.VInt? && lo <= v.i <= hi
    case TUint(max) => v.VInt? && 0 <= v.i <= max
    case TF32 => v.VF32?
    case TF64 => v.VF64?
    case TOption(e) => v.VSome? && Admits(fl, e, Zero(fl, e), v.v)
    case TList(e) => v.VList? && forall k | 0 <= k < |v.items| :: Admits(fl, e, Zero(fl, e), v.items[k])
    case TMap(e) => v.VMap? && forall k | k in v.entries :: Admits(fl, e, Zero(fl, e), v.entries[k])
    case TStruct(fields, _) =>
      && v.VStruct? && |v.subs| == |fields|
      && forall i | 0 <= i < |fields| :: FieldAdmits(fl, fields[i], Base(ty, cur, i), v.subs[i])
    case TBarItem => v.VItem? && ItemAdmitted(v.item)
    case TCustom(own) => exists t :: own.unmarshal(t) == Some(v)
  }

  ghost predicate FieldAdmits(fl: Floats, f: Field, base: Val, v: Val)
    decreases f.ty, 1
  {
    if f.nolayer then v == base
    else (!f.required && v == base) || Admits(fl, f.ty, base, v)
  }

  /** A module, or a group of modules and not of groups. */
  predicate ItemAdmitted(item: BarItem) {
    if item.group.None? then IsModule(item.mod)
    else forall m | m in item.group.value.modules :: m.group.None? && IsModule(m.mod)
  }

  lemma {:induction false} DecodedAdmitted(fl: Floats, ty: Ty, cur: Val, t: Tree)
    requires Decode(fl, ty, cur, t).Some?
    ensures Admits(fl, ty, cur, Decode(fl, ty, cur, t).value)
    decreases ty
  {
    var v := Decode(fl, ty, cur, t).value;
    match ty
    case TOption(e) => DecodedAdmitted(fl, e, Zero(fl, e), t);
    case TList(e) =>
      ListDecodes(fl, ty, cur, t, v);
      forall k | 0 <= k < |t.items| ensures Admits(fl, e, Zero(fl, e), v.items[k]) {
        DecodedAdmitted(fl, e, Zero(fl, e), t.items[k]);
      }
    case TMap(e) =>
      MapDecodes(fl, ty, cur, t, v);
      forall k | k in t.vals ensures Admits(fl, e, Zero(fl, e), v.entries[k]) {
        DecodedAdmitted(fl, e, Zero(fl, e), t.vals[k]);
      }
    case TStruct(fields, _) =>
      StructDecodes(fl, ty, cur, t, v);
      forall i | 0 <= i < |fields| ensures FieldAdmits(fl, fields[i], Base(ty, cur, i), v.subs[i]) {
        assert DecodeField(fl, ty.fields[i], Base(ty, cur, i), t) == Some(v.subs[i]);
        var found := FindKey(t, LookupKeys(fields[i]));
        if !fields[i].nolayer && found.Some? {
          DecodedAdmitted(fl, fields[i].ty, Base(ty, cur, i), found.value);
        }
      }
    case TBarItem => DecodedItem(t);
    case _ =>
  }

  lemma {:induction false} DecodedItem(t: Tree)
    requires DecodeBarItem(t).Some?
    ensures ItemAdmitted(DecodeBarItem(t).value)
  {
    var item := DecodeBarItem(t).value;
    if item.group.Some? {
      var ts, ms := Lookup(t, "modules").value.items, item.group.value.modules;
      forall m | m in ms ensures m.group.None? && IsModule(m.mod) {
        var k :| 0 <= k < |ms| && ms[k] == m;
        assert DecodeModuleRef(ts[k]) == Some(m);
      }
    }
  }

  /** A list decodes to v when each item decodes to v's. */
  lemma {:induction false} ListDecodes(fl: Floats, ty: Ty, cur: Val, t: Tree, v: Val)
    requires ty.TList? && t.Arr? && v.VList? && |v.items| == |t.items|
    ensures Decode(fl, ty, cur, t) == Some(v) <==>
            forall k | 0 <= k < |t.items| :: Decode(fl, ty.elem, Zero(fl, ty.elem), t.items[k]) == Some(v.items[k])
  {
    var e := ty.elem;
    var vs := ItemDecodings(fl, e, t.items);
    var all := AllSome(vs);
    if forall k | 0 <= k < |t.items| :: Decode(fl, e, Zero(fl, e), t.items[k]) == Some(v.items[k]) {
      assert forall k | 0 <= k < |vs| :: vs[k] == Some(v.items[k]);
      assert all.value == v.items;
    }
    if Decode(fl, ty, cur, t) == Some(v) {
      assert forall k | 0 <= k < |vs| :: vs[k] == Some(v.items[k]);
    }
  }

  /** A map decodes to v when each entry decodes to v's. */
  lemma {:induction false} MapDecodes(fl: Floats, ty: Ty, cur: Val, t: Tree, v: Val)
    requires ty.TMap? && IsTable(t) && v.VMap? && (Decode(fl, ty, cur, t) == Some(v) || v.entries.Keys == t.vals.Keys)
    ensures v.entries.Keys == t.vals.Keys
    ensures Decode(fl, ty, cur, t) == Some(v) <==>
            forall k | k in t.vals :: Decode(fl, ty.elem, Zero(fl, ty.elem), t.vals[k]) == Some(v.entries[k])
  {
    var e := ty.elem;
    var vs := EntryDecodings(fl, e, t.vals);
    var all := AllSomeMap(vs);
    assert vs.Keys == t.vals.Keys;
    if v.entries.Keys == t.vals.Keys &&
       forall k | k in t.vals :: Decode(fl, e, Zero(fl, e), t.vals[k]) == Some(v.entries[k])
    {
      assert forall k | k in vs :: vs[k] == Some(v.entries[k]);
      assert all.value == v.entries;
    }
    if Decode(fl, ty, cur, t) == Some(v) {
      assert forall k | k in vs :: vs[k] == Some(v.entries[k]);
    }
  }

  /** A struct decodes to v when each field decodes to v's. */
  lemma {:induction false} StructDecodes(fl: Floats, ty: Ty, cur: Val, t: Tree, v: Val)
    requires ty.TStruct? && IsTable(t) && v.VStruct? && |v.subs| == |ty.fields|
    ensures Decode(fl, ty, cur, t) == Some(v) <==>
            forall i | 0 <= i < |ty.fields| :: DecodeField(fl, ty.fields[i], Base(ty, cur, i), t) == Some(v.subs[i])
  {
    var vs := FieldDecodings(fl, ty, cur, t);
    var all := AllSome(vs);
    if forall i | 0 <= i < |ty.fields| :: DecodeField(fl, ty.fields[i], Base(ty, cur, i), t) == Some(v.subs[i]) {
      assert forall k | 0 <= k < |vs| :: vs[k] == Some(v.subs[k]);
      assert all.value == v.subs;
    }
    if Decode(fl, ty, cur, t) == Some(v) {
      assert forall k | 0 <= k < |vs| :: vs[k] == Some(v.subs[k]);
    }
  }

  // ----- what is storable is what reproduces -----

  /** A value can be written and read back over cur if and only if it is storable. */
  lemma {:induction false} StorableReproduces(fl: Floats, ty: Ty, cur: Val, v: Val)
    requires Exact(fl) && WfTy(fl, ty)
    ensures Storable(fl, ty, cur, v) <==> Reproduces(fl, ty, cur, v)
    decreases ty, 1
  {
    match ty
    case TOption(_) => OptionStorable(fl, ty, cur, v);
    case TList(e) => ListStorable(fl, ty, cur, v);
    case TMap(e) => MapStorable(fl, ty, cur, v);
    case TStruct(_, _) => StructStorable(fl, ty, cur, v);
    case TBarItem => BarItemStorable(fl, ty, cur, v);
    case _ => LeafStorable(fl, ty, cur, v);
  }

  predicate IsLeaf(ty: Ty) {
    !(ty.TOption? || ty.TList? || ty.TMap? || ty.TStruct? || ty.TBarItem?)
  }

  lemma {:induction false} LeafStorable(fl: Floats, ty: Ty, cur: Val, v: Val)
    requires Exact(fl) && IsLeaf(ty)
    ensures Storable(fl, ty, cur, v) <==> Reproduces(fl, ty, cur, v)
  {
  }

  lemma {:induction false} BarItemStorable(fl: Floats, ty: Ty, cur: Val, v: Val)
    requires ty.TBarItem?
    ensures Storable(fl, ty, cur, v) <==> Reproduces(fl, ty, cur, v)
  {
    if v.VItem? {
      ItemReproduces(fl, v.item);
    }
  }

  lemma {:induction false} OptionStorable(fl: Floats, ty: Ty, cur: Val, v: Val)
    requires Exact(fl) && ty.TOption? && WfTy(fl, ty)
    ensures Storable(fl, ty, cur, v) <==> Reproduces(fl, ty, cur, v)
    decreases ty, 0
  {
    if v.VSome? {
      StorableReproduces(fl, ty.elem, Zero(fl, ty.elem), v.v);
    }
  }

  lemma {:induction false} ListStorable(fl: Floats, ty: Ty, cur: Val, v: Val)
    requires Exact(fl) && ty.TList? && WfTy(fl, ty)
    ensures Storable(fl, ty, cur, v) <==> Reproduces(fl, ty, cur, v)
    decreases ty, 0
  {
    if v.VList? {
      var e, p := ty.elem, ToPlain(fl, Encode(ty, v));
      forall k | 0 <= k < |v.items|
        ensures Storable(fl, e, Zero(fl, e), v.items[k]) <==> Decode(fl, e, Zero(fl, e), p.items[k]) == Some(v.items[k])
      {
        StorableReproduces(fl, e, Zero(fl, e), v.items[k]);
      }
      ListDecodes(fl, ty, cur, p, v);
    }
  }

  lemma {:induction false} MapStorable(fl: Floats, ty: Ty, cur: Val, v: Val)
    requires Exact(fl) && ty.TMap? && WfTy(fl, ty)
    ensures Storable(fl, ty, cur, v) <==> Reproduces(fl, ty, cur, v)
    decreases ty, 0
  {
    if v.VMap? {
      var e, p := ty.elem, ToPlain(fl, Encode(ty, v));
      forall k | k in p.vals
        ensures EntryStorable(fl, e, v.entries[k]) <==> Decode(fl, e, Zero(fl, e), p.vals[k]) == Some(v.entries[k])
      {
        StorableReproduces(fl, e, Zero(fl, e), v.entries[k]);
      }
      MapWritten(fl, ty, cur, v);
    }
  }

  /** A map is read back if and only if no entry is left out and each is read back. */
  lemma {:induction false} MapWritten(fl: Floats, ty: Ty, cur: Val, v: Val)
    requires ty.TMap? && v.VMap?
    ensures
      var e, p := ty.elem, ToPlain(fl, Encode(ty, v));
      && p.Dict? && p.vals.Keys <= v.entries.Keys
      && (forall k | k in v.entries :: k in p.vals <==> Encode(e, v.entries[k]) != Absent)
      && (Reproduces(fl, ty, cur, v) <==>
          forall k | k in v.entries :: k in p.vals && Decode(fl, e, Zero(fl, e), p.vals[k]) == Some(v.entries[k]))
  {
    var e, p := ty.elem, ToPlain(fl, Encode(ty, v));
    EntriesWritten(fl, ty, v);
    if p.vals.Keys == v.entries.Keys || Reproduces(fl, ty, cur, v) {
      MapDecodes(fl, ty, cur, p, v);
    }
  }

  /** The entries of a written map. */
  lemma {:induction false} EntriesWritten(fl: Floats, ty: Ty, v: Val)
    requires ty.TMap? && v.VMap?
    ensures
      var p := ToPlain(fl, Encode(ty, v));
      && p.Dict? && p.vals.Keys <= v.entries.Keys
      && forall k | k in v.entries :: k in p.vals <==> Encode(ty.elem, v.entries[k]) != Absent
  {
  }

  lemma {:induction false} StructStorable(fl: Floats, ty: Ty, cur: Val, v: Val)
    requires Exact(fl) && ty.TStruct? && WfTy(fl, ty)
    ensures Storable(fl, ty, cur, v) <==> Reproduces(fl, ty, cur, v)
    decreases ty, 0, 1
  {
    if v.VStruct? && |v.subs| == |ty.fields| {
      var p := ToPlain(fl, Encode(ty, v));
      forall i | 0 <= i < |ty.fields|
        ensures FieldStorable(fl, ty.fields[i], Base(ty, cur, i), v.subs[i]) <==>
                DecodeField(fl, ty.fields[i], Base(ty, cur, i), p) == Some(v.subs[i])
      {
        FieldReproduces(fl, ty, cur, v.subs, i);
      }
      StructDecodes(fl, ty, cur, p, v);
    }
  }

  lemma {:induction false} FieldReproduces(fl: Floats, ty: Ty, cur: Val, vs: seq<Val>, i: nat)
    requires Exact(fl) && ty.TStruct? && WfTy(fl, ty) && |vs| == |ty.fields| && i < |vs|
    ensures FieldStorable(fl, ty.fields[i], Base(ty, cur, i), vs[i]) <==>
            DecodeField(fl, ty.fields[i], Base(ty, cur, i), ToPlain(fl, Encode(ty, VStruct(vs)))) == Some(vs[i])
    decreases ty, 0, 0
  {
    FieldInPlain(fl, ty, vs, i);
    StorableReproduces(fl, ty.fields[i].ty, Base(ty, cur, i), vs[i]);
  }

  lemma {:induction false} ItemReproduces(fl: Floats, item: BarItem)
    ensures ItemStorable(item) <==> DecodeBarItem(ToPlain(fl, EncodeBarItem(item))) == Some(item)
  {
    if item.group.None? {
      RefReproduces(fl, item);
    } else {
      GroupReproduces(fl, item);
    }
  }

  lemma {:induction false} RefReproduces(fl: Floats, item: BarItem)
    ensures RefStorable(item) <==> DecodeModuleRef(ToPlain(fl, EncodeBarItem(item))) == Some(item)
    ensures item.group.None? ==> DecodeGroup(ToPlain(fl, EncodeBarItem(item))).None?
  {
    if item.group.Some? {
      GroupPlain(fl, item);
    } else if item.class' != "" {
      ClassPlain(fl, item);
    }
  }

  /** What a module reference with a class is written as. */
  lemma {:induction false} ClassPlain(fl: Floats, item: BarItem)
    requires item.group.None? && item.class' != ""
    ensures
      var p := ToPlain(fl, EncodeBarItem(item));
      && IsTable(p)
      && Lookup(p, "module") == Some(Str(item.mod))
      && Lookup(p, "class") == Some(Str(item.class'))
      && Lookup(p, "name").None?
  {
    var e := EncodeBarItem(item);
    var p := ToPlain(fl, e);
    assert |"name"| == 4 && |"module"| == 6 && |"class"| == 5;
    assert e.vals["module"] == Str(item.mod) && e.vals["class"] == Str(item.class') && "name" !in e.vals;
    assert p.vals["module"] == ToPlain(fl, Str(item.mod)) && p.vals["class"] == ToPlain(fl, Str(item.class'));
  }

  lemma {:induction false} GroupReproduces(fl: Floats, item: BarItem)
    requires item.group.Some?
    ensures ItemStorable(item) <==> DecodeBarItem(ToPlain(fl, EncodeBarItem(item))) == Some(item)
  {
    var g, p := item.group.value, ToPlain(fl, EncodeBarItem(item));
    var ps := PlainItems(fl, g.modules);
    GroupPlain(fl, item);
    RefsReproduce(fl, g.modules);
    assert DecodeModuleRef(p).None?;
    if DecodeRefs(ps) == Some(g.modules) {
      assert DecodeGroup(p) == Some(g);
    }
  }

  /** What a group is written as. */
  lemma {:induction false} GroupPlain(fl: Floats, item: BarItem)
    requires item.group.Some?
    ensures
      var g, p := item.group.value, ToPlain(fl, EncodeBarItem(item));
      && Lookup(p, "module").None?
      && Lookup(p, "name") == Some(Str(g.name))
      && Lookup(p, "modules") == Some(Arr(PlainItems(fl, g.modules)))
      && IsTable(p)
  {
    var g, e := item.group.value, EncodeBarItem(item);
    var p := ToPlain(fl, e);
    var encoded := seq(|g.modules|, k requires 0 <= k < |g.modules| => EncodeBarItem(g.modules[k]));
    assert |"name"| == 4 && |"modules"| == 7 && |"module"| == 6;
    assert e.vals["name"] == Str(g.name) && e.vals["modules"] == Arr(encoded) && "module" !in e.vals;
    assert p.vals["name"] == ToPlain(fl, Str(g.name)) && p.vals["modules"] == ToPlain(fl, Arr(encoded));
    assert ToPlain(fl, Arr(encoded)).items == PlainItems(fl, g.modules);
  }

  lemma {:induction false} RefsReproduce(fl: Floats, items: seq<BarItem>)
    ensures (forall m | m in items :: RefStorable(m)) <==> DecodeRefs(PlainItems(fl, items)) == Some(items)
  {
    var ps := PlainItems(fl, items);
    var vs := seq(|ps|, k requires 0 <= k < |ps| => DecodeModuleRef(ps[k]));
    forall k | 0 <= k < |items| ensures RefStorable(items[k]) <==> vs[k] == Some(items[k]) {
      RefReproduces(fl, items[k]);
    }
    if forall m | m in items :: RefStorable(m) {
      assert forall k | 0 <= k < |vs| :: vs[k] == Some(items[k]);
      assert AllSome(vs).value == items;
    }
  }

  // ----- the law -----

  /** What was decoded is storable if and only if every default taken on the way is. */
  lemma {:induction false} StorableWhenFilled(fl: Floats, ty: Ty, cur: Val, t: Tree)
    requires WfTy(fl, ty) && Decode(fl, ty, cur, t).Some?
    ensures Storable(fl, ty, cur, Decode(fl, ty, cur, t).value) <==> Filled(fl, ty, cur, t)
    decreases ty, 1
  {
    match ty
    case TOption(e) => StorableWhenFilled(fl, e, Zero(fl, e), t);
    case TList(e) => ListWhenFilled(fl, ty, cur, t);
    case TMap(e) => MapWhenFilled(fl, ty, cur, t);
    case TStruct(_, _) => StructWhenFilled(fl, ty, cur, t);
    case _ => LeafDecodedStorable(fl, ty, cur, t);
  }

  lemma {:induction false} ListWhenFilled(fl: Floats, ty: Ty, cur: Val, t: Tree)
    requires ty.TList? && WfTy(fl, ty) && Decode(fl, ty, cur, t).Some?
    ensures Storable(fl, ty, cur, Decode(fl, ty, cur, t).value) <==> Filled(fl, ty, cur, t)
    decreases ty, 0
  {
    var e, v := ty.elem, Decode(fl, ty, cur, t).value;
    ListDecodes(fl, ty, cur, t, v);
    forall k | 0 <= k < |t.items|
      ensures Storable(fl, e, Zero(fl, e), v.items[k]) <==> Filled(fl, e, Zero(fl, e), t.items[k])
    {
      StorableWhenFilled(fl, e, Zero(fl, e), t.items[k]);
    }
  }

  lemma {:induction false} MapWhenFilled(fl: Floats, ty: Ty, cur: Val, t: Tree)
    requires ty.TMap? && WfTy(fl, ty) && Decode(fl, ty, cur, t).Some?
    ensures Storable(fl, ty, cur, Decode(fl, ty, cur, t).value) <==> Filled(fl, ty, cur, t)
    decreases ty, 0
  {
    var e, v := ty.elem, Decode(fl, ty, cur, t).value;
    MapDecodes(fl, ty, cur, t, v);
    forall k | k in t.vals ensures EntryStorable(fl, e, v.entries[k]) <==> Filled(fl, e, Zero(fl, e), t.vals[k]) {
      DecodedPresent(fl, e, Zero(fl, e), t.vals[k]);
      StorableWhenFilled(fl, e, Zero(fl, e), t.vals[k]);
    }
  }

  lemma {:induction false} StructWhenFilled(fl: Floats, ty: Ty, cur: Val, t: Tree)
    requires ty.TStruct? && WfTy(fl, ty) && Decode(fl, ty, cur, t).Some?
    ensures Storable(fl, ty, cur, Decode(fl, ty, cur, t).value) <==> Filled(fl, ty, cur, t)
    decreases ty, 0, 1
  {
    var v := Decode(fl, ty, cur, t).value;
    StructDecodes(fl, ty, cur, t, v);
    forall i | 0 <= i < |ty.fields|
      ensures FieldStorable(fl, ty.fields[i], Base(ty, cur, i), v.subs[i]) <==>
              FieldFilled(fl, ty.fields[i], Base(ty, cur, i), t)
    {
      FieldWhenFilled(fl, ty.fields[i], Base(ty, cur, i), t, v.subs[i]);
    }
  }

  lemma {:induction false} FieldWhenFilled(fl: Floats, f: Field, base: Val, t: Tree, v: Val)
    requires WfTy(fl, f.ty) && DecodeField(fl, f, base, t) == Some(v)
    ensures FieldStorable(fl, f, base, v) <==> FieldFilled(fl, f, base, t)
    decreases f.ty, 3
  {
    var found := FindKey(t, LookupKeys(f));
    if !f.nolayer && found.Some? {
      FoundWhenFilled(fl, f.ty, base, found.value, v);
    }
  }

  lemma {:induction false} FoundWhenFilled(fl: Floats, ty: Ty, base: Val, t: Tree, v: Val)
    requires WfTy(fl, ty) && Decode(fl, ty, base, t) == Some(v)
    ensures Encode(ty, v) != Absent
    ensures Storable(fl, ty, base, v) <==> Filled(fl, ty, base, t)
    decreases ty, 2
  {
    DecodedPresent(fl, ty, base, t);
    StorableWhenFilled(fl, ty, base, t);
  }

  lemma {:induction false} LeafDecodedStorable(fl: Floats, ty: Ty, cur: Val, t: Tree)
    requires (IsLeaf(ty) || ty.TBarItem?) && WfTy(fl, ty) && Decode(fl, ty, cur, t).Some?
    ensures Storable(fl, ty, cur, Decode(fl, ty, cur, t).value)
  {
    match ty
    case TBarItem => DecodedItem(t);
    case TCustom(own) => assert ReadsBack(fl, own, t);
    case _ =>
  }

  /** Encoding what was decoded and decoding again gives the same value if and only if
      every default taken on the way is unset or storable. */
  lemma {:induction false} Law(fl: Floats, ty: Ty, cur: Val, t: Tree)
    requires Exact(fl) && WfTy(fl, ty) && Decode(fl, ty, cur, t).Some?
    ensures Reproduces(fl, ty, cur, Decode(fl, ty, cur, t).value) <==> Filled(fl, ty, cur, t)
  {
    StorableWhenFilled(fl, ty, cur, t);
    StorableReproduces(fl, ty, cur, Decode(fl, ty, cur, t).value);
  }

  /** For a value struct, by its fields. */
  lemma {:induction false} StructLaw(fl: Floats, ty: Ty, cur: Val, t: Tree)
    requires Exact(fl) && ty.TStruct? && WfTy(fl, ty) && Decode(fl, ty, cur, t).Some?
    ensures Reproduces(fl, ty, cur, Decode(fl, ty, cur, t).value) ==>
            forall i | 0 <= i < |ty.fields| :: FieldFilled(fl, ty.fields[i], Base(ty, cur, i), t)
    ensures !Reproduces(fl, ty, cur, Decode(fl, ty, cur, t).value) ==>
            exists i :: 0 <= i < |ty.fields| && !FieldFilled(fl, ty.fields[i], Base(ty, cur, i), t)
  {
    Law(fl, ty, cur, t);
  }

  // ----- schemas on which the law always holds -----

  /** Every default a struct can fall back on is unset or reproduces. */
  predicate SoundDefaults(fl: Floats, ty: Ty, cur: Val)
    decreases ty, 0
  {
    match ty
    case TOption(e) => SoundDefaults(fl, e, Zero(fl, e))
    case TList(e) => SoundDefaults(fl, e, Zero(fl, e))
    case TMap(e) => SoundDefaults(fl, e, Zero(fl, e))
    case TStruct(fields, _) => forall i | 0 <= i < |fields| :: SoundField(fl, fields[i], Base(ty, cur, i))
    case _ => true
  }

  predicate SoundField(fl: Floats, f: Field, base: Val)
    decreases f.ty, 1
  {
    f.nolayer || ((f.required || DefaultStorable(fl, f.ty, base)) && SoundDefaults(fl, f.ty, base))
  }

  lemma {:induction false} SoundFilled(fl: Floats, ty: Ty, cur: Val, t: Tree)
    requires SoundDefaults(fl, ty, cur) && Decode(fl, ty, cur, t).Some?
    ensures Filled(fl, ty, cur, t)
    decreases ty
  {
    match ty
    case TOption(e) => SoundFilled(fl, e, Zero(fl, e), t);
    case TList(e) =>
      ListDecodes(fl, ty, cur, t, Decode(fl, ty, cur, t).value);
      forall k | 0 <= k < |t.items| ensures Filled(fl, e, Zero(fl, e), t.items[k]) {
        SoundFilled(fl, e, Zero(fl, e), t.items[k]);
      }
    case TMap(e) =>
      MapDecodes(fl, ty, cur, t, Decode(fl, ty, cur, t).value);
      forall k | k in t.vals ensures Filled(fl, e, Zero(fl, e), t.vals[k]) {
        SoundFilled(fl, e, Zero(fl, e), t.vals[k]);
      }
    case TStruct(fields, _) =>
      StructDecodes(fl, ty, cur, t, Decode(fl, ty, cur, t).value);
      forall i | 0 <= i < |fields| ensures FieldFilled(fl, fields[i], Base(ty, cur, i), t) {
        assert SoundField(fl, fields[i], Base(ty, cur, i)) && DecodeField(fl, ty.fields[i], Base(ty, cur, i), t).Some?;
        var found := FindKey(t, LookupKeys(fields[i]));
        if !fields[i].nolayer && found.Some? {
          SoundFilled(fl, fields[i].ty, Base(ty, cur, i), found.value);
        }
      }
    case _ =>
  }

  /** Over sound defaults the law holds for every tree that decodes. */
  lemma {:induction false} LawEverywhere(fl: Floats, ty: Ty, cur: Val, t: Tree)
    requires Exact(fl) && WfTy(fl, ty) && SoundDefaults(fl, ty, cur) && Decode(fl, ty, cur, t).Some?
    ensures Reproduces(fl, ty, cur, Decode(fl, ty, cur, t).value)
  {
    SoundFilled(fl, ty, cur, t);
    Law(fl, ty, cur, t);
  }

  /** Without sound defaults it can fail: an optional enum key whose zero value is
      not among the variants decodes from an empty table but not from its own
      encoding. */
  lemma {:induction false} LawFails(fl: Floats)
    ensures exists ty, t: Tree ::
      WfTy(fl, ty) && Decode(fl, ty, Zero(fl, ty), t).Some? &&
      !Reproduces(fl, ty, Zero(fl, ty), Decode(fl, ty, Zero(fl, ty), t).value)
  {
    var ty, t := TStruct([MODE], None), Dict(map[]);
    var zero, v := Zero(fl, ty), VStruct([VStr("")]);
    assert Zero(fl, MODE.ty) == VStr("") && zero.subs[0] == Zero(fl, MODE.ty);
    NoKey(t, LookupKeys(MODE));
    assert DecodeField(fl, MODE, Base(ty, zero, 0), t) == Some(VStr(""));
    StructDecodes(fl, ty, zero, t, v);
    Unreadable(fl, ty, zero, v);
    assert WfTy(fl, MODE.ty) && WfTy(fl, ty);
    assert Decode(fl, ty, Zero(fl, ty), t) == Some(v);
  }

  const MODE: Field := Field("mode", [], false, false, TEnum(["on", "off"]))

  lemma {:induction false} Unreadable(fl: Floats, ty: Ty, zero: Val, v: Val)
    requires ty == TStruct([MODE], None) && v == VStruct([VStr("")])
    ensures !Reproduces(fl, ty, zero, v)
  {
    FieldInPlain(fl, ty, v.subs, 0);
    var p := ToPlain(fl, Encode(ty, v));
    assert DecodeField(fl, MODE, Base(ty, zero, 0), p).None?;
    StructDecodes(fl, ty, zero, p, v);
  }
}
