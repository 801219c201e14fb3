/** Decoding as the program runs it: element by element into a destination, key by
    key over a struct's defaults, with the first failure ending the walk. */
module Decoder {
  import opened Options
  import opened Codec

  method DecodeInto(fl: Floats, ty: Ty, cur: Val, t: Tree) returns (r: Option<Val>)
    ensures r == Decode(fl, ty, cur, t)
    decreases ty, 1
  {
    match ty {
      case TOption(_) =>
        r := DecodeOption(fl, ty, cur, t);
      case TList(_) =>
        r := DecodeList(fl, ty, cur, t);
      case TMap(_) =>
        r := DecodeMap(fl, ty, cur, t);
      case TStruct(_, _) =>
        r := DecodeValueStruct(fl, ty, cur, t);
      case TBarItem =>
        var item := UnmarshalBarItem(t);
        return if item.Some? then Some(VItem(item.value)) else None;
      case _ =>
        r := DecodeLeaf(fl, ty, cur, t);
    }
  }

  /** A type with no parts: its own decoding, a listed string, or a scalar of its kind
      and range. */
  method DecodeLeaf(fl: Floats, ty: Ty, cur: Val, t: Tree) returns (r: Option<Val>)
    requires !(ty.TOption? || ty.TList? || ty.TMap? || ty.TStruct? || ty.TBarItem?)
    ensures r == Decode(fl, ty, cur, t)
  {
    match ty {
      case TCustom(own) => return own.unmarshal(t);
      case TModule => return if t.Str? && IsModule(t.s) then Some(VStr(t.s)) else None;
      case TEnum(variants) => return if t.Str? && t.s in variants then Some(VStr(t.s)) else None;
      case TBool => return if t.Bool? then Some(VBool(t.b)) else None;
      case TString => return if t.Str? then Some(VStr(t.s)) else None;
      case _ =>
        r := DecodeNumber(fl, ty, cur, t);
    }
  }

  method DecodeNumber(fl: Floats, ty: Ty, cur: Val, t: Tree) returns (r: Option<Val>)
    requires ty.TInt? || ty.TUint? || ty.TF32? || ty.TF64?
    ensures r == Decode(fl, ty, cur, t)
  {
    if ty.TInt? || ty.TUint? {
      if !t.Int? {
        return None;
      }
      var i := t.i as int;
      if (if ty.TInt? then i < ty.lo || i > ty.hi else i < 0 || i > ty.max) {
        return None;
      }
      return Some(VInt(i));
    }
    var f := AsFloat(fl, t);
    if f.None? {
      return None;
    }
    return Some(if ty.TF32? then VF32(fl.narrow(f.value)) else VF64(f.value));
  }

  /** An integer is a valid float. */
  function AsFloat(fl: Floats, t: Tree): Option<Float64> {
    if t.F64? then Some(t.f) else if t.Int? then Some(fl.ofInt(t.i)) else None
  }

  method DecodeOption(fl: Floats, ty: Ty, cur: Val, t: Tree) returns (r: Option<Val>)
    requires ty.TOption?
    ensures r == Decode(fl, ty, cur, t)
    decreases ty, 0
  {
    var v := DecodeInto(fl, ty.elem, Zero(fl, ty.elem), t);
    return if v.Some? then Some(VSome(v.value)) else None;
  }

  method DecodeList(fl: Floats, ty: Ty, cur: Val, t: Tree) returns (r: Option<Val>)
    requires ty.TList?
    ensures r == Decode(fl, ty, cur, t)
    decreases ty, 0
  {
    if !t.Arr? {
      return None;
    }
    var e := ty.elem;
    ghost var vs := ItemDecodings(fl, e, t.items);
    var out: seq<Val> := [];
    for i := 0 to |t.items|
      invariant |out| == i && forall k | 0 <= k < i :: vs[k] == Some(out[k])
    {
      var v := DecodeInto(fl, e, Zero(fl, e), t.items[i]);
      if v.None? {
        assert vs[i].None?;
        return None;
      }
      out := out + [v.value];
    }
    assert AllSome(vs).value == out;
    return Some(VList(out));
  }

  method DecodeMap(fl: Floats, ty: Ty, cur: Val, t: Tree) returns (r: Option<Val>)
    requires ty.TMap?
    ensures r == Decode(fl, ty, cur, t)
    decreases ty, 0
  {
    if !IsTable(t) {
      return None;
    }
    var e := ty.elem;
    ghost var vs := EntryDecodings(fl, e, t.vals);
    var out: map<string, Val> := map[];
    var keys := t.vals.Keys;
    while keys != {}
      invariant keys <= t.vals.Keys && out.Keys == t.vals.Keys - keys
      invariant forall k | k in out :: vs[k] == Some(out[k])
      decreases keys
    {
      var key :| key in keys;
      var v := DecodeInto(fl, e, Zero(fl, e), t.vals[key]);
      if v.None? {
        assert key in vs && vs[key].None?;
        return None;
      }
      out := out[key := v.value];
      keys := keys - {key};
    }
    assert AllSomeMap(vs).value == out;
    return Some(VMap(out));
  }

  /** Defaults first, then each present key; a missing required key is an error. */
  method DecodeValueStruct(fl: Floats, ty: Ty, cur: Val, t: Tree) returns (r: Option<Val>)
    requires ty.TStruct?
    ensures r == Decode(fl, ty, cur, t)
    decreases ty, 0
  {
    if !IsTable(t) {
      return None;
    }
    ghost var vs := FieldDecodings(fl, ty, cur, t);
    var out: seq<Val> := [];
    for i := 0 to |ty.fields|
      invariant |out| == i && forall k | 0 <= k < i :: vs[k] == Some(out[k])
    {
      var f := ty.fields[i];
      var v := Base(ty, cur, i);
      assert vs[i] == DecodeField(fl, f, v, t);
      if !f.nolayer {
        var found := FirstKey(t, LookupKeys(f));
        if found.Some? {
          var decoded := DecodeInto(fl, f.ty, v, found.value);
          if decoded.None? {
            assert vs[i].None?;
            return None;
          }
          v := decoded.value;
        } else if f.required {
          assert vs[i].None?;
          return None;
        }
      }
      out := out + [v];
    }
    assert AllSome(vs).value == out;
    return Some(VStruct(out));
  }

  /** The value under the first of the keys that the table has. */
  method FirstKey(t: Tree, keys: seq<string>) returns (found: Option<Tree>)
    ensures found == FindKey(t, keys)
  {
    for k := 0 to |keys|
      invariant FindKey(t, keys) == FindKey(t, keys[k..])
    {
      found := Lookup(t, keys[k]);
      assert keys[k..][0] == keys[k] && keys[k..][1..] == keys[k + 1..];
      if found.Some? {
        return;
      }
    }
    return None;
  }

  method UnmarshalBarItem(t: Tree) returns (item: Option<BarItem>)
    ensures item == DecodeBarItem(t)
  {
    item := DecodeModuleRef(t);
    if item.Some? {
      return;
    }
    var n, ms := Lookup(t, "name"), Lookup(t, "modules");
    if !(n.Some? && ms.Some? && n.value.Str? && ms.value.Arr?) {
      return None;
    }
    var list := ms.value.items;
    ghost var refs := seq(|list|, k requires 0 <= k < |list| => DecodeModuleRef(list[k]));
    var modules: seq<BarItem> := [];
    for k := 0 to |list|
      invariant |modules| == k && forall j | 0 <= j < k :: refs[j] == Some(modules[j])
    {
      var ref := DecodeModuleRef(list[k]);
      if ref.None? {
        assert refs[k].None?;
        return None;
      }
      modules := modules + [ref.value];
    }
    assert AllSome(refs).value == modules;
    return Some(BarItem("", "", Some(BarGroup(n.value.s, modules))));
  }
}
