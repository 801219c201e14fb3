/** What a tree denotes at a type, said without the decoder: the tree's own scalar, an
    integer where a float is wanted, elements and entries position by position, and for
    a struct the value under the first of a field's keys that is there. Decoding yields
    exactly that. */
module Denotation {
  import opened Options
  import opened Codec
  import opened ConfigTexts

  ghost predicate Denotes(fl: Floats, ty: Ty, cur: Val, t: Tree, v: Val)
    decreases ty, 0
  {
    match ty
    case TBool => t.Bool? && v == VBool(t.b)
    case TString => t.Str? && v == VStr(t.s)
    case TEnum(variants) => t.Str? && v == VStr(t.s) && exists k :: 0 <= k < |variants| && variants[k] == t.s
    case TModule => t.Str? && v == VStr(t.s) && NamesModule(t.s)
    case TInt(lo, hi) => t.Int? && v == VInt(t.i as int) && lo <= t.i as int <= hi
    case TUint(max) => t.Int? && v == VInt(t.i as int) && 0 <= t.i as int <= max
    case TF32 => (t.F64? && v == VF32(fl.narrow(t.f))) || (t.Int? && v == VF32(fl.narrow(fl.ofInt(t.i))))
    case TF64 => (t.F64? && v == VF64(t.f)) || (t.Int? && v == VF64(fl.ofInt(t.i)))
    case TOption(e) => v.VSome? && Denotes(fl, e, Zero(fl, e), t, v.v)
    case TList(e) =>
      && t.Arr? && v.VList? && |v.items| == |t.items|
      && forall k | 0 <= k < |t.items| :: Denotes(fl, e, Zero(fl, e), t.items[k], v.items[k])
    case TMap(e) =>
      && IsTable(t) && v.VMap? && v.entries.Keys == t.vals.Keys
      && forall k | k in t.vals :: Denotes(fl, e, Zero(fl, e), t.vals[k], v.entries[k])
    case TStruct(fields, init) =>
      && IsTable(t) && v.VStruct? && |v.subs| == |fields|
      && forall i | 0 <= i < |fields| :: FieldDenotes(fl, fields[i], Held(init, cur, i), t, v.subs[i])
    case TBarItem => v.VItem? && ItemDenotes(t, v.item)
    case TCustom(own) => own.unmarshal(t) == Some(v)
  }

  /** The i-th field before decoding: the struct's own default, else what was there. */
  function Held(init: Option<seq<Val>>, cur: Val, i: nat): Val {
    match init
    case Some(vs) => if i < |vs| then vs[i] else VNone
    case None => if cur.VStruct? && i < |cur.subs| then cur.subs[i] else VNone
  }

  ghost predicate FieldDenotes(fl: Floats, f: Field, base: Val, t: Tree, v: Val)
    requires IsTable(t)
    decreases f.ty, 1
  {
    var keys := [f.key] + f.others;
    if f.nolayer then v == base
    else if forall k | 0 <= k < |keys| :: keys[k] !in t.vals then !f.required && v == base
    else exists k :: 0 <= k < |keys| && FirstThere(t, keys, k) && Denotes(fl, f.ty, base, t.vals[keys[k]], v)
  }

  /** The k-th key is there, and none before it is. */
  ghost predicate FirstThere(t: Tree, keys: seq<string>, k: nat) {
    IsTable(t) && k < |keys| && keys[k] in t.vals && forall j | 0 <= j < k :: keys[j] !in t.vals
  }

  /** A module of the program, or one of the user's under a non-empty name. */
  ghost predicate NamesModule(s: string) {
    || (s in BUILTIN_MODULES && !("custom-" <= s))
    || exists name :: name != "" && s == "custom-" + name
  }

  /** A reference to one module: its name, or a table with its name and a class. */
  ghost predicate RefDenotes(t: Tree, item: BarItem) {
    || (t.Str? && NamesModule(t.s) && item == BarItem(t.s, "", None))
    || (ClassTable(t) && item == BarItem(t.vals["module"].s, t.vals["class"].s, None))
  }

  ghost predicate ClassTable(t: Tree) {
    && IsTable(t) && "module" in t.vals && "class" in t.vals
    && t.vals["module"].Str? && t.vals["class"].Str? && NamesModule(t.vals["module"].s)
  }

  /** A reference, or a table that is none and names a group of references. */
  ghost predicate ItemDenotes(t: Tree, item: BarItem) {
    || RefDenotes(t, item)
    || (IsTable(t) && !ClassTable(t) && item.mod == "" && item.class' == "" && item.group.Some? &&
        "name" in t.vals && t.vals["name"].Str? && item.group.value.name == t.vals["name"].s &&
        "modules" in t.vals && t.vals["modules"].Arr? && RefsDenote(t.vals["modules"].items, item.group.value.modules))
  }

  ghost predicate RefsDenote(ts: seq<Tree>, items: seq<BarItem>) {
    |items| == |ts| && forall k | 0 <= k < |ts| :: RefDenotes(ts[k], items[k])
  }

  // ----- keys and modules -----

  /** Looking the keys up in turn finds the first that is there. */
  lemma {:induction false} FindsFirst(t: Tree, keys: seq<string>)
    ensures FindKey(t, keys).None? <==> !IsTable(t) || forall k | 0 <= k < |keys| :: keys[k] !in t.vals
    ensures forall k: nat | FirstThere(t, keys, k) :: FindKey(t, keys) == Some(t.vals[keys[k]])
    ensures FindKey(t, keys).Some? ==> exists k: nat :: FirstThere(t, keys, k)
    decreases keys
  {
    if keys != [] {
      var rest := keys[1..];
      FindsFirst(t, rest);
      assert forall k | 1 <= k < |keys| :: keys[k] == rest[k - 1];
      if Lookup(t, keys[0]).Some? {
        assert FirstThere(t, keys, 0);
      } else if IsTable(t) {
        forall k: nat | FirstThere(t, keys, k) ensures FindKey(t, keys) == Some(t.vals[keys[k]]) {
          assert FirstThere(t, rest, k - 1);
        }
        if k: nat :| FirstThere(t, rest, k) {
          assert FirstThere(t, keys, k + 1);
        }
      }
    }
  }

  lemma {:induction false} ModuleNamed(s: string)
    ensures IsModule(s) <==> NamesModule(s)
  {
    if CUSTOM_PREFIX <= s {
      assert s == "custom-" + s[|CUSTOM_PREFIX|..];
    }
    if name :| name != "" && s == "custom-" + name {
      assert CUSTOM_PREFIX <= s;
    }
  }

  lemma {:induction false} RefDenoted(t: Tree, item: BarItem)
    ensures DecodeModuleRef(t) == Some(item) <==> RefDenotes(t, item)
    ensures DecodeModuleRef(t).Some? && IsTable(t) <==> ClassTable(t)
  {
    if t.Str? {
      ModuleNamed(t.s);
    } else if IsTable(t) && "module" in t.vals && t.vals["module"].Str? {
      ModuleNamed(t.vals["module"].s);
    }
  }

  lemma {:induction false} RefsDenoted(ts: seq<Tree>, items: seq<BarItem>)
    ensures DecodeRefs(ts) == Some(items) <==> RefsDenote(ts, items)
  {
    var vs := seq(|ts|, k requires 0 <= k < |ts| => DecodeModuleRef(ts[k]));
    if |items| == |ts| {
      forall k | 0 <= k < |ts| ensures vs[k] == Some(items[k]) <==> RefDenotes(ts[k], items[k]) {
        RefDenoted(ts[k], items[k]);
      }
      AllAre(vs, items);
    }
  }

  lemma {:induction false} AllAre<T>(vs: seq<Option<T>>, items: seq<T>)
    ensures AllSome(vs) == Some(items) <==> |items| == |vs| && forall k | 0 <= k < |vs| :: vs[k] == Some(items[k])
  {
    if |items| == |vs| && forall k | 0 <= k < |vs| :: vs[k] == Some(items[k]) {
      assert AllSome(vs).value == items;
    }
  }

  lemma {:induction false} ItemDenoted(t: Tree, item: BarItem)
    ensures DecodeBarItem(t) == Some(item) <==> ItemDenotes(t, item)
  {
    RefDenoted(t, item);
    if item.group.Some? && Lookup(t, "modules").Some? && Lookup(t, "modules").value.Arr? {
      RefsDenoted(Lookup(t, "modules").value.items, item.group.value.modules);
    }
    if DecodeModuleRef(t).Some? {
      RefDenoted(t, DecodeModuleRef(t).value);
    } else {
      GroupDenoted(t, item);
    }
  }

  lemma {:induction false} GroupDenoted(t: Tree, item: BarItem)
    requires DecodeModuleRef(t).None?
    ensures DecodeBarItem(t) == Some(item) <==>
            item.mod == "" && item.class' == "" && item.group.Some? && DecodeGroup(t) == item.group
  {
  }

  // ----- decoding yields what is denoted -----

  /** A tree decodes to a value if and only if it denotes it. */
  lemma {:induction false} DecodeDenotes(fl: Floats, ty: Ty, cur: Val, t: Tree, v: Val)
    ensures Decode(fl, ty, cur, t) == Some(v) <==> Denotes(fl, ty, cur, t, v)
    decreases ty, 1
  {
    match ty
    case TOption(e) => OptionDenotes(fl, ty, cur, t, v);
    case TList(e) => ListDenotes(fl, ty, cur, t, v);
    case TMap(e) => MapDenotes(fl, ty, cur, t, v);
    case TStruct(fields, _) => StructDenotes(fl, ty, cur, t, v);
    case TBarItem => BarItemDenotes(fl, ty, cur, t, v);
    case _ => LeafDenotes(fl, ty, cur, t, v);
  }

  lemma {:induction false} OptionDenotes(fl: Floats, ty: Ty, cur: Val, t: Tree, v: Val)
    requires ty.TOption?
    ensures Decode(fl, ty, cur, t) == Some(v) <==> Denotes(fl, ty, cur, t, v)
    decreases ty, 0
  {
    if v.VSome? {
      DecodeDenotes(fl, ty.elem, Zero(fl, ty.elem), t, v.v);
    }
  }

  lemma {:induction false} BarItemDenotes(fl: Floats, ty: Ty, cur: Val, t: Tree, v: Val)
    requires ty.TBarItem?
    ensures Decode(fl, ty, cur, t) == Some(v) <==> Denotes(fl, ty, cur, t, v)
  {
    if v.VItem? {
      ItemDenoted(t, v.item);
    }
  }

  lemma {:induction false} LeafDenotes(fl: Floats, ty: Ty, cur: Val, t: Tree, v: Val)
    requires !(ty.TOption? || ty.TList? || ty.TMap? || ty.TStruct? || ty.TBarItem?)
    ensures Decode(fl, ty, cur, t) == Some(v) <==> Denotes(fl, ty, cur, t, v)
  {
    if t.Str? {
      ModuleNamed(t.s);
    }
  }

  lemma {:induction false} ListDenotes(fl: Floats, ty: Ty, cur: Val, t: Tree, v: Val)
    requires ty.TList?
    ensures Decode(fl, ty, cur, t) == Some(v) <==> Denotes(fl, ty, cur, t, v)
    decreases ty, 0
  {
    if t.Arr? && v.VList? {
      var e, vs := ty.elem, ItemDecodings(fl, ty.elem, t.items);
      AllAre(vs, v.items);
      if |v.items| == |t.items| {
        forall k | 0 <= k < |t.items|
          ensures vs[k] == Some(v.items[k]) <==> Denotes(fl, e, Zero(fl, e), t.items[k], v.items[k])
        {
          DecodeDenotes(fl, e, Zero(fl, e), t.items[k], v.items[k]);
        }
      }
    }
  }

  lemma {:induction false} MapDenotes(fl: Floats, ty: Ty, cur: Val, t: Tree, v: Val)
    requires ty.TMap?
    ensures Decode(fl, ty, cur, t) == Some(v) <==> Denotes(fl, ty, cur, t, v)
    decreases ty, 0
  {
    if IsTable(t) && v.VMap? {
      var e, vs := ty.elem, EntryDecodings(fl, ty.elem, t.vals);
      AllEntriesAre(vs, v.entries);
      if v.entries.Keys == t.vals.Keys {
        forall k | k in t.vals
          ensures vs[k] == Some(v.entries[k]) <==> Denotes(fl, e, Zero(fl, e), t.vals[k], v.entries[k])
        {
          DecodeDenotes(fl, e, Zero(fl, e), t.vals[k], v.entries[k]);
        }
      }
    }
  }

  lemma {:induction false} AllEntriesAre<T>(vs: map<string, Option<T>>, m: map<string, T>)
    ensures AllSomeMap(vs) == Some(m) <==> m.Keys == vs.Keys && forall k | k in vs :: vs[k] == Some(m[k])
  {
    if m.Keys == vs.Keys && forall k | k in vs :: vs[k] == Some(m[k]) {
      assert AllSomeMap(vs).value == m;
    }
  }

  lemma {:induction false} StructDenotes(fl: Floats, ty: Ty, cur: Val, t: Tree, v: Val)
    requires ty.TStruct?
    ensures Decode(fl, ty, cur, t) == Some(v) <==> Denotes(fl, ty, cur, t, v)
    decreases ty, 0, 1
  {
    if IsTable(t) && v.VStruct? {
      var vs := FieldDecodings(fl, ty, cur, t);
      AllAre(vs, v.subs);
      if |v.subs| == |ty.fields| {
        forall i | 0 <= i < |ty.fields|
          ensures vs[i] == Some(v.subs[i]) <==>
                  FieldDenotes(fl, ty.fields[i], Held(ty.init, cur, i), t, v.subs[i])
        {
          assert Held(ty.init, cur, i) == Base(ty, cur, i);
          FieldDenoted(fl, ty.fields[i], Base(ty, cur, i), t, v.subs[i]);
        }
      }
    }
  }

  lemma {:induction false} FieldDenoted(fl: Floats, f: Field, base: Val, t: Tree, v: Val)
    requires IsTable(t)
    ensures DecodeField(fl, f, base, t) == Some(v) <==> FieldDenotes(fl, f, base, t, v)
    decreases f.ty, 2
  {
    var keys := [f.key] + f.others;
    FindsFirst(t, keys);
    if !f.nolayer && FindKey(t, keys).Some? {
      var k: nat :| FirstThere(t, keys, k);
      DecodeDenotes(fl, f.ty, base, t.vals[keys[k]], v);
      assert forall j: nat | FirstThere(t, keys, j) :: j == k;
    }
  }

  // ----- integers for floats -----

  /** u is t with integers, where the type wants floats, written as floats. */
  ghost predicate Floated(fl: Floats, ty: Ty, t: Tree, u: Tree)
    decreases ty, 0
  {
    u == t ||
    match ty
    case TF32 => t.Int? && u == F64(fl.ofInt(t.i))
    case TF64 => t.Int? && u == F64(fl.ofInt(t.i))
    case TOption(e) => Floated(fl, e, t, u)
    case TList(e) => t.Arr? && u.Arr? && |u.items| == |t.items| &&
                     forall k | 0 <= k < |t.items| :: Floated(fl, e, t.items[k], u.items[k])
    case TMap(e) => t.Dict? && u.Dict? && u.vals.Keys == t.vals.Keys &&
                    forall k | k in t.vals :: Floated(fl, e, t.vals[k], u.vals[k])
    case TStruct(fields, _) => t.Dict? && u.Dict? && u.vals.Keys == t.vals.Keys &&
                               forall i | 0 <= i < |fields| :: FieldFloated(fl, fields[i], t, u)
    case _ => false
  }

  ghost predicate FieldFloated(fl: Floats, f: Field, t: Tree, u: Tree)
    requires t.Dict? && u.Dict? && u.vals.Keys == t.vals.Keys
    decreases f.ty, 1
  {
    forall k | k in LookupKeys(f) && k in t.vals :: Floated(fl, f.ty, t.vals[k], u.vals[k])
  }

  /** An integer is as good as the float that it converts to, in lists, maps and
      structs too. */
  lemma {:induction false} FloatedAlike(fl: Floats, ty: Ty, cur: Val, t: Tree, u: Tree)
    requires Floated(fl, ty, t, u)
    ensures Decode(fl, ty, cur, t) == Decode(fl, ty, cur, u)
    decreases ty, 1
  {
    if u != t {
      match ty
      case TOption(e) => FloatedAlike(fl, e, Zero(fl, e), t, u);
      case TList(e) => ListAlike(fl, ty, cur, t, u);
      case TMap(e) => MapAlike(fl, ty, cur, t, u);
      case TStruct(_, _) => StructAlike(fl, ty, cur, t, u);
      case _ =>
    }
  }

  lemma {:induction false} ListAlike(fl: Floats, ty: Ty, cur: Val, t: Tree, u: Tree)
    requires ty.TList? && u != t && Floated(fl, ty, t, u)
    ensures Decode(fl, ty, cur, t) == Decode(fl, ty, cur, u)
    decreases ty, 0
  {
    var e := ty.elem;
    forall k | 0 <= k < |t.items|
      ensures Decode(fl, e, Zero(fl, e), t.items[k]) == Decode(fl, e, Zero(fl, e), u.items[k])
    {
      FloatedAlike(fl, e, Zero(fl, e), t.items[k], u.items[k]);
    }
    assert ItemDecodings(fl, e, t.items) == ItemDecodings(fl, e, u.items);
  }

  lemma {:induction false} MapAlike(fl: Floats, ty: Ty, cur: Val, t: Tree, u: Tree)
    requires ty.TMap? && u != t && Floated(fl, ty, t, u)
    ensures Decode(fl, ty, cur, t) == Decode(fl, ty, cur, u)
    decreases ty, 0
  {
    var e := ty.elem;
    forall k | k in t.vals ensures Decode(fl, e, Zero(fl, e), t.vals[k]) == Decode(fl, e, Zero(fl, e), u.vals[k]) {
      FloatedAlike(fl, e, Zero(fl, e), t.vals[k], u.vals[k]);
    }
    assert EntryDecodings(fl, e, t.vals) == EntryDecodings(fl, e, u.vals);
  }

  lemma {:induction false} StructAlike(fl: Floats, ty: Ty, cur: Val, t: Tree, u: Tree)
    requires ty.TStruct? && u != t && Floated(fl, ty, t, u)
    ensures Decode(fl, ty, cur, t) == Decode(fl, ty, cur, u)
    decreases ty, 0
  {
    var fields := ty.fields;
    forall i | 0 <= i < |fields|
      ensures DecodeField(fl, fields[i], Base(ty, cur, i), t) == DecodeField(fl, fields[i], Base(ty, cur, i), u)
    {
      assert FieldFloated(fl, fields[i], t, u);
      FieldAlike(fl, fields[i], Base(ty, cur, i), t, u, LookupKeys(fields[i]));
    }
    assert FieldDecodings(fl, ty, cur, t) == FieldDecodings(fl, ty, cur, u);
  }

  lemma {:induction false} FieldAlike(fl: Floats, f: Field, base: Val, t: Tree, u: Tree, keys: seq<string>)
    requires t.Dict? && u.Dict? && u.vals.Keys == t.vals.Keys && FieldFloated(fl, f, t, u)
    requires forall k | k in keys :: k in LookupKeys(f)
    ensures FindKey(t, keys).Some? <==> FindKey(u, keys).Some?
    ensures FindKey(t, keys).Some? ==>
              Decode(fl, f.ty, base, FindKey(t, keys).value) == Decode(fl, f.ty, base, FindKey(u, keys).value)
    decreases f.ty, 2, keys
  {
    if keys != [] {
      if keys[0] in t.vals {
        FloatedAlike(fl, f.ty, base, t.vals[keys[0]], u.vals[keys[0]]);
      } else {
        FieldAlike(fl, f, base, t, u, keys[1..]);
      }
    }
  }

  // ----- clamped integers -----

  /** A clamped number keeps an integer in its range and takes any other to the
      nearer end; an integer outside the primitive's range is refused. */
  lemma {:induction false} ClampedDenotes(max: nat, lo: nat, hi: nat, t: Tree)
    requires lo <= hi
    ensures
      var r := Clamped(max, lo, hi).unmarshal(t);
      && (r.Some? <==> t.Int? && 0 <= t.i as int <= max)
      && (r.Some? ==> r.value.VInt? && lo <= r.value.i <= hi && Nearest(t.i as int, r.value.i, lo, hi))
  {
  }

  ghost predicate Nearest(i: int, v: int, lo: int, hi: int) {
    forall x | lo <= x <= hi :: Distance(i, v) <= Distance(i, x)
  }

  function Distance(i: int, x: int): nat { if x < i then i - x else x - i }
}
