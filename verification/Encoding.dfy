/** What a value is written as, said without the encoder: scalars as themselves, lists
    and maps entry by entry, a struct under its canonical keys; a value that is unset or
    of another type as the mark of absence, which tables leave out. */
module Encoding {
  import opened Options
  import opened Codec

  /** The value is set and of the type's kind. */
  predicate OfKind(ty: Ty, v: Val) {
    match ty
    case TBool => v.VBool?
    case TString => v.VStr?
    case TEnum(_) => v.VStr?
    case TModule => v.VStr?
    case TInt(_, _) => v.VInt?
    case TUint(_) => v.VInt?
    case TF32 => v.VF32?
    case TF64 => v.VF64?
    case TOption(_) => v.VSome?
    case TList(_) => v.VList?
    case TMap(_) => v.VMap?
    case TStruct(fields, _) => v.VStruct? && |v.subs| == |fields|
    case TBarItem => v.VItem?
    case TCustom(_) => true
  }

  ghost predicate Spells(ty: Ty, v: Val, t: Tree)
    decreases ty, 0
  {
    if !OfKind(ty, v) then t == Absent
    else
      match ty
      case TBool => t == Bool(v.b)
      case TString => t == Str(v.s)
      case TEnum(_) => t == Str(v.s)
      case TModule => t == Str(v.s)
      case TInt(_, _) => IntegerSpells(v.i, t)
      case TUint(_) => IntegerSpells(v.i, t)
      case TF32 => t == F32(v.g)
      case TF64 => t == F64(v.f)
      case TOption(e) => Spells(e, v.v, t)
      case TList(e) => ListSpells(e, v.items, t)
      case TMap(e) => MapSpells(e, v.entries, t)
      case TStruct(fields, _) => RecordSpells(fields, v.subs, t)
      case TBarItem => ItemSpells(v.item, t)
      case TCustom(own) => t == own.marshal(v)
  }

  ghost predicate ListSpells(e: Ty, items: seq<Val>, t: Tree)
    decreases e, 1
  {
    t.Arr? && |t.items| == |items| && forall k | 0 <= k < |t.items| :: Spells(e, items[k], t.items[k])
  }

  ghost predicate MapSpells(e: Ty, entries: map<string, Val>, t: Tree)
    decreases e, 1
  {
    && t.Table?
    && (forall k | k in t.vals :: k in entries && t.vals[k] != Absent && Spells(e, entries[k], t.vals[k]))
    && forall k | k in entries && k !in t.vals :: Spells(e, entries[k], Absent)
  }

  ghost predicate RecordSpells(fields: seq<Field>, subs: seq<Val>, t: Tree)
    requires |subs| == |fields|
    decreases fields
  {
    && t.Table?
    && (forall k | k in t.vals :: exists i: nat :: i < |fields| && First(fields, i, k))
    && forall i: nat | i < |fields| && First(fields, i, fields[i].key) ::
         FieldSpells(t, fields[i].key, Spells(fields[i].ty, subs[i], Held(t, fields[i].key)))
  }

  /** What stands under a key, the mark of absence when nothing does. */
  function Held(t: Tree, key: string): Tree
    requires t.Table?
  {
    if key in t.vals then t.vals[key] else Absent
  }

  /** Nothing absent stands in the table, and what it holds is spelled so. */
  predicate FieldSpells(t: Tree, key: string, spelled: bool)
    requires t.Table?
  {
    spelled && (key in t.vals ==> t.vals[key] != Absent)
  }

  /** The i-th field is the first of that key. */
  predicate First(fields: seq<Field>, i: nat, key: string) {
    i < |fields| && fields[i].key == key && forall j | 0 <= j < i :: fields[j].key != key
  }

  /** A signed 64-bit integer, else an unsigned number; a negative number below is none. */
  predicate IntegerSpells(i: int, t: Tree) {
    if i < -0x8000_0000_0000_0000 then t == Absent
    else if i < 0x8000_0000_0000_0000 then t.Int? && t.i as int == i
    else t == Uint(i)
  }

  /** A bare module is its name, one with a class a table of the two, a group a table of
      its name and its modules. */
  ghost predicate ItemSpells(item: BarItem, t: Tree)
    decreases item
  {
    match item.group
    case None =>
      if item.class' == "" then t == Str(item.mod)
      else t == Table(map["module" := Str(item.mod), "class" := Str(item.class')])
    case Some(g) =>
      && t.Table? && t.vals.Keys == {"name", "modules"} && t.vals["name"] == Str(g.name)
      && t.vals["modules"].Arr? && |t.vals["modules"].items| == |g.modules|
      && forall k | 0 <= k < |g.modules| :: ItemSpells(g.modules[k], t.vals["modules"].items[k])
  }

  // ----- encoding spells -----

  lemma {:induction false} ItemSpelled(item: BarItem)
    ensures ItemSpells(item, EncodeBarItem(item))
    decreases item
  {
    if item.group.Some? {
      forall k | 0 <= k < |item.group.value.modules|
        ensures ItemSpells(item.group.value.modules[k], EncodeBarItem(item.group.value.modules[k]))
      {
        ItemSpelled(item.group.value.modules[k]);
      }
    }
  }

  lemma {:induction false} FirstIs(fields: seq<Field>, key: string)
    requires key in EncodedKeys(fields)
    ensures First(fields, IndexOfKey(fields, key), key)
  {
    if fields[0].key != key {
      var j :| 0 <= j < |fields| && fields[j].key == key;
      assert fields[1..][j - 1].key == key;
      FirstIs(fields[1..], key);
      assert forall i | 1 <= i < |fields| :: fields[i] == fields[1..][i - 1];
    }
  }

  lemma {:induction false} FirstOnce(fields: seq<Field>, i: nat, j: nat, key: string)
    requires First(fields, i, key) && First(fields, j, key)
    ensures i == j
  {
  }

  lemma {:induction false} EncodedSpells(ty: Ty, v: Val)
    ensures Spells(ty, v, Encode(ty, v))
    decreases ty, 1
  {
    if OfKind(ty, v) {
      match ty
      case TOption(e) => EncodedSpells(e, v.v);
      case TList(e) => ListEncoded(e, v.items);
      case TMap(e) => MapEncoded(e, v.entries);
      case TStruct(_, _) => RecordEncoded(ty, v.subs);
      case TBarItem => ItemSpelled(v.item);
      case _ =>
    }
  }

  lemma {:induction false} ListEncoded(e: Ty, items: seq<Val>)
    ensures ListSpells(e, items, Encode(TList(e), VList(items)))
    decreases e, 2
  {
    forall k | 0 <= k < |items| ensures Spells(e, items[k], Encode(e, items[k])) {
      EncodedSpells(e, items[k]);
    }
  }

  lemma {:induction false} MapEncoded(e: Ty, entries: map<string, Val>)
    ensures MapSpells(e, entries, Encode(TMap(e), VMap(entries)))
    decreases e, 2
  {
    forall k | k in entries ensures Spells(e, entries[k], Encode(e, entries[k])) {
      EncodedSpells(e, entries[k]);
    }
  }

  lemma {:induction false} RecordEncoded(ty: Ty, subs: seq<Val>)
    requires ty.TStruct? && |subs| == |ty.fields|
    ensures RecordSpells(ty.fields, subs, Encode(ty, VStruct(subs)))
    decreases ty, 0
  {
    var fields, t := ty.fields, Encode(ty, VStruct(subs));
    forall k | k in t.vals ensures exists i: nat :: i < |fields| && First(fields, i, k) {
      FirstIs(fields, k);
    }
    forall i: nat | i < |fields| && First(fields, i, fields[i].key)
      ensures FieldSpells(t, fields[i].key, Spells(fields[i].ty, subs[i], Held(t, fields[i].key)))
    {
      FirstIs(fields, fields[i].key);
      FirstOnce(fields, i, IndexOfKey(fields, fields[i].key), fields[i].key);
      EncodedSpells(fields[i].ty, subs[i]);
    }
  }

  // ----- nothing else does -----

  lemma {:induction false} ItemOnce(item: BarItem, t: Tree, u: Tree)
    requires ItemSpells(item, t) && ItemSpells(item, u)
    ensures t == u
    decreases item
  {
    if item.group.Some? {
      var ts, us := t.vals["modules"].items, u.vals["modules"].items;
      forall k | 0 <= k < |ts| ensures ts[k] == us[k] {
        ItemOnce(item.group.value.modules[k], ts[k], us[k]);
      }
      assert ts == us && t.vals == u.vals;
    }
  }

  lemma {:induction false} SpelledOnce(ty: Ty, v: Val, t: Tree, u: Tree)
    requires Spells(ty, v, t) && Spells(ty, v, u)
    ensures t == u
    decreases ty, 0
  {
    if OfKind(ty, v) {
      match ty
      case TInt(_, _) => IntegerOnce(v.i, t, u);
      case TUint(_) => IntegerOnce(v.i, t, u);
      case TOption(e) => SpelledOnce(e, v.v, t, u);
      case TList(e) => ListOnce(e, v.items, t, u);
      case TMap(e) => MapOnce(e, v.entries, t, u);
      case TStruct(fields, _) => RecordOnce(fields, v.subs, t, u);
      case TBarItem => ItemOnce(v.item, t, u);
      case _ =>
    }
  }

  lemma {:induction false} IntegerOnce(i: int, t: Tree, u: Tree)
    requires IntegerSpells(i, t) && IntegerSpells(i, u)
    ensures t == u
  {
  }

  lemma {:induction false} ListOnce(e: Ty, items: seq<Val>, t: Tree, u: Tree)
    requires ListSpells(e, items, t) && ListSpells(e, items, u)
    ensures t == u
    decreases e, 1
  {
    forall k | 0 <= k < |t.items| ensures t.items[k] == u.items[k] {
      SpelledOnce(e, items[k], t.items[k], u.items[k]);
    }
    assert t.items == u.items;
  }

  lemma {:induction false} MapOnce(e: Ty, entries: map<string, Val>, t: Tree, u: Tree)
    requires MapSpells(e, entries, t) && MapSpells(e, entries, u)
    ensures t == u
    decreases e, 1
  {
    forall k | k in entries ensures Held(t, k) == Held(u, k) && (k in t.vals <==> k in u.vals) {
      SpelledOnce(e, entries[k], Held(t, k), Held(u, k));
    }
    assert t.vals == u.vals;
  }

  lemma {:induction false} RecordOnce(fields: seq<Field>, subs: seq<Val>, t: Tree, u: Tree)
    requires |subs| == |fields| && RecordSpells(fields, subs, t) && RecordSpells(fields, subs, u)
    ensures t == u
    decreases fields
  {
    forall i: nat | i < |fields| && First(fields, i, fields[i].key)
      ensures Held(t, fields[i].key) == Held(u, fields[i].key)
      ensures fields[i].key in t.vals <==> fields[i].key in u.vals
    {
      SpelledOnce(fields[i].ty, subs[i], Held(t, fields[i].key), Held(u, fields[i].key));
    }
    forall k | k in t.vals || k in u.vals ensures k in t.vals && k in u.vals && t.vals[k] == u.vals[k] {
      var i: nat :| i < |fields| && First(fields, i, k);
    }
    assert t.vals == u.vals;
  }

  /** Encoding yields exactly what the value is written as. */
  lemma {:induction false} EncodeIs(ty: Ty, v: Val, t: Tree)
    ensures Encode(ty, v) == t <==> Spells(ty, v, t)
  {
    EncodedSpells(ty, v);
    if Spells(ty, v, t) {
      SpelledOnce(ty, v, t, Encode(ty, v));
    }
  }
}
