/** Staging trees as layers write them: nothing but settings, at their canonical
    paths, and no empty table between. Such a tree is known by its settings, and
    laid over a configuration again it gives each one back. */
module CanonicalTrees {
  import opened Options
  import opened Codec
  import CodecLaw
  import opened Staging
  import opened Layers

  ghost predicate Canonical(sch: Schema, t: Tree)
    decreases t, 0
  {
    && sch.Section? && t.Table?
    && forall k | k in t.vals :: CanonicalKey(sch, k, t.vals[k])
  }

  ghost predicate CanonicalKey(sch: Schema, k: string, child: Tree)
    requires sch.Section?
    decreases child, 1
  {
    var i := FieldAt(sch.fields, k);
    && i.Some? && !sch.fields[i.value].nolayer
    && (sch.fields[i.value].node.Section? ==> child != NOTHING && Canonical(sch.fields[i.value].node, child))
  }

  lemma {:induction false} SetCanonical(sch: Schema, t: Tree, p: Path, v: Tree)
    requires Canonical(sch, t) && TypeAt(sch, p).Some?
    ensures Canonical(sch, SetAt(t, p, v)) && SetAt(t, p, v) != NOTHING
    decreases p
  {
    var node := sch.fields[FieldAt(sch.fields, p[0]).value].node;
    var after := SetAt(t, p, v);
    if node.Section? {
      var child := if p[0] in t.vals then t.vals[p[0]] else NOTHING;
      assert p[0] in t.vals ==> CanonicalKey(sch, p[0], child);
      SetCanonical(node, child, p[1..], v);
    }
    forall k | k in after.vals ensures CanonicalKey(sch, k, after.vals[k]) {
      assert k != p[0] ==> CanonicalKey(sch, k, t.vals[k]);
    }
    assert p[0] in after.vals;
  }

  lemma {:induction false} DeleteCanonical(sch: Schema, t: Tree, p: Path)
    requires Canonical(sch, t) && TypeAt(sch, p).Some?
    ensures Canonical(sch, DeleteAt(t, p))
    decreases p
  {
    var node := sch.fields[FieldAt(sch.fields, p[0]).value].node;
    var after := DeleteAt(t, p);
    if node.Section? && p[0] in t.vals {
      assert CanonicalKey(sch, p[0], t.vals[p[0]]);
      DeleteCanonical(node, t.vals[p[0]], p[1..]);
    }
    forall k | k in after.vals ensures CanonicalKey(sch, k, after.vals[k]) {
      assert k != p[0] ==> CanonicalKey(sch, k, t.vals[k]);
    }
  }

  lemma {:induction false} RunCanonical(fl: Floats, kind: Kind, sch: Schema, t: Tree, st: State, vs: seq<Visit>)
    requires AllBelong(sch, t, [], vs) && Canonical(sch, st.staged)
    ensures Canonical(sch, Run(fl, kind, st, vs).staged)
    decreases vs
  {
    if vs != [] && !st.failed {
      assert Belongs(sch, t, [], vs[0]) && vs[0].path[0..] == vs[0].path;
      var val := Decode(fl, vs[0].ty, Zero(fl, vs[0].ty), vs[0].raw);
      if val.Some? {
        SetCanonical(sch, st.staged, vs[0].path, Encode(vs[0].ty, val.value));
      }
      RunCanonical(fl, kind, sch, t, Take(fl, kind, st, vs[0]), vs[1..]);
    }
  }

  // ----- a canonical tree is known by its settings -----

  /** Something is staged below a table that is not empty. */
  lemma {:induction false} SomeSetting(sch: Schema, t: Tree) returns (p: Path)
    requires Canonical(sch, t) && t != NOTHING
    ensures TypeAt(sch, p).Some? && At(t, p).Some?
    decreases t
  {
    assert t.vals != map[];
    var k :| k in t.vals;
    assert CanonicalKey(sch, k, t.vals[k]);
    var node := sch.fields[FieldAt(sch.fields, k).value].node;
    if node.Section? {
      var q := SomeSetting(node, t.vals[k]);
      p := [k] + q;
      assert p[1..] == q;
    } else {
      p := [k];
      assert p[1..] == [];
    }
  }

  ghost predicate SameSettings(sch: Schema, t: Tree, u: Tree) {
    forall p | TypeAt(sch, p).Some? :: At(t, p) == At(u, p)
  }

  lemma {:induction false} SameTree(sch: Schema, t: Tree, u: Tree)
    requires Canonical(sch, t) && Canonical(sch, u) && SameSettings(sch, t, u)
    ensures t == u
    decreases t
  {
    SameKeys(sch, t, u);
    SameKeys(sch, u, t);
    assert t.vals.Keys == u.vals.Keys;
    forall k | k in t.vals ensures t.vals[k] == u.vals[k] {
      assert CanonicalKey(sch, k, t.vals[k]) && CanonicalKey(sch, k, u.vals[k]);
      var node := sch.fields[FieldAt(sch.fields, k).value].node;
      forall q | TypeAt(node, q).Some? ensures At(t.vals[k], q) == At(u.vals[k], q) {
        Below(sch, t, k, q);
        Below(sch, u, k, q);
      }
      if node.Section? {
        SameTree(node, t.vals[k], u.vals[k]);
      } else {
        assert TypeAt(node, []).Some?;
      }
    }
  }

  lemma {:induction false} Below(sch: Schema, t: Tree, k: string, q: Path)
    requires Canonical(sch, t) && k in t.vals && CanonicalKey(sch, k, t.vals[k])
    ensures
      var node := sch.fields[FieldAt(sch.fields, k).value].node;
      TypeAt(sch, [k] + q) == TypeAt(node, q) && At(t, [k] + q) == At(t.vals[k], q)
  {
    assert ([k] + q)[1..] == q;
  }

  lemma {:induction false} SameKeys(sch: Schema, t: Tree, u: Tree)
    requires Canonical(sch, t) && Canonical(sch, u) && SameSettings(sch, t, u)
    ensures t.vals.Keys <= u.vals.Keys
  {
    forall k | k in t.vals ensures k in u.vals {
      assert CanonicalKey(sch, k, t.vals[k]);
      var node := sch.fields[FieldAt(sch.fields, k).value].node;
      var q: Path := [];
      if node.Section? {
        q := SomeSetting(node, t.vals[k]);
      }
      Below(sch, t, k, q);
      assert At(u, [k] + q).Some?;
    }
  }

  // ----- laid again -----

  /** The parsed shape of a canonical tree gives each setting what is staged for it. */
  lemma {:induction false} GivenStaged(fl: Floats, sch: Schema, t: Tree, p: Path)
    requires WfSchema(fl, sch) && Canonical(sch, t) && TypeAt(sch, p).Some?
    ensures Given(sch, ToPlain(fl, t), p) == match At(t, p) case None => None case Some(e) => Some(ToPlain(fl, e))
    decreases p
  {
    var i := FieldAt(sch.fields, p[0]).value;
    var f, plain := sch.fields[i], ToPlain(fl, t);
    if p[0] in t.vals {
      assert CanonicalKey(sch, p[0], t.vals[p[0]]);
      assert FindKey(plain, KeysOf(f)) == Some(ToPlain(fl, t.vals[p[0]]));
      if f.node.Section? {
        GivenStaged(fl, f.node, t.vals[p[0]], p[1..]);
      }
    } else {
      forall k | k in KeysOf(f) ensures Lookup(plain, k).None? {
        var j := FieldAt(sch.fields, k);
        assert j.Some? ==> k in KeysOf(sch.fields[j.value]);
        assert k in t.vals ==> CanonicalKey(sch, k, t.vals[k]);
      }
      CodecLaw.NoKey(plain, KeysOf(f));
    }
  }

  /** A section shows as staged exactly when a setting in it is. */
  lemma {:induction false} StagedSection(sch: Schema, t: Tree, q: Path)
    requires Canonical(sch, t)
    ensures (exists p :: q <= p && TypeAt(sch, p).Some? && At(t, p).Some?) ==> At(t, q).Some?
    decreases q
  {
    if p: Path :| q <= p && TypeAt(sch, p).Some? && At(t, p).Some? {
      Above(t, q, p);
    }
  }

  lemma {:induction false} Above(t: Tree, q: Path, p: Path)
    requires q <= p && At(t, p).Some?
    ensures At(t, q).Some?
    decreases q
  {
    if q != [] {
      Above(t.vals[q[0]], q[1..], p[1..]);
    }
  }
}
