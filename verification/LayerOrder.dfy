/** How far a runtime layer gets: it goes through the settings in schema order and stops
    at the first that rejects what it is given, so a setting takes its value exactly
    when it is given one that decodes and no earlier setting rejects. */
module LayerOrder {
  import opened Options
  import opened Codec
  import opened Staging
  import opened Layers

  /** The setting at q comes before the one at p. */
  predicate Before(sch: Schema, q: Path, p: Path)
    decreases q
  {
    match sch
    case Setting(_) => false
    case Section(fields) =>
      if q == [] || p == [] || FieldAt(fields, q[0]).None? || FieldAt(fields, p[0]).None? then false
      else
        var i, j := FieldAt(fields, q[0]).value, FieldAt(fields, p[0]).value;
        i < j || (i == j && Before(fields[i].node, q[1..], p[1..]))
  }

  lemma {:induction false} BeforeIsStrict(sch: Schema, q: Path, p: Path)
    ensures !(Before(sch, q, p) && Before(sch, p, q))
    decreases q
  {
    if sch.Section? && q != [] && p != [] && FieldAt(sch.fields, q[0]).Some? && FieldAt(sch.fields, p[0]).Some? {
      BeforeIsStrict(sch.fields[FieldAt(sch.fields, q[0]).value].node, q[1..], p[1..]);
    }
  }

  /** Some setting before the one at p is given what it rejects. */
  ghost predicate StopsBefore(fl: Floats, sch: Schema, t: Tree, p: Path) {
    exists q :: RejectsBefore(fl, sch, t, q, p)
  }

  ghost predicate RejectsBefore(fl: Floats, sch: Schema, t: Tree, q: Path, p: Path) {
    TypeAt(sch, q).Some? && Before(sch, q, p) && Given(sch, t, q).Some? && Decoded(fl, sch, t, q).None?
  }

  // ----- the walk is in order -----

  ghost predicate InOrder(sch: Schema, at: nat, vs: seq<Visit>) {
    && (forall v | v in vs :: at <= |v.path|)
    && forall m, n | 0 <= m < n < |vs| :: Before(sch, vs[m].path[at..], vs[n].path[at..])
  }

  lemma {:induction false} VisitsInOrder(fl: Floats, sch: Schema, t: Tree, at: Path)
    requires WfSchema(fl, sch)
    ensures InOrder(sch, |at|, Visits(sch, t, at))
    decreases sch, 1, 0
  {
    if sch.Section? && IsTable(t) {
      VisitsFromInOrder(fl, sch, t, at, 0);
    }
  }

  /** The visits below the fields from the k-th on, and where they lead. */
  ghost predicate From(sch: Schema, at: Path, k: nat, vs: seq<Visit>)
    requires sch.Section?
  {
    forall v | v in vs :: |at| < |v.path| && var i := FieldAt(sch.fields, v.path[|at|]); i.Some? && i.value >= k
  }

  lemma {:induction false} VisitsFromInOrder(fl: Floats, sch: Schema, t: Tree, at: Path, k: nat)
    requires sch.Section? && k <= |sch.fields| && WfSchema(fl, sch)
    ensures InOrder(sch, |at|, VisitsFrom(sch, t, at, k)) && From(sch, at, k, VisitsFrom(sch, t, at, k))
    decreases sch, 0, |sch.fields| - k
  {
    if k < |sch.fields| {
      VisitsFromInOrder(fl, sch, t, at, k + 1);
      FieldInOrder(fl, sch, t, at, k);
      Joined(sch, at, k, VisitField(sch.fields[k], t, at), VisitsFrom(sch, t, at, k + 1));
    }
  }

  /** The visits below one field. */
  ghost predicate Under(sch: Schema, at: Path, k: nat, vs: seq<Visit>)
    requires sch.Section?
  {
    forall v | v in vs :: |at| < |v.path| && FieldAt(sch.fields, v.path[|at|]) == Some(k)
  }

  lemma {:induction false} FieldInOrder(fl: Floats, sch: Schema, t: Tree, at: Path, k: nat)
    requires sch.Section? && k < |sch.fields| && WfSchema(fl, sch)
    ensures InOrder(sch, |at|, VisitField(sch.fields[k], t, at)) && Under(sch, at, k, VisitField(sch.fields[k], t, at))
    decreases sch, 0, 0
  {
    var f := sch.fields[k];
    var val := FindKey(t, KeysOf(f));
    FieldAtKey(fl, sch, k);
    if !f.nolayer && val.Some? {
      BelowInOrder(fl, f.node, val.value, at + [f.key]);
      Lifted(sch, at, k, f.node, val.value, Visits(f.node, val.value, at + [f.key]));
    }
  }

  lemma {:induction false} BelowInOrder(fl: Floats, node: Schema, t: Tree, at: Path)
    requires WfSchema(fl, node)
    ensures InOrder(node, |at|, Visits(node, t, at)) && AllBelong(node, t, at, Visits(node, t, at))
    decreases node, 2
  {
    VisitsInOrder(fl, node, t, at);
    VisitsBelong(fl, node, t, at);
  }

  lemma {:induction false} Lifted(sch: Schema, at: Path, k: nat, node: Schema, t: Tree, vs: seq<Visit>)
    requires sch.Section? && k < |sch.fields| && sch.fields[k].node == node
    requires FieldAt(sch.fields, sch.fields[k].key) == Some(k)
    requires InOrder(node, |at| + 1, vs) && AllBelong(node, t, at + [sch.fields[k].key], vs)
    ensures InOrder(sch, |at|, vs) && Under(sch, at, k, vs)
  {
    var below := at + [sch.fields[k].key];
    forall v | v in vs ensures |at| < |v.path| && v.path[|at|] == sch.fields[k].key {
      assert Belongs(node, t, below, v) && v.path[|at|] == below[|at|];
    }
    forall m, n | 0 <= m < n < |vs| ensures Before(sch, vs[m].path[|at|..], vs[n].path[|at|..]) {
      var q, p := vs[m].path[|at|..], vs[n].path[|at|..];
      assert vs[m] in vs && vs[n] in vs;
      assert q[0] == p[0] == sch.fields[k].key;
      assert q[1..] == vs[m].path[|at| + 1..] && p[1..] == vs[n].path[|at| + 1..];
    }
  }

  lemma {:induction false} Joined(sch: Schema, at: Path, k: nat, vs: seq<Visit>, ws: seq<Visit>)
    requires sch.Section? && InOrder(sch, |at|, vs) && InOrder(sch, |at|, ws)
    requires Under(sch, at, k, vs) && From(sch, at, k + 1, ws)
    ensures InOrder(sch, |at|, vs + ws) && From(sch, at, k, vs + ws)
  {
    var all := vs + ws;
    forall m, n | 0 <= m < n < |all| ensures Before(sch, all[m].path[|at|..], all[n].path[|at|..]) {
      if m < |vs| <= n {
        assert all[m] in vs && all[n] in ws;
        assert all[m].path[|at|..][0] == all[m].path[|at|] && all[n].path[|at|..][0] == all[n].path[|at|];
      } else if m >= |vs| {
        assert all[m] == ws[m - |vs|] && all[n] == ws[n - |vs|];
      } else {
        assert all[m] == vs[m] && all[n] == vs[n];
      }
    }
  }

  // ----- the run stops at the first rejection -----

  predicate RejectedVisit(fl: Floats, v: Visit) { Decode(fl, v.ty, Zero(fl, v.ty), v.raw).None? }

  /** The n-th visit takes effect exactly when none before it is rejected. */
  lemma {:induction false} RunReaches(fl: Floats, sch: Schema, t: Tree, st: State, vs: seq<Visit>, n: nat, p: Path)
    requires AllBelong(sch, t, [], vs) && sch.Section? && TypeAt(sch, p).Some? && !st.failed
    requires n < |vs| && vs[n].path == p && Decoded(fl, sch, t, p).Some?
    requires forall m | 0 <= m < |vs| && m != n :: vs[m].path != p
    ensures
      var after := Run(fl, RuntimeLayer, st, vs);
      if exists m :: 0 <= m < n && RejectedVisit(fl, vs[m]) then Kept(st, after, p)
      else Took(sch, after, p, Decoded(fl, sch, t, p).value)
    decreases n
  {
    var next, rest := Take(fl, RuntimeLayer, st, vs[0]), vs[1..];
    TakeAt(fl, RuntimeLayer, sch, t, st, vs[0], p);
    if n == 0 {
      assert Belongs(sch, t, [], vs[0]) && p[0..] == p;
      RunAt(fl, RuntimeLayer, sch, t, next, rest, p);
    } else if !RejectedVisit(fl, vs[0]) {
      RunReaches(fl, sch, t, next, rest, n - 1, p);
      RejectedLater(fl, vs, n);
    }
  }

  lemma {:induction false} RejectedLater(fl: Floats, vs: seq<Visit>, n: nat)
    requires 0 < n < |vs| && !RejectedVisit(fl, vs[0])
    ensures (exists m :: 0 <= m < n && RejectedVisit(fl, vs[m])) <==>
            exists m :: 0 <= m < n - 1 && RejectedVisit(fl, vs[1..][m])
  {
    if m :| 0 <= m < n && RejectedVisit(fl, vs[m]) {
      assert vs[1..][m - 1] == vs[m];
    }
  }

  /** What a runtime layer does to the setting at p, whatever else it holds. */
  lemma {:induction false} RuntimeLayAt(fl: Floats, sch: Schema, st: State, t: Tree, p: Path)
    requires WfSchema(fl, sch) && sch.Section? && TypeAt(sch, p).Some? && !st.failed
    ensures
      var after, val := Lay(fl, RuntimeLayer, sch, st, t), Decoded(fl, sch, t, p);
      if val.Some? && !StopsBefore(fl, sch, t, p) then Took(sch, after, p, val.value) else Kept(st, after, p)
  {
    LayAt(fl, RuntimeLayer, sch, st, t, p);
    if Decoded(fl, sch, t, p).Some? {
      var vs := Visits(sch, t, []);
      VisitsBelong(fl, sch, t, []);
      VisitsInOrder(fl, sch, t, []);
      var n := VisitIndex(fl, sch, t, p);
      RunReaches(fl, sch, t, st, vs, n, p);
      StopsAtVisit(fl, sch, t, vs, n, p);
    }
  }

  lemma {:induction false} VisitIndex(fl: Floats, sch: Schema, t: Tree, p: Path) returns (n: nat)
    requires WfSchema(fl, sch) && TypeAt(sch, p).Some? && Given(sch, t, p).Some?
    requires InOrder(sch, 0, Visits(sch, t, []))
    ensures
      var vs := Visits(sch, t, []);
      n < |vs| && vs[n].path == p && forall m | 0 <= m < |vs| && m != n :: vs[m].path != p
  {
    var vs := Visits(sch, t, []);
    Visited(fl, sch, t, [], p);
    assert [] + p == p;
    n :| n < |vs| && vs[n] == Visit(p, TypeAt(sch, p).value, Given(sch, t, p).value);
    forall m | 0 <= m < |vs| && m != n ensures vs[m].path != p {
      BeforeIsStrict(sch, p, p);
      assert Before(sch, vs[if m < n then m else n].path[0..], vs[if m < n then n else m].path[0..]);
      assert p[0..] == p && vs[m].path[0..] == vs[m].path;
    }
  }

  lemma {:induction false} StopsAtVisit(fl: Floats, sch: Schema, t: Tree, vs: seq<Visit>, n: nat, p: Path)
    requires WfSchema(fl, sch) && vs == Visits(sch, t, []) && AllBelong(sch, t, [], vs) && InOrder(sch, 0, vs)
    requires n < |vs| && vs[n].path == p
    ensures StopsBefore(fl, sch, t, p) <==> exists m :: 0 <= m < n && RejectedVisit(fl, vs[m])
  {
    if m :| 0 <= m < n && RejectedVisit(fl, vs[m]) {
      var q := vs[m].path;
      assert Belongs(sch, t, [], vs[m]) && q[0..] == q && p[0..] == p;
      assert RejectsBefore(fl, sch, t, q, p);
    }
    if q :| RejectsBefore(fl, sch, t, q, p) {
      var m := VisitIndex(fl, sch, t, q);
      assert Belongs(sch, t, [], vs[m]) && q[0..] == q && p[0..] == p;
      BeforeIsStrict(sch, q, p);
      BeforeIsStrict(sch, q, q);
      assert vs[m].path[0..] == q && vs[n].path[0..] == p && m < n;
      assert RejectedVisit(fl, vs[m]);
    }
  }
}
