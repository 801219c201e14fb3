/** The staging tree: encoded leaves at paths, in nested tables. What setting,
    reading and deleting mean on its value. */
module Staging {
  import opened Options
  import opened Codec

  type Path = seq<string>

  const NOTHING: Tree := Table(map[])

  function At(t: Tree, p: Path): Option<Tree>
    decreases p
  {
    if p == [] then Some(t)
    else if !t.Table? || p[0] !in t.vals then None
    else At(t.vals[p[0]], p[1..])
  }

  /** Tables are created on the way, over anything that is not one. */
  function SetAt(t: Tree, p: Path, v: Tree): Tree
    decreases p
  {
    if p == [] then v
    else
      var vals := if t.Table? then t.vals else map[];
      Table(vals[p[0] := SetAt(if p[0] in vals then vals[p[0]] else NOTHING, p[1..], v)])
  }

  /** Tables that the deletion emptied go too. */
  function DeleteAt(t: Tree, p: Path): Tree
    requires p != []
    decreases p
  {
    if !t.Table? || p[0] !in t.vals then t
    else if |p| == 1 then Table(t.vals - {p[0]})
    else if !t.vals[p[0]].Table? then t
    else
      var child := DeleteAt(t.vals[p[0]], p[1..]);
      if child == NOTHING then Table(t.vals - {p[0]}) else Table(t.vals[p[0] := child])
  }

  /** Neither path leads through the other. */
  predicate Apart(p: Path, q: Path) { !(p <= q) && !(q <= p) }

  lemma {:induction false} ApartBelow(p: Path, q: Path)
    requires Apart(p, q) && p[0] == q[0]
    ensures |p| > 1 && |q| > 1 && Apart(p[1..], q[1..])
  {
    assert p == [p[0]] + p[1..] && q == [q[0]] + q[1..];
    assert p[1..] <= q[1..] ==> p <= q;
    assert q[1..] <= p[1..] ==> q <= p;
  }

  lemma {:induction false} ApartAbove(p: Path, q: Path)
    requires p != [] && q != [] && p[0] == q[0] && Apart(p[1..], q[1..])
    ensures Apart(p, q)
  {
    if |p| <= |q| {
      assert q[..|p|][1..] == q[1..][..|p| - 1];
    }
    if |q| <= |p| {
      assert p[..|q|][1..] == p[1..][..|q| - 1];
    }
  }

  lemma {:induction false} SetThenAt(t: Tree, p: Path, v: Tree)
    ensures At(SetAt(t, p, v), p) == Some(v)
    decreases p
  {
    if p != [] {
      var vals := if t.Table? then t.vals else map[];
      SetThenAt(if p[0] in vals then vals[p[0]] else NOTHING, p[1..], v);
    }
  }

  lemma {:induction false} SetElsewhere(t: Tree, p: Path, v: Tree, q: Path)
    requires Apart(p, q)
    ensures At(SetAt(t, p, v), q) == At(t, q)
    decreases p
  {
    if p[0] == q[0] {
      ApartBelow(p, q);
      var vals := if t.Table? then t.vals else map[];
      SetElsewhere(if p[0] in vals then vals[p[0]] else NOTHING, p[1..], v, q[1..]);
    }
  }

  lemma {:induction false} DeleteThenAt(t: Tree, p: Path)
    requires p != []
    ensures At(DeleteAt(t, p), p) == None
    decreases p
  {
    if |p| > 1 && t.Table? && p[0] in t.vals && t.vals[p[0]].Table? {
      DeleteThenAt(t.vals[p[0]], p[1..]);
    }
  }

  lemma {:induction false} DeleteElsewhere(t: Tree, p: Path, q: Path)
    requires p != [] && Apart(p, q)
    ensures At(DeleteAt(t, p), q) == At(t, q)
    decreases p
  {
    if p[0] == q[0] {
      ApartBelow(p, q);
      if t.Table? && p[0] in t.vals && t.vals[p[0]].Table? {
        DeleteElsewhere(t.vals[p[0]], p[1..], q[1..]);
      }
    }
  }

  /** No empty table, nor anything but a table, stands on the way to p. */
  predicate OpenTo(t: Tree, p: Path)
    decreases p
  {
    p != [] && t.Table? &&
    (p[0] in t.vals ==> |p| > 1 && t.vals[p[0]] != NOTHING && OpenTo(t.vals[p[0]], p[1..]))
  }

  /** Deleting undoes a first setting. */
  lemma {:induction false} DeleteUndoesSet(t: Tree, p: Path, v: Tree)
    requires OpenTo(t, p)
    ensures DeleteAt(SetAt(t, p, v), p) == t
    decreases p
  {
    if |p| == 1 {
      assert t.vals[p[0] := v] - {p[0]} == t.vals;
    } else if p[0] in t.vals {
      DeleteUndoesSet(t.vals[p[0]], p[1..], v);
      var child := SetAt(t.vals[p[0]], p[1..], v);
      assert t.vals[p[0] := child][p[0] := t.vals[p[0]]] == t.vals;
    } else {
      DeleteUndoesSet(NOTHING, p[1..], v);
      var child := SetAt(NOTHING, p[1..], v);
      assert t.vals[p[0] := child] - {p[0]} == t.vals;
    }
  }
}
