/** Layered documents: a deep merge of tables in which anything else is replaced by
    the overlay. */
module Merge {
  import opened Codec

  function MergeTrees(base: Tree, overlay: Tree): Tree
    decreases overlay
  {
    if !base.Dict? || !overlay.Dict? then overlay
    else
      Dict(map k | k in base.vals.Keys + overlay.vals.Keys ::
        if k !in overlay.vals then base.vals[k]
        else if k !in base.vals then overlay.vals[k]
        else MergeTrees(base.vals[k], overlay.vals[k]))
  }

  const EMPTY: Tree := Dict(map[])

  function Fold(acc: Tree, docs: seq<Tree>): Tree
    decreases docs
  {
    if docs == [] then acc else Fold(MergeTrees(acc, docs[0]), docs[1..])
  }

  /** The imports in order, then the importing file on top. */
  method MergeAll(imports: seq<Tree>, main: Tree) returns (merged: Tree)
    ensures merged == Fold(EMPTY, imports + [main])
  {
    var acc := EMPTY;
    ghost var docs := imports + [main];
    for k := 0 to |imports|
      invariant Fold(acc, docs[k..]) == Fold(EMPTY, docs)
    {
      assert docs[k..][0] == imports[k] && docs[k..][1..] == docs[k + 1..];
      acc := MergeTrees(acc, imports[k]);
    }
    assert docs[|imports|..] == [main] && [main][1..] == [];
    merged := MergeTrees(acc, main);
  }

  // ----- identity and idempotence -----

  lemma {:induction false} MergeIdempotent(t: Tree)
    ensures MergeTrees(t, t) == t
    decreases t
  {
    if t.Dict? {
      forall k | k in t.vals ensures MergeTrees(t.vals[k], t.vals[k]) == t.vals[k] {
        MergeIdempotent(t.vals[k]);
      }
      assert MergeTrees(t, t).vals == t.vals;
    }
  }

  lemma {:induction false} EmptyIsIdentity(t: Tree)
    ensures MergeTrees(EMPTY, t) == t
    ensures MergeTrees(t, EMPTY) == t <==> t.Dict?
  {
    if t.Dict? {
      assert MergeTrees(EMPTY, t).vals == t.vals;
      assert MergeTrees(t, EMPTY).vals == t.vals;
    }
  }

  // ----- what a merged document says at a path -----

  /** What one document says at a path: nothing, a value, or that something above
      the path is not a table. */
  datatype Verdict = Silent | Blocked | Says(v: Tree)

  function At(t: Tree, path: seq<string>): Verdict
    decreases path
  {
    if path == [] then Says(t)
    else if !t.Dict? then Blocked
    else if path[0] !in t.vals then Silent
    else At(t.vals[path[0]], path[1..])
  }

  /** The verdict of the last document that is not silent; a table joins tables
      that earlier documents left at the path. */
  function Ruling(docs: seq<Tree>, path: seq<string>): Verdict
    decreases docs
  {
    if docs == [] then Silent
    else
      var n := |docs| - 1;
      var last, before := At(docs[n], path), Ruling(docs[..n], path);
      match last
      case Silent => before
      case Blocked => Blocked
      case Says(v) => if before.Says? then Says(MergeTrees(before.v, v)) else last
  }

  lemma {:induction false} MergeAt(a: Tree, b: Tree, path: seq<string>)
    ensures At(b, path).Blocked? ==> !At(MergeTrees(a, b), path).Says?
    ensures At(b, path).Silent? ==> At(MergeTrees(a, b), path).Says? == At(a, path).Says?
    ensures At(b, path).Silent? && At(a, path).Says? ==> At(MergeTrees(a, b), path) == At(a, path)
    ensures At(b, path).Says? ==>
              At(MergeTrees(a, b), path) ==
              Says(if At(a, path).Says? then MergeTrees(At(a, path).v, At(b, path).v) else At(b, path).v)
    decreases path
  {
    if path != [] && a.Dict? && b.Dict? && path[0] in a.vals && path[0] in b.vals {
      MergeAt(a.vals[path[0]], b.vals[path[0]], path[1..]);
    }
  }

  lemma {:induction false} FoldInit(acc: Tree, docs: seq<Tree>, d: Tree)
    ensures Fold(acc, docs + [d]) == MergeTrees(Fold(acc, docs), d)
    decreases docs
  {
    if docs == [] {
      assert [] + [d] == [d] && [d][1..] == [];
    } else {
      assert (docs + [d])[1..] == docs[1..] + [d];
      FoldInit(MergeTrees(acc, docs[0]), docs[1..], d);
    }
  }

  /** The value at any path of the merged documents is the ruling of the documents
      in order: the last one that decides the path or blocks it has its way. */
  lemma {:induction false} MergedValue(docs: seq<Tree>, path: seq<string>)
    requires path != []
    ensures At(Fold(EMPTY, docs), path).Says? == Ruling(docs, path).Says?
    ensures Ruling(docs, path).Says? ==> At(Fold(EMPTY, docs), path) == Ruling(docs, path)
    decreases docs
  {
    if docs != [] {
      var n := |docs| - 1;
      MergedValue(docs[..n], path);
      assert docs == docs[..n] + [docs[n]];
      FoldInit(EMPTY, docs[..n], docs[n]);
      MergeAt(Fold(EMPTY, docs[..n]), docs[n], path);
    }
  }

  /** The n-th document says v at the path, and the later ones nothing. */
  ghost predicate LastSays(docs: seq<Tree>, path: seq<string>, v: Tree, n: int) {
    && 0 <= n < |docs|
    && At(docs[n], path) == Says(v)
    && forall m | n < m < |docs| :: At(docs[m], path).Silent?
  }

  /** For a value that is no table: it stands at the path exactly when the last
      document that is not silent there says so. */
  lemma {:induction false} LastWins(docs: seq<Tree>, path: seq<string>, v: Tree)
    requires path != [] && !v.Dict?
    ensures At(Fold(EMPTY, docs), path) == Says(v) <==>
            exists n :: LastSays(docs, path, v, n)
  {
    MergedValue(docs, path);
    RulingIsLast(docs, path, v);
  }

  lemma {:induction false} RulingIsLast(docs: seq<Tree>, path: seq<string>, v: Tree)
    requires !v.Dict?
    ensures Ruling(docs, path) == Says(v) <==>
            exists n :: LastSays(docs, path, v, n)
    decreases docs
  {
    if docs != [] {
      var last := |docs| - 1;
      var before := docs[..last];
      RulingIsLast(before, path, v);
      assert forall m | 0 <= m < last :: before[m] == docs[m];
      if At(docs[last], path).Silent? {
        if n :| LastSays(before, path, v, n) {
          assert LastSays(docs, path, v, n);
        }
        if n :| LastSays(docs, path, v, n) {
          assert LastSays(before, path, v, n);
        }
      } else {
        assert At(docs[last], path) == Says(v) ==> LastSays(docs, path, v, last);
      }
    }
  }

  // ----- associativity -----

  /** Merging a under c changes nothing: whatever a has, c has already. */
  predicate Covers(c: Tree, a: Tree)
    decreases a
  {
    a.Dict? && c.Dict? ==>
      forall k | k in a.vals :: k in c.vals && Covers(c.vals[k], a.vals[k])
  }

  lemma {:induction false} CoversIsAbsorption(c: Tree, a: Tree)
    ensures MergeTrees(a, c) == c <==> Covers(c, a)
    decreases a
  {
    if a.Dict? && c.Dict? {
      var m := MergeTrees(a, c);
      forall k | k in a.vals && k in c.vals
        ensures MergeTrees(a.vals[k], c.vals[k]) == c.vals[k] <==> Covers(c.vals[k], a.vals[k])
      {
        CoversIsAbsorption(c.vals[k], a.vals[k]);
      }
      if Covers(c, a) {
        assert m.vals == c.vals;
      }
      if m == c {
        forall k | k in a.vals ensures k in c.vals && Covers(c.vals[k], a.vals[k]) {
          assert k in m.vals;
        }
      }
    }
  }

  /** The middle document never puts a non-table between two tables, unless the
      outer one covers the inner one there. */
  predicate Compatible(a: Tree, b: Tree, c: Tree)
    decreases a
  {
    if !a.Dict? || !c.Dict? then true
    else if !b.Dict? then Covers(c, a)
    else forall k | k in a.vals && k in b.vals && k in c.vals :: Compatible(a.vals[k], b.vals[k], c.vals[k])
  }

  /** Merging three documents is associative if and only if they are compatible. */
  lemma {:induction false} MergeAssociative(a: Tree, b: Tree, c: Tree)
    ensures MergeTrees(MergeTrees(a, b), c) == MergeTrees(a, MergeTrees(b, c)) <==> Compatible(a, b, c)
    decreases a
  {
    if a.Dict? && c.Dict? {
      if !b.Dict? {
        CoversIsAbsorption(c, a);
      } else {
        var l, r := MergeTrees(MergeTrees(a, b), c), MergeTrees(a, MergeTrees(b, c));
        assert l.vals.Keys == r.vals.Keys;
        forall k | k in l.vals
          ensures l.vals[k] == r.vals[k] <==>
                  (k in a.vals && k in b.vals && k in c.vals ==> Compatible(a.vals[k], b.vals[k], c.vals[k]))
        {
          if k in a.vals && k in b.vals && k in c.vals {
            MergeAssociative(a.vals[k], b.vals[k], c.vals[k]);
          }
        }
        if Compatible(a, b, c) {
          assert l.vals == r.vals;
        }
      }
    }
  }

  /** Documents that never disagree on table versus non-table are compatible. */
  predicate SameShape(a: Tree, b: Tree)
    decreases a
  {
    a.Dict? == b.Dict? && (a.Dict? ==> forall k | k in a.vals && k in b.vals :: SameShape(a.vals[k], b.vals[k]))
  }

  lemma {:induction false} AgreeingDocumentsAssociate(a: Tree, b: Tree, c: Tree)
    requires SameShape(a, b) && SameShape(b, c)
    ensures Compatible(a, b, c)
    decreases a
  {
    if a.Dict? && b.Dict? && c.Dict? {
      forall k | k in a.vals && k in b.vals && k in c.vals ensures Compatible(a.vals[k], b.vals[k], c.vals[k]) {
        AgreeingDocumentsAssociate(a.vals[k], b.vals[k], c.vals[k]);
      }
    }
  }

  /** A scalar between two tables: merging is not associative. */
  lemma {:induction false} NotAssociative()
    ensures
      var a, b, c := OVER_TABLE, SCALAR, EMPTY_TABLE;
      MergeTrees(MergeTrees(a, b), c) != MergeTrees(a, MergeTrees(b, c))
  {
    var a, b, c := OVER_TABLE, SCALAR, EMPTY_TABLE;
    assert "y" in a.vals["x"].vals;
    assert !Covers(c.vals["x"], a.vals["x"]);
    assert !Compatible(a.vals["x"], b.vals["x"], c.vals["x"]);
    MergeAssociative(a, b, c);
  }

  const OVER_TABLE: Tree := Dict(map["x" := Dict(map["y" := Bool(true)])])
  const SCALAR: Tree := Dict(map["x" := Bool(false)])
  const EMPTY_TABLE: Tree := Dict(map["x" := EMPTY])
}
