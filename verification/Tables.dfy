/** The staging tree as the program keeps it: tables on the heap, each a list of
    keys in insertion order beside a map, the tables below it reached by reference.
    Every operation is proved against its meaning on the tree's value. */
module Tables {
  import opened Options
  import opened Codec
  import opened Staging

  /** What a table holds at a key: a table of its own, or a value that is none. */
  datatype Node = Leaf(tree: Tree) | Sub(table: OrderedTable)

  /** The order of a table's keys, and that of the tables below it. */
  datatype Layout = Layout(keys: seq<string>, below: map<string, Layout>)

  /** A list of a map's keys, without repeats. */
  ghost predicate Lists<V>(keys: seq<string>, vals: map<string, V>) {
    && (forall i, j | 0 <= i < j < |keys| :: keys[i] != keys[j])
    && forall k :: k in keys <==> k in vals
  }

  lemma {:induction false} ListsMore<V>(keys: seq<string>, vals: map<string, V>, key: string, v: V)
    requires Lists(keys, vals)
    ensures Lists(if key in vals then keys else keys + [key], vals[key := v])
  {
  }

  /** The list without its entry for key. */
  method RemoveKey<V>(keys: seq<string>, key: string, ghost vals: map<string, V>) returns (rest: seq<string>)
    requires Lists(keys, vals) && key in keys
    ensures Lists(rest, vals - {key})
  {
    var i := 0;
    while keys[i] != key
      invariant 0 <= i < |keys| && key in keys[i..]
      decreases |keys| - i
    {
      i := i + 1;
    }
    rest := keys[..i] + keys[i + 1..];
    forall k ensures k in rest <==> k in keys && k != key {
      if k in keys && k != key {
        var j :| 0 <= j < |keys| && keys[j] == k;
        assert rest[if j < i then j else j - 1] == k;
      }
    }
  }

  /** The tables directly below, with everything below them, make up no more than
      within, and no two of them share a table. */
  ghost predicate Nest(vals: map<string, Node>, within: set<OrderedTable>)
    reads within
    decreases within, 1
  {
    && (forall k | k in vals && vals[k].Leaf? :: !vals[k].tree.Table?)
    && (forall k | k in vals && vals[k].Sub? ::
          vals[k].table in within && vals[k].table.Repr <= within && vals[k].table.Valid())
    && (forall k, l | k in vals && l in vals && k != l && vals[k].Sub? && vals[l].Sub? ::
          vals[k].table.Repr !! vals[l].table.Repr)
  }

  ghost function Views(vals: map<string, Node>, within: set<OrderedTable>): map<string, Tree>
    requires Nest(vals, within)
    reads within
    decreases within, 1
  {
    map k | k in vals :: if vals[k].Leaf? then vals[k].tree else vals[k].table.View()
  }

  ghost function Layouts(vals: map<string, Node>, within: set<OrderedTable>): map<string, Layout>
    requires Nest(vals, within)
    reads within
    decreases within, 1
  {
    map k | k in vals && vals[k].Sub? :: vals[k].table.Order()
  }

  class OrderedTable {
    var keys: seq<string>
    var vals: map<string, Node>
    ghost var Repr: set<OrderedTable>

    /** The key list is free of repeats and lists the map's keys; no table is
        reached twice. */
    ghost predicate Valid()
      reads this, Repr
      decreases Repr, 0
    {
      this in Repr && Lists(keys, vals) && Nest(vals, Repr - {this})
    }

    /** The value of the table, the order of keys apart. */
    ghost function View(): (t: Tree)
      requires Valid()
      reads this, Repr
      ensures t.Table?
      decreases Repr, 0
    {
      Table(Views(vals, Repr - {this}))
    }

    /** The order of its keys, at every depth. */
    ghost function Order(): Layout
      requires Valid()
      reads this, Repr
      decreases Repr, 0
    {
      Layout(keys, Layouts(vals, Repr - {this}))
    }

    /** What stands at a key, and how it shows. */
    lemma {:induction false} Entry(key: string)
      requires Valid() && key in vals
      ensures key in View().vals
      ensures Fits(vals[key]) && View().vals[key] == ViewOf(vals[key])
      ensures vals[key].Sub? ==> vals[key].table.Repr < Repr && this !in vals[key].table.Repr
    {
    }

    /** The rest of the table, apart from one of the tables below it. */
    lemma {:induction false} Detached(key: string, child: OrderedTable)
      requires Valid() && key in vals && vals[key] == Sub(child)
      ensures child.Valid() && child.Repr < Repr && this !in child.Repr
      ensures
        var apart := Repr - {this} - child.Repr;
        Nest(vals - {key}, apart) && Views(vals - {key}, apart) == View().vals - {key}
    {
      NestLess(vals, Repr - {this}, key);
      assert ReprOf(vals[key]) == child.Repr;
    }

    lemma {:induction false} Shown()
      requires Valid()
      ensures forall k :: k in keys <==> k in View().vals
      ensures Order().keys == keys && Order().below.Keys <= View().vals.Keys
    {
    }

    lemma {:induction false} NewKey(i: nat)
      requires Valid() && i < |keys|
      ensures keys[i] in vals && keys[i] in View().vals && keys[i] !in keys[..i]
    {
    }

    lemma {:induction false} EmptyWhen()
      requires Valid()
      ensures |keys| == 0 <==> View() == NOTHING
    {
      if |keys| == 0 {
        assert View().vals == map[];
      } else {
        assert keys[0] in View().vals;
      }
    }

    constructor ()
      ensures Valid() && fresh(Repr) && View() == NOTHING && Order() == Layout([], map[])
    {
      keys, vals := [], map[];
      Repr := {this};
    }

    /** Takes these keys and entries, over the tables in below. */
    method Hold(keys: seq<string>, vals: map<string, Node>, ghost below: set<OrderedTable>)
      requires Lists(keys, vals) && Nest(vals, below) && this !in below
      modifies this
      ensures Valid() && Repr == {this} + below
      ensures View() == Table(old(Views(vals, below)))
      ensures Order() == Layout(keys, old(Layouts(vals, below)))
    {
      SetFields(keys, vals, {this} + below);
      assert Repr - {this} == below;
    }

    method SetFields(keys: seq<string>, vals: map<string, Node>, ghost repr: set<OrderedTable>)
      modifies this
      ensures this.keys == keys && this.vals == vals && Repr == repr
    {
      this.keys, this.vals, Repr := keys, vals, repr;
    }

    /** Stores a node that shares no table with this one. */
    method Put(key: string, node: Node)
      requires Valid() && Fits(node) && ReprOf(node) !! Repr
      modifies this
      ensures Valid() && Repr == old(Repr) + ReprOf(node)
      ensures View() == Table(old(View().vals)[key := old(ViewOf(node))])
      ensures Order() == WithKey(old(Order()), key, old(OrderOf(node)))
    {
      ListsMore(keys, vals, key, node);
      NodeMore(keys, vals, Repr - {this}, key, node);
      Hold(if key in vals then keys else keys + [key], vals[key := node], Repr - {this} + ReprOf(node));
    }

    /** Drops a key, if it is there. */
    method Delete(key: string)
      requires Valid()
      modifies this
      ensures Valid() && Repr == old(Repr)
      ensures View() == Table(old(View().vals) - {key})
    {
      Shown();
      if key in vals {
        Drop(key);
      } else {
        assert View().vals - {key} == View().vals;
      }
    }

    method Drop(key: string)
      requires Valid() && key in vals
      modifies this
      ensures Valid() && Repr == old(Repr)
      ensures View() == Table(old(View().vals) - {key})
    {
      ghost var below := Repr - {this};
      NestDropped(vals, below, key);
      var left := RemoveKey(keys, key, vals);
      Hold(left, vals - {key}, below);
    }

    /** What stands at key now holds t. */
    method Store(key: string, t: Tree)
      requires Valid()
      modifies this
      ensures Valid() && fresh(Repr - old(Repr)) && View() == Table(old(View().vals)[key := t])
      decreases t, 1
    {
      if t.Table? {
        var table := FromTree(t);
        Put(key, Sub(table));
      } else {
        Put(key, Leaf(t));
      }
    }

    /** Sets the leaf at a path, creating tables on the way. */
    method SetStaged(path: Path, v: Tree)
      requires Valid() && path != []
      modifies Repr
      ensures Valid() && fresh(Repr - old(Repr))
      ensures View() == SetAt(old(View()), path, v)
      decreases |path|, 0
    {
      if |path| == 1 {
        Store(path[0], v);
      } else if path[0] in vals && vals[path[0]].Sub? {
        Entry(path[0]);
        SetBelow(path[0], vals[path[0]].table, path[1..], v);
      } else {
        if path[0] in vals {
          Entry(path[0]);
        }
        SetNew(path[0], path[1..], v);
      }
    }

    method SetNew(key: string, path: Path, v: Tree)
      requires Valid() && path != []
      modifies this
      ensures Valid() && fresh(Repr - old(Repr))
      ensures View() == Table(old(View().vals)[key := SetAt(NOTHING, path, v)])
      decreases |path|, 2
    {
      var child := NewStaged(path, v);
      Put(key, Sub(child));
    }

    /** A new table with just a leaf at a path. */
    static method NewStaged(path: Path, v: Tree) returns (table: OrderedTable)
      requires path != []
      ensures fresh(table.Repr) && table.Valid() && table.View() == SetAt(NOTHING, path, v)
      decreases |path|, 1
    {
      table := new OrderedTable();
      table.SetStaged(path, v);
    }

    method SetBelow(key: string, child: OrderedTable, path: Path, v: Tree)
      requires Valid() && path != [] && key in vals && vals[key] == Sub(child) && child.Valid()
      modifies Repr
      ensures Valid() && fresh(Repr - old(Repr))
      ensures View() == Table(old(View().vals)[key := SetAt(old(child.View()), path, v)])
      decreases |path|, 1
    {
      ghost var rest, apart, views := vals - {key}, Repr - {this} - child.Repr, View().vals;
      Detached(key, child);
      child.SetStaged(path, v);
      assert Nest(rest, apart) && Views(rest, apart) == views - {key};
      Reattach(key, child, rest, apart, views);
    }

    /** Deletes the leaf at a path, and the tables that it empties. */
    method DeleteStaged(path: Path)
      requires Valid() && path != []
      modifies Repr
      ensures Valid() && fresh(Repr - old(Repr))
      ensures View() == DeleteAt(old(View()), path)
      decreases |path|, 0
    {
      if |path| == 1 {
        Delete(path[0]);
        assert path[0] !in old(View()).vals ==> old(View()).vals - {path[0]} == old(View()).vals;
      } else if path[0] in vals {
        Entry(path[0]);
        if vals[path[0]].Sub? {
          DeleteBelow(path[0], vals[path[0]].table, path[1..]);
        }
      } else {
        assert path[0] !in View().vals;
      }
    }

    method DeleteBelow(key: string, child: OrderedTable, path: Path)
      requires Valid() && path != [] && key in vals && vals[key] == Sub(child) && child.Valid()
      modifies Repr
      ensures Valid() && fresh(Repr - old(Repr))
      ensures
        var left := DeleteAt(old(child.View()), path);
        View() == Table(if left == NOTHING then old(View().vals) - {key} else old(View().vals)[key := left])
      decreases |path|, 2
    {
      ghost var views := View().vals;
      DeleteInside(key, child, path);
      child.EmptyWhen();
      if |child.keys| == 0 {
        Delete(key);
        assert views[key := NOTHING] - {key} == views - {key};
      }
    }

    method DeleteInside(key: string, child: OrderedTable, path: Path)
      requires Valid() && path != [] && key in vals && vals[key] == Sub(child) && child.Valid()
      modifies Repr
      ensures Valid() && fresh(Repr - old(Repr)) && vals == old(vals) && child.Valid()
      ensures child.View() == DeleteAt(old(child.View()), path)
      ensures View() == Table(old(View().vals)[key := child.View()])
      decreases |path|, 1
    {
      ghost var rest, apart, views := vals - {key}, Repr - {this} - child.Repr, View().vals;
      Detached(key, child);
      child.DeleteStaged(path);
      assert Nest(rest, apart) && Views(rest, apart) == views - {key};
      Reattach(key, child, rest, apart, views);
    }

    /** Whether anything stands at a path. */
    method StagedAt(path: Path) returns (there: bool)
      requires Valid()
      ensures there == At(View(), path).Some?
    {
      var current := Sub(this);
      for i := 0 to |path|
        invariant Fits(current) && At(View(), path) == At(ViewOf(current), path[i..])
      {
        if current.Leaf? || path[i] !in current.table.vals {
          if current.Sub? {
            current.table.Shown();
          }
          return false;
        }
        current.table.Entry(path[i]);
        current := current.table.vals[path[i]];
      }
      return true;
    }

    /** The parsed shape of the whole table. */
    method Plain(fl: Floats) returns (t: Tree)
      requires Valid()
      ensures t == ToPlain(fl, View())
      decreases Repr, 1
    {
      Shown();
      ghost var views := View().vals;
      var out: map<string, Tree> := map[];
      for i := 0 to |keys|
        invariant Valid() && View() == Table(views)
        invariant Plained(fl, views, keys[..i], out)
      {
        var p := PlainAt(fl, keys[i]);
        assert keys[..i + 1] == keys[..i] + [keys[i]];
        out := out[keys[i] := p];
      }
      assert keys[..|keys|] == keys;
      PlainedAll(fl, views, keys, out);
      t := Dict(out);
    }

    method PlainAt(fl: Floats, key: string) returns (t: Tree)
      requires Valid() && key in vals
      ensures key in View().vals && t == ToPlain(fl, View().vals[key])
      decreases Repr, 0
    {
      Entry(key);
      if vals[key].Sub? {
        t := vals[key].table.Plain(fl);
      } else {
        t := ToPlain(fl, vals[key].tree);
      }
    }

    /** A copy that shares no table with the original. */
    method Clone() returns (out: OrderedTable)
      requires Valid()
      ensures fresh(out.Repr) && out.Valid() && out.View() == View() && out.Order() == Order()
      decreases Repr, 3
    {
      ghost var views, below := View().vals, Order().below;
      out := new OrderedTable();
      NoneCopied(views, below, keys);
      for i := 0 to |keys|
        invariant out.Valid() && fresh(out.Repr)
        invariant Valid() && View() == Table(views) && Order().below == below
        invariant Copied(views, below, keys[..i], out.View(), out.Order())
      {
        CopyNext(i, out, views, below);
      }
      Shown();
      AllCopied(views, below, keys, out.View(), out.Order());
    }

    method CopyNext(i: nat, out: OrderedTable, ghost views: map<string, Tree>, ghost below: map<string, Layout>)
      requires Valid() && i < |keys| && out.Valid() && out.Repr !! Repr
      requires View() == Table(views) && Order().below == below
      requires Copied(views, below, keys[..i], out.View(), out.Order())
      modifies out
      ensures out.Valid() && fresh(out.Repr - old(out.Repr))
      ensures Copied(views, below, keys[..i + 1], out.View(), out.Order())
      decreases Repr, 2
    {
      NewKey(i);
      CopiedMore(views, below, keys, i, out.View(), out.Order());
      CopyTo(keys[i], out);
    }

    method CopyTo(key: string, out: OrderedTable)
      requires Valid() && key in vals && out.Valid() && out.Repr !! Repr
      modifies out
      ensures out.Valid() && fresh(out.Repr - old(out.Repr))
      ensures key in old(View().vals) && out.View() == Table(old(out.View().vals[key := View().vals[key]]))
      ensures out.Order() == old(WithKey(out.Order(), key, LayoutAt(Order().below, key)))
      decreases Repr, 1
    {
      var node := CopyNode(key);
      out.Put(key, node);
    }

    /** A copy of what stands at a key. */
    method CopyNode(key: string) returns (node: Node)
      requires Valid() && key in vals
      ensures Fits(node) && fresh(ReprOf(node)) && key in View().vals
      ensures ViewOf(node) == View().vals[key] && OrderOf(node) == LayoutAt(Order().below, key)
      decreases Repr, 0
    {
      Entry(key);
      node := vals[key];
      if node.Sub? {
        var child := node.table.Clone();
        node := Sub(child);
      }
    }

    /** The branch at key has changed, and the others lie apart from it. */
    ghost method Reattach(key: string, child: OrderedTable, rest: map<string, Node>, apart: set<OrderedTable>,
                          views: map<string, Tree>)
      requires Lists(keys, vals) && key in vals && vals[key] == Sub(child) && child.Valid()
      requires rest == vals - {key} && Nest(rest, apart) && Views(rest, apart) == views - {key}
      requires this !in apart && this !in child.Repr && apart !! child.Repr
      modifies this`Repr
      ensures Valid() && Repr == {this} + apart + child.Repr
      ensures View() == Table(views[key := old(child.View())])
    {
      NestMore(rest, apart, key, vals[key]);
      ViewsMore(rest, apart, key, vals[key], apart + child.Repr);
      assert rest[key := vals[key]] == vals && (views - {key})[key := child.View()] == views[key := child.View()];
      Settle(apart + child.Repr);
    }

    /** The keys and entries it has are over the tables in below. */
    ghost method Settle(below: set<OrderedTable>)
      requires Lists(keys, vals) && Nest(vals, below) && this !in below
      modifies this`Repr
      ensures Valid() && Repr == {this} + below
      ensures View() == Table(old(Views(vals, below)))
    {
      Repr := {this} + below;
      assert Repr - {this} == below;
    }
  }

  ghost predicate Fits(node: Node)
    reads if node.Sub? then {node.table} + node.table.Repr else {}
  {
    if node.Sub? then node.table.Valid() else !node.tree.Table?
  }

  ghost function ViewOf(node: Node): Tree
    requires Fits(node)
    reads if node.Sub? then {node.table} + node.table.Repr else {}
  {
    if node.Sub? then node.table.View() else node.tree
  }

  ghost function ReprOf(node: Node): set<OrderedTable>
    reads if node.Sub? then {node.table} else {}
  {
    if node.Sub? then node.table.Repr else {}
  }

  ghost function OrderOf(node: Node): Option<Layout>
    requires Fits(node)
    reads if node.Sub? then {node.table} + node.table.Repr else {}
  {
    if node.Sub? then Some(node.table.Order()) else None
  }

  ghost function LayoutAt(below: map<string, Layout>, key: string): Option<Layout> {
    if key in below then Some(below[key]) else None
  }

  /** The order with what stands at key replaced; a new key goes last. */
  ghost function WithKey(order: Layout, key: string, at: Option<Layout>): Layout {
    Layout(if key in order.keys then order.keys else order.keys + [key],
           if at.Some? then order.below[key := at.value] else order.below - {key})
  }

  // ----- copying -----

  /** What is there of a copy of the table with these views and layouts, when the keys
      have been copied. */
  ghost predicate Copied(views: map<string, Tree>, below: map<string, Layout>, keys: seq<string>, view: Tree,
                         order: Layout) {
    view == Table(Part(views, keys)) && order == Layout(keys, Part(below, keys))
  }

  /** The entries at the keys. */
  ghost function Part<V>(m: map<string, V>, keys: seq<string>): map<string, V> {
    map k | k in m && k in keys :: m[k]
  }

  lemma {:induction false} NoneCopied(views: map<string, Tree>, below: map<string, Layout>, keys: seq<string>)
    ensures Copied(views, below, keys[..0], NOTHING, Layout([], map[]))
  {
    assert keys[..0] == [];
  }

  lemma {:induction false} CopiedMore(views: map<string, Tree>, below: map<string, Layout>, keys: seq<string>, i: nat,
                                      view: Tree, order: Layout)
    requires i < |keys| && keys[i] in views && keys[i] !in keys[..i]
    requires Copied(views, below, keys[..i], view, order)
    ensures Copied(views, below, keys[..i + 1], Table(view.vals[keys[i] := views[keys[i]]]),
                   WithKey(order, keys[i], LayoutAt(below, keys[i])))
  {
    assert keys[..i + 1] == keys[..i] + [keys[i]];
    OneMore(views, keys[..i], keys[i]);
    OneMore(below, keys[..i], keys[i]);
  }

  lemma {:induction false} OneMore<V>(m: map<string, V>, keys: seq<string>, key: string)
    requires key !in keys
    ensures key in m ==> Part(m, keys)[key := m[key]] == Part(m, keys + [key])
    ensures key !in m ==> Part(m, keys) - {key} == Part(m, keys + [key])
  {
  }

  lemma {:induction false} AllCopied(views: map<string, Tree>, below: map<string, Layout>, keys: seq<string>,
                                     view: Tree, order: Layout)
    requires Copied(views, below, keys[..|keys|], view, order)
    requires (forall k :: k in keys <==> k in views) && below.Keys <= views.Keys
    ensures view == Table(views) && order == Layout(keys, below)
  {
    assert keys[..|keys|] == keys;
  }

  /** The entries at the keys, in the parsed shape. */
  ghost predicate Plained(fl: Floats, views: map<string, Tree>, keys: seq<string>, out: map<string, Tree>) {
    && (forall k :: k in out <==> k in keys)
    && (forall k | k in out :: k in views && out[k] == ToPlain(fl, views[k]))
  }

  lemma {:induction false} PlainedAll(fl: Floats, views: map<string, Tree>, keys: seq<string>, out: map<string, Tree>)
    requires Plained(fl, views, keys, out) && forall k :: k in keys <==> k in views
    ensures Dict(out) == ToPlain(fl, Table(views))
  {
    assert out.Keys == views.Keys;
  }

  lemma {:induction false} NestMore(vals: map<string, Node>, within: set<OrderedTable>, key: string, node: Node)
    requires Nest(vals, within) && Fits(node) && ReprOf(node) !! within
    ensures Nest(vals[key := node], within + ReprOf(node))
  {
  }

  /** One more entry. */
  lemma {:induction false} NodeMore(keys: seq<string>, vals: map<string, Node>, below: set<OrderedTable>, key: string,
                                    node: Node)
    requires Lists(keys, vals) && Nest(vals, below) && Fits(node) && ReprOf(node) !! below
    ensures
      var more, within := vals[key := node], below + ReprOf(node);
      && Nest(more, within)
      && Views(more, within) == Views(vals, below)[key := ViewOf(node)]
      && Layout(if key in vals then keys else keys + [key], Layouts(more, within)) ==
         WithKey(Layout(keys, Layouts(vals, below)), key, OrderOf(node))
  {
    NestMore(vals, below, key, node);
    ViewsMore(vals, below, key, node, below + ReprOf(node));
    LayoutsMore(vals, below, key, node, below + ReprOf(node));
  }

  lemma {:induction false} ViewsMore(vals: map<string, Node>, within: set<OrderedTable>, key: string, node: Node,
                                     more: set<OrderedTable>)
    requires Nest(vals, within) && Fits(node) && Nest(vals[key := node], more)
    ensures Views(vals[key := node], more) == Views(vals, within)[key := ViewOf(node)]
  {
  }

  lemma {:induction false} LayoutsMore(vals: map<string, Node>, within: set<OrderedTable>, key: string, node: Node,
                                       more: set<OrderedTable>)
    requires Nest(vals, within) && Fits(node) && Nest(vals[key := node], more)
    ensures Layouts(vals[key := node], more) ==
            if node.Sub? then Layouts(vals, within)[key := node.table.Order()] else Layouts(vals, within) - {key}
  {
  }

  /** Without what stands at key, the rest keeps clear of the tables below it. */
  lemma {:induction false} NestLess(vals: map<string, Node>, within: set<OrderedTable>, key: string)
    requires Nest(vals, within) && key in vals
    ensures Nest(vals - {key}, within - ReprOf(vals[key]))
    ensures Views(vals - {key}, within - ReprOf(vals[key])) == Views(vals, within) - {key}
  {
  }

  lemma {:induction false} NestDropped(vals: map<string, Node>, within: set<OrderedTable>, key: string)
    requires Nest(vals, within) && key in vals
    ensures Nest(vals - {key}, within) && Views(vals - {key}, within) == Views(vals, within) - {key}
  {
  }

  /** A table holding t, of tables made for it. */
  method FromTree(t: Tree) returns (table: OrderedTable)
    requires t.Table?
    ensures fresh(table.Repr) && table.Valid() && table.View() == t
    decreases t, 0
  {
    table := new OrderedTable();
    var todo := t.vals.Keys;
    while todo != {}
      invariant table.Valid() && fresh(table.Repr) && todo <= t.vals.Keys
      invariant table.View() == Table(t.vals - todo)
      decreases todo
    {
      var k :| k in todo;
      assert (t.vals - todo)[k := t.vals[k]] == t.vals - (todo - {k});
      table.Store(k, t.vals[k]);
      todo := todo - {k};
    }
  }
}
