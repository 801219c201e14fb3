/** The resolver as the program runs it: one scope whose fields change during
    the walk, and builders that output is appended to. Every method is proved to
    leave exactly the state and the text of its specification function. */
module Resolver {
  import opened FluentSyntax
  import opened Options
  import opened FluentValues
  import opened ResolverSpec
  import Literal

  class Builder {
    var text: string

    constructor ()
      ensures text == ""
    {
      text := "";
    }

    method Write(s: string)
      modifies this
      ensures text == old(text) + s
    {
      text := text + s;
    }
  }

  /** A duplicate id keeps the first definition. */
  method NewBundle(res: Resource, num: Numerics) returns (b: Bundle)
    ensures BundleOf(b, res.entries, num)
  {
    b := Bundle(map[], map[], num);
    for i := 0 to |res.entries|
      invariant BundleOf(b, res.entries[..i], num)
    {
      var e := res.entries[i];
      AddedEntry(b, res.entries[..i], e, num);
      assert res.entries[..i + 1] == res.entries[..i] + [e];
      if e.id !in Table(b, e.term) {
        b := Bound(b, e);
      }
    }
    assert res.entries[..|res.entries|] == res.entries;
  }

  function Bound(b: Bundle, e: Entry): Bundle {
    if e.term then b.(terms := b.terms[e.id := e]) else b.(messages := b.messages[e.id := e])
  }

  lemma {:induction false} AddedEntry(b: Bundle, es: seq<Entry>, e: Entry, num: Numerics)
    requires BundleOf(b, es, num)
    ensures BundleOf(if e.id in Table(b, e.term) then b else Bound(b, e), es + [e], num)
  {
    var after, more := if e.id in Table(b, e.term) then b else Bound(b, e), es + [e];
    forall term, id
      ensures Defines(more, term, id) <==> Defines(es, term, id) || (term == e.term && id == e.id)
    {
      assert e in more && forall x :: x in more <==> x in es || x == e;
    }
    assert forall term, id :: id in Table(after, term) <==> id in Table(b, term) || (term == e.term && id == e.id);
    forall term, id | id in Table(after, term) ensures FirstDefinition(more, term, id, Table(after, term)[id]) {
      if id in Table(b, term) {
        var k :| FirstAt(es, term, id, Table(b, term)[id], k);
        assert FirstAt(more, term, id, Table(after, term)[id], k);
      } else {
        NotBefore(es, term, id);
        assert FirstAt(more, term, id, Table(after, term)[id], |es|);
      }
    }
  }

  lemma {:induction false} NotBefore(es: seq<Entry>, term: bool, id: string)
    requires !Defines(es, term, id)
    ensures forall j | 0 <= j < |es| :: !(es[j].term == term && es[j].id == id)
  {
    forall j | 0 <= j < |es| ensures !(es[j].term == term && es[j].id == id) {
      assert es[j] in es;
    }
  }

  /** The bundle binds each identifier that the entries define to its first
      definition, messages and terms apart. */
  ghost predicate BundleOf(b: Bundle, es: seq<Entry>, num: Numerics) {
    && b.num == num
    && (forall term, id :: id in Table(b, term) <==> Defines(es, term, id))
    && (forall term, id | id in Table(b, term) :: FirstDefinition(es, term, id, Table(b, term)[id]))
  }

  /** There is one such bundle. */
  lemma {:induction false} BundleUnique(b: Bundle, c: Bundle, es: seq<Entry>, num: Numerics)
    requires BundleOf(b, es, num) && BundleOf(c, es, num)
    ensures b == c
  {
    forall term, id | id in Table(b, term)
      ensures id in Table(c, term) && Table(c, term)[id] == Table(b, term)[id]
    {
      assert Defines(es, term, id);
      var j :| FirstAt(es, term, id, Table(b, term)[id], j);
      var k :| FirstAt(es, term, id, Table(c, term)[id], k);
    }
    forall term, id | id in Table(c, term) ensures id in Table(b, term) {
      assert Defines(es, term, id);
    }
    assert Table(b, true) == Table(c, true) && Table(b, false) == Table(c, false);
  }

  ghost predicate Defines(es: seq<Entry>, term: bool, id: string) {
    exists e :: e in es && e.term == term && e.id == id
  }

  ghost predicate FirstAt(es: seq<Entry>, term: bool, id: string, e: Entry, k: int) {
    && 0 <= k < |es| && es[k] == e && e.term == term && e.id == id
    && forall j | 0 <= j < k :: !(es[j].term == term && es[j].id == id)
  }

  ghost predicate FirstDefinition(es: seq<Entry>, term: bool, id: string, e: Entry) {
    exists k :: FirstAt(es, term, id, e, k)
  }

  class Scope {
    const bundle: Bundle
    const args: Args
    ghost const store: Store
    var localArgs: Option<Args>
    var placeables: nat
    var traveled: seq<PatternId>
    var dirty: bool

    constructor (bundle: Bundle, args: Args)
      ensures this.bundle == bundle && this.args == args && store == StoreOf(bundle) && State() == START && Valid()
    {
      this.bundle, this.args, store := bundle, args, StoreOf(bundle);
      localArgs, placeables, traveled, dirty := None, 0, [], false;
    }

    ghost function State(): St
      reads this
    {
      St(placeables, traveled, dirty, localArgs)
    }

    ghost predicate Valid()
      reads this
    {
      && Represents(store, bundle)
      && Counted(State())
      && Stack(store, traveled)
    }

    method WritePattern(w: Builder, p: Pattern, pid: PatternId)
      requires Valid()
      modifies this, w
      ensures Valid()
      ensures State() == ResolverSpec.WritePattern(store, args, p, pid, old(State())).0
      ensures w.text == old(w.text) + ResolverSpec.WritePattern(store, args, p, pid, old(State())).1
      decreases Room(store, State()), p, 1
    {
      var i := 0;
      ghost var start := State();
      while i < |p.elements|
        invariant i <= |p.elements|
        invariant Valid() && Room(store, State()) <= Room(store, start)
        invariant WriteElements(store, args, p, pid, 0, start).0 == WriteElements(store, args, p, pid, i, State()).0
        invariant w.text + WriteElements(store, args, p, pid, i, State()).1 ==
                  old(w.text) + WriteElements(store, args, p, pid, 0, start).1
      {
        if dirty {
          return;
        }
        ghost var out, text := ResolverSpec.WriteElement(store, args, p, pid, i, State()).1, w.text;
        WriteElement(w, p, pid, i);
        i := i + 1;
        ghost var rest := WriteElements(store, args, p, pid, i, State()).1;
        assert text + (out + rest) == text + out + rest;
      }
    }

    /** The body of the element loop. */
    method WriteElement(w: Builder, p: Pattern, pid: PatternId, i: nat)
      requires Valid() && i < |p.elements| && !dirty
      modifies this, w
      ensures Valid()
      ensures State() == ResolverSpec.WriteElement(store, args, p, pid, i, old(State())).0
      ensures w.text == old(w.text) + ResolverSpec.WriteElement(store, args, p, pid, i, old(State())).1
      decreases Room(store, State()), p, 0
    {
      var el := p.elements[i];
      if el.Text? {
        w.Write(el.text);
        return;
      }
      placeables := placeables + 1;
      if placeables > MAX_PLACEABLES {
        dirty := true;
        return;
      }
      var isolate := |p.elements| > 1 && NeedsIsolation(el.expr);
      if isolate {
        w.Write([FSI]);
      }
      if traveled == [] {
        traveled := [pid];
      }
      ghost var before, out := w.text, ResolverSpec.WriteMarked(store, args, el.expr, State()).1;
      WriteClosed(w, el.expr, isolate);
      assert isolate ==> before == old(w.text) + [FSI] && before + (out + [PDI]) == old(w.text) + ([FSI] + out + [PDI]);
    }

    /** The expression, and the mark that closes its isolation. */
    method WriteClosed(w: Builder, e: Expression, isolate: bool)
      requires Valid() && traveled != []
      modifies this, w
      ensures Valid()
      ensures State() == ResolverSpec.WriteMarked(store, args, e, old(State())).0
      ensures
        var out := ResolverSpec.WriteMarked(store, args, e, old(State())).1;
        w.text == old(w.text) + if isolate then out + [PDI] else out
      decreases Room(store, State()), e, 2
    {
      ghost var before, out := w.text, ResolverSpec.WriteMarked(store, args, e, State()).1;
      WriteMarked(w, e);
      if isolate {
        w.Write([PDI]);
        assert before + out + [PDI] == before + (out + [PDI]);
      }
    }

    /** The expression of a placeable, and the marker it leaves when the limit
        cut it short. */
    method WriteMarked(w: Builder, e: Expression)
      requires Valid() && traveled != []
      modifies this, w
      ensures Valid()
      ensures State() == ResolverSpec.WriteMarked(store, args, e, old(State())).0
      ensures w.text == old(w.text) + ResolverSpec.WriteMarked(store, args, e, old(State())).1
      decreases Room(store, State()), e, 1
    {
      WriteExpression(w, e);
      if dirty {
        ghost var before := w.text;
        w.Write("{");
        w.Write(ErrorText(e));
        w.Write("}");
        assert w.text == before + ("{" + ErrorText(e) + "}");
      }
    }

    method WriteExpression(w: Builder, e: Expression)
      requires Valid() && traveled != []
      modifies this, w
      ensures Valid()
      ensures State() == ResolverSpec.WriteExpression(store, args, e, old(State())).0
      ensures w.text == old(w.text) + ResolverSpec.WriteExpression(store, args, e, old(State())).1
      decreases Room(store, State()), e, 0
    {
      if e.Inline? {
        WriteInline(w, e.e);
        return;
      }
      var selector := ResolveInline(e.selector);
      if selector.StringValue? || selector.NumberValue? {
        var i := 0;
        while i < |e.variants|
          invariant i <= |e.variants|
          invariant forall k | 0 <= k < i :: !Hit(bundle.num, e.variants[k], selector)
        {
          var v := e.variants[i];
          var key := StringValue(v.key);
          if v.numberKey {
            key := TryNumber(bundle.num, v.key);
          }
          if Matches(bundle.num, key, selector) {
            ChosenUnique(bundle.num, e.variants, selector, i, Choose(bundle.num, e.variants, selector));
            WritePattern(w, v.value, VariantPattern);
            return;
          }
          i := i + 1;
        }
      }
      var i := 0;
      while i < |e.variants|
        invariant i <= |e.variants|
        invariant forall k | 0 <= k < i :: !e.variants[k].isDefault
      {
        var v := e.variants[i];
        if v.isDefault {
          ChosenUnique(bundle.num, e.variants, selector, i, Choose(bundle.num, e.variants, selector));
          WritePattern(w, v.value, VariantPattern);
          return;
        }
        i := i + 1;
      }
      ChosenUnique(bundle.num, e.variants, selector, -1, Choose(bundle.num, e.variants, selector));
    }

    method WriteInline(w: Builder, e: InlineExpr)
      requires Valid() && traveled != []
      modifies this, w
      ensures Valid()
      ensures State() == ResolverSpec.WriteInline(store, args, e, old(State())).0
      ensures w.text == old(w.text) + ResolverSpec.WriteInline(store, args, e, old(State())).1
      decreases Room(store, State()), e, 1
    {
      match e {
        case StringLiteral(raw) =>
          var text := Literal.UnescapeLoop(raw);
          w.Write(text);
        case NumberLiteral(raw) =>
          w.Write(Written(bundle.num, TryNumber(bundle.num, raw)));
        case MessageRef(_, _) =>
          WriteReference(w, e);
        case TermRef(_, _, callArgs) =>
          var named := map[];
          if callArgs.Some? {
            named := NamedArgs(callArgs.value);
          }
          localArgs := Some(named);
          WriteReference(w, e);
          localArgs := None;
        case FunctionRef(_, callArgs) =>
          var _ := NamedArgs(callArgs);
          w.Write(RefError(e));
        case VariableRef(id) =>
          var scope := if localArgs.Some? then localArgs.value else args;
          if id in scope {
            w.Write(Written(bundle.num, scope[id]));
          } else {
            w.Write(RefError(e));
          }
        case NestedPlaceable(x) =>
          WriteExpression(w, x);
      }
    }

    /** The value or the attribute a message or term reference names. */
    method WriteReference(w: Builder, e: InlineExpr)
      requires Valid() && traveled != [] && (e.MessageRef? || e.TermRef?)
      modifies this, w
      ensures Valid()
      ensures State() == WriteTarget(store, args, e, old(State())).0
      ensures w.text == old(w.text) + WriteTarget(store, args, e, old(State())).1
      decreases Room(store, State()), e, 0, 1
    {
      var table := Table(bundle, e.TermRef?);
      if e.id !in table {
        w.Write(RefError(e));
      } else if e.attr != "" {
        var a := AttributeOf(table[e.id].attrs, e.attr);
        if a.Some? {
          Track(w, a.value, Target(e), e);
        } else {
          w.Write(RefError(e));
        }
      } else if table[e.id].value.Some? {
        Track(w, table[e.id].value.value, Target(e), e);
      } else {
        w.Write(RefError(e));
      }
    }

    method ResolveInline(e: InlineExpr) returns (v: Value)
      requires Valid() && traveled != []
      modifies this
      ensures Valid()
      ensures State() == ResolverSpec.ResolveInline(store, args, e, old(State())).0
      ensures v == ResolverSpec.ResolveInline(store, args, e, old(State())).1
      decreases Room(store, State()), e, 2
    {
      match e {
        case StringLiteral(raw) =>
          var text := Literal.UnescapeLoop(raw);
          v := StringValue(text);
        case NumberLiteral(raw) =>
          v := TryNumber(bundle.num, raw);
        case VariableRef(id) =>
          v := ErrorValue;
          if localArgs.Some? {
            if id in localArgs.value {
              v := localArgs.value[id];
            }
          } else if id in args {
            v := args[id];
          }
        case FunctionRef(_, _) =>
          v := ErrorValue;
        case _ =>
          var w := new Builder();
          WriteInline(w, e);
          v := StringValue(w.text);
      }
    }

    method NamedArgs(c: CallArgs) returns (named: Args)
      requires Valid() && traveled != []
      modifies this
      ensures Valid()
      ensures State() == ResolverSpec.NamedArgs(store, args, c, old(State())).0
      ensures named == ResolverSpec.NamedArgs(store, args, c, old(State())).1
      decreases Room(store, State()), c, 0
    {
      named := map[];
      ghost var start := State();
      var k := 0;
      while k < |c.positional|
        invariant k <= |c.positional|
        invariant Valid() && traveled == start.traveled
        invariant PositionalFrom(store, args, c, 0, start) == PositionalFrom(store, args, c, k, State())
      {
        var _ := ResolveInline(c.positional[k]);
        k := k + 1;
      }
      ghost var middle := State();
      k := 0;
      while k < |c.named|
        invariant k <= |c.named|
        invariant Valid() && traveled == start.traveled
        invariant NamedFrom(store, args, c, 0, middle, map[]) == NamedFrom(store, args, c, k, State(), named)
      {
        var v := ResolveInline(c.named[k].value);
        named := named[c.named[k].name := v];
        k := k + 1;
      }
    }

    /** Follows a reference under the cycle guard. */
    method Track(w: Builder, p: Pattern, pid: PatternId, e: InlineExpr)
      requires Valid() && traveled != [] && (e.MessageRef? || e.TermRef?)
      requires pid == Target(e) && Lookup(bundle, pid) == Some(p)
      modifies this, w
      ensures Valid()
      ensures State() == WriteTarget(store, args, e, old(State())).0
      ensures w.text == old(w.text) + WriteTarget(store, args, e, old(State())).1
      decreases Room(store, State()), e, 0, 0
    {
      if pid in traveled {
        w.Write(RefError(e));
        return;
      }
      StackIsBounded(store, traveled);
      traveled := traveled + [pid];
      WritePattern(w, p, pid);
      traveled := traveled[..|traveled| - 1];
      assert traveled == old(traveled);
    }
  }

  /** Formatting a pattern of the bundle with the caller's arguments. */
  method Format(b: Bundle, args: Args, p: Pattern, pid: PatternId) returns (out: string)
    ensures out == ResolverSpec.Format(b, args, p, pid)
  {
    var s := new Scope(b, args);
    var w := new Builder();
    s.WritePattern(w, p, pid);
    out := w.text;
  }
}
