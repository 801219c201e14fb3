/** Isolation marks. Each interpolated placeable is wrapped in U+2068 and U+2069;
    whatever happens while rendering, the output is well nested in these two. */
module Isolation {
  import opened FluentSyntax
  import opened Options
  import opened FluentValues
  import opened ResolverSpec
  import opened Literal

  /** The nesting depth after s, starting at depth d; None once a closing mark
      has nothing to close (BD9 in section 3.1.2 of UAX #9, for this one pair). */
  function Nest(s: string, d: nat): Option<nat> {
    if s == "" then Some(d)
    else if s[0] == FSI then Nest(s[1..], d + 1)
    else if s[0] == PDI then if d == 0 then None else Nest(s[1..], d - 1)
    else Nest(s[1..], d)
  }

  predicate Balanced(s: string) { Nest(s, 0) == Some(0) }

  predicate MarkFree(s: string) { FSI !in s && PDI !in s }

  lemma {:induction false} NestConcat(a: string, b: string, d: nat)
    ensures Nest(a + b, d) == if Nest(a, d).Some? then Nest(b, Nest(a, d).value) else None
  {
    if a == "" {
      assert a + b == b;
    } else {
      assert (a + b)[1..] == a[1..] + b;
      if a[0] == FSI {
        NestConcat(a[1..], b, d + 1);
      } else if a[0] == PDI {
        if d > 0 { NestConcat(a[1..], b, d - 1); }
      } else {
        NestConcat(a[1..], b, d);
      }
    }
  }

  lemma {:induction false} NestDeeper(s: string, d: nat, k: nat)
    requires Nest(s, d).Some?
    ensures Nest(s, d + k) == Some(Nest(s, d).value + k)
  {
    if s != "" {
      NestDeeper(s[1..], if s[0] == FSI then d + 1 else if s[0] == PDI then d - 1 else d, k);
    }
  }

  lemma {:induction false} BalancedConcat(a: string, b: string)
    requires Balanced(a) && Balanced(b)
    ensures Balanced(a + b)
  {
    NestConcat(a, b, 0);
  }

  lemma {:induction false} BalancedIsolated(s: string)
    requires Balanced(s)
    ensures Balanced([FSI] + s + [PDI])
  {
    NestDeeper(s, 0, 1);
    NestConcat(s, [PDI], 1);
    assert Nest([PDI], 1) == Some(0);
    assert [FSI] + s + [PDI] == [FSI] + (s + [PDI]);
    assert ([FSI] + (s + [PDI]))[1..] == s + [PDI];
  }

  lemma {:induction false} MarkFreeBalanced(s: string)
    requires MarkFree(s)
    ensures Balanced(s)
  {
    if s != "" {
      MarkFreeBalanced(s[1..]);
    }
  }

  // ----- syntax without marks of its own -----

  predicate QuietPattern(p: Pattern) {
    forall i | 0 <= i < |p.elements| :: QuietElement(p.elements[i])
  }

  predicate QuietElement(el: Element) {
    match el
    case Text(text) => MarkFree(text)
    case Placeable(e) => QuietExpression(e)
  }

  predicate QuietExpression(e: Expression) {
    match e
    case Inline(x) => QuietInline(x)
    case Select(s, vs) => QuietInline(s) && forall i | 0 <= i < |vs| :: QuietPattern(vs[i].value)
  }

  predicate QuietInline(e: InlineExpr) {
    match e
    case StringLiteral(raw) => MarkFree(Unescape(raw))
    case NumberLiteral(raw) => MarkFree(raw)
    case MessageRef(id, attr) => MarkFree(id) && MarkFree(attr)
    case TermRef(id, attr, c) => MarkFree(id) && MarkFree(attr) && (c.Some? ==> QuietArgs(c.value))
    case FunctionRef(id, c) => MarkFree(id) && QuietArgs(c)
    case VariableRef(id) => MarkFree(id)
    case NestedPlaceable(x) => QuietExpression(x)
  }

  predicate QuietArgs(c: CallArgs) {
    && (forall i | 0 <= i < |c.positional| :: QuietInline(c.positional[i]))
    && (forall i | 0 <= i < |c.named| :: QuietInline(c.named[i].value))
  }

  ghost predicate QuietStore(b: Store) {
    && (forall pid | pid in b.patterns :: QuietPattern(b.patterns[pid]))
    && (forall f :: MarkFree(b.num.show(f)))
  }

  ghost predicate BalancedArgs(n: Numerics, args: Args) {
    forall k | k in args :: Balanced(Written(n, args[k]))
  }

  ghost predicate BalancedLocals(b: Store, st: St) {
    st.locals.Some? ==> BalancedArgs(b.num, st.locals.value)
  }

  lemma {:induction false} ErrorMarkFree(e: Expression)
    requires QuietExpression(e)
    ensures MarkFree(ErrorText(e))
    decreases e
  {
    InlineErrorMarkFree(if e.Inline? then e.e else e.selector);
  }

  lemma {:induction false} InlineErrorMarkFree(e: InlineExpr)
    requires QuietInline(e)
    ensures MarkFree(InlineError(e))
    decreases e
  {
    if e.NestedPlaceable? {
      ErrorMarkFree(e.expr);
    }
  }

  lemma {:induction false} RefErrorBalanced(e: InlineExpr)
    requires QuietInline(e)
    ensures Balanced(RefError(e))
  {
    InlineErrorMarkFree(e);
    MarkFreeBalanced(RefError(e));
  }

  lemma {:induction false} WrittenNumberBalanced(b: Store, raw: string)
    requires QuietStore(b) && MarkFree(raw)
    ensures Balanced(Written(b.num, TryNumber(b.num, raw)))
  {
    MarkFreeBalanced(Written(b.num, TryNumber(b.num, raw)));
  }

  // ----- every rendering is balanced -----

  lemma {:induction false} ElementsBalanced(b: Store, args: Args, p: Pattern, pid: PatternId, i: nat, st: St)
    requires i <= |p.elements| && Counted(st) && Stack(b, st.traveled)
    requires QuietStore(b) && BalancedArgs(b.num, args) && BalancedLocals(b, st) && QuietPattern(p)
    ensures Balanced(WriteElements(b, args, p, pid, i, st).1)
    ensures BalancedLocals(b, WriteElements(b, args, p, pid, i, st).0)
    decreases Room(b, st), p, |p.elements| - i, 1
  {
    if i < |p.elements| && !st.dirty {
      ElementBalanced(b, args, p, pid, i, st);
      var (st1, out) := WriteElement(b, args, p, pid, i, st);
      ElementsBalanced(b, args, p, pid, i + 1, st1);
      BalancedConcat(out, WriteElements(b, args, p, pid, i + 1, st1).1);
    }
  }

  lemma {:induction false} ElementBalanced(b: Store, args: Args, p: Pattern, pid: PatternId, i: nat, st: St)
    requires i < |p.elements| && Counted(st) && Stack(b, st.traveled) && !st.dirty
    requires QuietStore(b) && BalancedArgs(b.num, args) && BalancedLocals(b, st) && QuietPattern(p)
    ensures Balanced(WriteElement(b, args, p, pid, i, st).1)
    ensures BalancedLocals(b, WriteElement(b, args, p, pid, i, st).0)
    decreases Room(b, st), p, |p.elements| - i, 0
  {
    assert QuietElement(p.elements[i]);
    match p.elements[i]
    case Text(text) => MarkFreeBalanced(text);
    case Placeable(e) =>
      if st.placeables < MAX_PLACEABLES {
        var (st1, out) := WriteExpression(b, args, e, Entered(pid, st));
        ExpressionBalanced(b, args, e, Entered(pid, st));
        var marker := "{" + ErrorText(e) + "}";
        ErrorMarkFree(e);
        MarkFreeBalanced(marker);
        BalancedConcat(out, if st1.dirty then marker else "");
        BalancedIsolated(WriteMarked(b, args, e, Entered(pid, st)).1);
      }
  }

  lemma {:induction false} ExpressionBalanced(b: Store, args: Args, e: Expression, st: St)
    requires Counted(st) && Stack(b, st.traveled) && st.traveled != []
    requires QuietStore(b) && BalancedArgs(b.num, args) && BalancedLocals(b, st) && QuietExpression(e)
    ensures Balanced(WriteExpression(b, args, e, st).1)
    ensures BalancedLocals(b, WriteExpression(b, args, e, st).0)
    decreases Room(b, st), e, 0
  {
    match e
    case Inline(x) => InlineBalanced(b, args, x, st);
    case Select(selector, variants) =>
      ResolvedBalanced(b, args, selector, st);
      var (st1, v) := ResolveInline(b, args, selector, st);
      var k := Choose(b.num, variants, v);
      if k >= 0 {
        ElementsBalanced(b, args, variants[k].value, VariantPattern, 0, st1);
      }
  }

  lemma {:induction false} InlineBalanced(b: Store, args: Args, e: InlineExpr, st: St)
    requires Counted(st) && Stack(b, st.traveled) && st.traveled != []
    requires QuietStore(b) && BalancedArgs(b.num, args) && BalancedLocals(b, st) && QuietInline(e)
    ensures Balanced(WriteInline(b, args, e, st).1)
    ensures BalancedLocals(b, WriteInline(b, args, e, st).0)
    decreases Room(b, st), e, 1
  {
    match e
    case StringLiteral(raw) => MarkFreeBalanced(Unescape(raw));
    case NumberLiteral(raw) => WrittenNumberBalanced(b, raw);
    case MessageRef(_, _) => TargetBalanced(b, args, e, st);
    case TermRef(_, _, callArgs) =>
      if callArgs.Some? {
        NamedArgsBalanced(b, args, callArgs.value, st);
        var (st1, named) := NamedArgs(b, args, callArgs.value, st);
        TargetBalanced(b, args, e, st1.(locals := Some(named)));
      } else {
        TargetBalanced(b, args, e, st.(locals := Some(map[])));
      }
    case FunctionRef(_, callArgs) =>
      NamedArgsBalanced(b, args, callArgs, st);
      RefErrorBalanced(e);
    case VariableRef(id) => RefErrorBalanced(e);
    case NestedPlaceable(x) => ExpressionBalanced(b, args, x, st);
  }

  lemma {:induction false} TargetBalanced(b: Store, args: Args, e: InlineExpr, st: St)
    requires Counted(st) && Stack(b, st.traveled) && st.traveled != [] && (e.MessageRef? || e.TermRef?)
    requires QuietStore(b) && BalancedArgs(b.num, args) && BalancedLocals(b, st) && QuietInline(e)
    ensures Balanced(WriteTarget(b, args, e, st).1)
    ensures BalancedLocals(b, WriteTarget(b, args, e, st).0)
    decreases Room(b, st), e, 0
  {
    RefErrorBalanced(e);
    var pid := Target(e);
    if pid in b.patterns && pid !in st.traveled {
      StackIsBounded(b, st.traveled);
      ElementsBalanced(b, args, b.patterns[pid], pid, 0, st.(traveled := st.traveled + [pid]));
    }
  }

  lemma {:induction false} ResolvedBalanced(b: Store, args: Args, e: InlineExpr, st: St)
    requires Counted(st) && Stack(b, st.traveled) && st.traveled != []
    requires QuietStore(b) && BalancedArgs(b.num, args) && BalancedLocals(b, st) && QuietInline(e)
    ensures Balanced(Written(b.num, ResolveInline(b, args, e, st).1))
    ensures BalancedLocals(b, ResolveInline(b, args, e, st).0)
    decreases Room(b, st), e, 2
  {
    match e
    case StringLiteral(raw) => MarkFreeBalanced(Unescape(raw));
    case NumberLiteral(raw) => WrittenNumberBalanced(b, raw);
    case VariableRef(_) =>
    case FunctionRef(_, _) =>
    case _ => InlineBalanced(b, args, e, st);
  }

  lemma {:induction false} NamedArgsBalanced(b: Store, args: Args, c: CallArgs, st: St)
    requires Counted(st) && Stack(b, st.traveled) && st.traveled != []
    requires QuietStore(b) && BalancedArgs(b.num, args) && BalancedLocals(b, st) && QuietArgs(c)
    ensures BalancedArgs(b.num, NamedArgs(b, args, c, st).1)
    ensures BalancedLocals(b, NamedArgs(b, args, c, st).0)
    decreases Room(b, st), c, |c.positional| + |c.named| + 1
  {
    PositionalBalanced(b, args, c, 0, st);
    NamedBalanced(b, args, c, 0, PositionalFrom(b, args, c, 0, st), map[]);
  }

  lemma {:induction false} PositionalBalanced(b: Store, args: Args, c: CallArgs, k: nat, st: St)
    requires Counted(st) && Stack(b, st.traveled) && st.traveled != [] && k <= |c.positional|
    requires QuietStore(b) && BalancedArgs(b.num, args) && BalancedLocals(b, st) && QuietArgs(c)
    ensures BalancedLocals(b, PositionalFrom(b, args, c, k, st))
    decreases Room(b, st), c, |c.positional| - k
  {
    if k < |c.positional| {
      ResolvedBalanced(b, args, c.positional[k], st);
      PositionalBalanced(b, args, c, k + 1, ResolveInline(b, args, c.positional[k], st).0);
    }
  }

  lemma {:induction false} NamedBalanced(b: Store, args: Args, c: CallArgs, k: nat, st: St, named: Args)
    requires Counted(st) && Stack(b, st.traveled) && st.traveled != [] && k <= |c.named|
    requires QuietStore(b) && BalancedArgs(b.num, args) && BalancedLocals(b, st) && QuietArgs(c)
    requires BalancedArgs(b.num, named)
    ensures BalancedArgs(b.num, NamedFrom(b, args, c, k, st, named).1)
    ensures BalancedLocals(b, NamedFrom(b, args, c, k, st, named).0)
    decreases Room(b, st), c, |c.named| - k
  {
    if k < |c.named| {
      ResolvedBalanced(b, args, c.named[k].value, st);
      var (st1, v) := ResolveInline(b, args, c.named[k].value, st);
      NamedBalanced(b, args, c, k + 1, st1, named[c.named[k].name := v]);
    }
  }

  /** Every rendered output is well nested in isolation marks: also on reference
      errors, on cycles and after the placeable limit. */
  lemma {:induction false} FormatBalanced(b: Bundle, args: Args, p: Pattern, pid: PatternId)
    requires QuietStore(StoreOf(b)) && BalancedArgs(b.num, args) && QuietPattern(p)
    ensures Balanced(Format(b, args, p, pid))
  {
    ElementsBalanced(StoreOf(b), args, p, pid, 0, START);
  }
}
