/** The resolver's guards are transparent. Where the references of a bundle are
    acyclic, rendering can be defined by plain recursion, with no cycle stack, no
    placeable count and no limit flag; the guarded resolver computes exactly that
    whenever at most 100 placeables are needed, and raises its flag otherwise. */
module Guards {
  import opened FluentSyntax
  import opened Options
  import opened FluentValues
  import opened ResolverSpec
  import opened Digraph
  import Literal

  // ----- the reference graph -----

  predicate MentionsPattern(p: Pattern, r: PatternId) {
    exists i | 0 <= i < |p.elements| :: MentionsElement(p.elements[i], r)
  }

  predicate MentionsElement(el: Element, r: PatternId) {
    el.Placeable? && MentionsExpression(el.expr, r)
  }

  predicate MentionsExpression(e: Expression, r: PatternId) {
    match e
    case Inline(x) => MentionsInline(x, r)
    case Select(s, vs) => MentionsInline(s, r) || exists i | 0 <= i < |vs| :: MentionsPattern(vs[i].value, r)
  }

  predicate MentionsInline(e: InlineExpr, r: PatternId) {
    match e
    case MessageRef(_, _) => r == Target(e)
    case TermRef(_, _, c) => r == Target(e) || (c.Some? && MentionsArgs(c.value, r))
    case FunctionRef(_, c) => MentionsArgs(c, r)
    case NestedPlaceable(x) => MentionsExpression(x, r)
    case _ => false
  }

  predicate MentionsArgs(c: CallArgs, r: PatternId) {
    || (exists i | 0 <= i < |c.positional| :: MentionsInline(c.positional[i], r))
    || (exists i | 0 <= i < |c.named| :: MentionsInline(c.named[i].value, r))
  }

  /** Which patterns of the store each pattern refers to, through values,
      attributes, selectors, variants and call arguments. */
  function RefGraph(b: Store): Graph<PatternId> {
    map pid | pid in b.patterns :: set r | r in b.patterns && MentionsPattern(b.patterns[pid], r)
  }

  /** The graph has an edge for every reference. */
  ghost predicate Covers(b: Store, g: Graph<PatternId>) {
    && g.Keys == b.patterns.Keys
    && Closed(g)
    && forall pid, r | pid in g && r in b.patterns && MentionsPattern(b.patterns[pid], r) :: r in g[pid]
  }

  /** Plain rendering from a node is defined: no cycle can be reached from it. */
  ghost predicate Ready(b: Store, g: Graph<PatternId>, node: PatternId) {
    Covers(b, g) && node in g && AcyclicFrom(g, node)
  }

  ghost function Height(g: Graph<PatternId>, node: PatternId): nat { |Reach(g, node)| }

  ghost predicate PatternWithin(b: Store, g: Graph<PatternId>, node: PatternId, p: Pattern)
    requires node in g
  {
    forall r | r in b.patterns && MentionsPattern(p, r) :: r in g[node]
  }

  ghost predicate ExpressionWithin(b: Store, g: Graph<PatternId>, node: PatternId, e: Expression)
    requires node in g
  {
    forall r | r in b.patterns && MentionsExpression(e, r) :: r in g[node]
  }

  ghost predicate InlineWithin(b: Store, g: Graph<PatternId>, node: PatternId, e: InlineExpr)
    requires node in g
  {
    forall r | r in b.patterns && MentionsInline(e, r) :: r in g[node]
  }

  ghost predicate ArgsWithin(b: Store, g: Graph<PatternId>, node: PatternId, c: CallArgs)
    requires node in g
  {
    forall r | r in b.patterns && MentionsArgs(c, r) :: r in g[node]
  }

  // ----- plain rendering -----

  /** What is set apart by marks: all but a reference to a message or a term and a
      string literal. */
  predicate SetApart(e: Expression) {
    match e
    case Select(_, _) => true
    case Inline(VariableRef(_)) => true
    case Inline(NumberLiteral(_)) => true
    case Inline(FunctionRef(_, _)) => true
    case Inline(NestedPlaceable(_)) => true
    case Inline(MessageRef(_, _)) => false
    case Inline(TermRef(_, _, _)) => false
    case Inline(StringLiteral(_)) => false
  }

  /** What a reference to nothing, or a call, leaves in the text. */
  function Missing(e: InlineExpr): string {
    match e
    case MessageRef(id, attr) => "{" + id + (if attr == "" then "" else "." + attr) + "}"
    case TermRef(id, attr, _) => "{-" + id + (if attr == "" then "" else "." + attr) + "}"
    case FunctionRef(id, _) => "{" + id + "()}"
    case VariableRef(id) => "{$" + id + "}"
    case _ => ""
  }

  lemma {:induction false} MissingIsError(e: InlineExpr)
    requires e.MessageRef? || e.TermRef? || e.FunctionRef? || e.VariableRef?
    ensures Missing(e) == RefError(e)
  {
    match e
    case MessageRef(id, attr) => Bracketed("{", "", id, attr);
    case TermRef(id, attr, _) => Bracketed("{-", "-", id, attr);
    case FunctionRef(id, _) => assert "{" + id + "()}" == "{" + (id + "()") + "}";
    case VariableRef(id) => assert "{$" + id + "}" == "{" + ("$" + id) + "}";
  }

  lemma {:induction false} Bracketed(open: string, sign: string, id: string, attr: string)
    requires open == "{" + sign
    ensures open + id + (if attr == "" then "" else "." + attr) + "}" == "{" + (sign + RefName(id, attr)) + "}"
    ensures open + id + (if attr == "" then "" else "." + attr) + "}" == "{" + sign + RefName(id, attr) + "}"
  {
    if attr == "" {
      assert open + id + "" == open + id;
    } else {
      assert open + id + ("." + attr) == "{" + (sign + (id + "." + attr));
    }
  }

  /** The pattern that a reference names. */
  function Referent(e: InlineExpr): PatternId
    requires e.MessageRef? || e.TermRef?
  {
    match e
    case MessageRef(id, attr) => if attr == "" then ValueOf(false, id) else AttrOf(false, id, attr)
    case TermRef(id, attr, _) => if attr == "" then ValueOf(true, id) else AttrOf(true, id, attr)
  }

  /** The term arguments left behind, the placeables rendered, and the text. */
  datatype Plain<T> = Plain(locals: Option<Args>, count: nat, out: T)

  ghost function PlainElements(b: Store, g: Graph<PatternId>, args: Args, node: PatternId, p: Pattern, i: nat,
        locals: Option<Args>): Plain<string>
    requires Ready(b, g, node) && PatternWithin(b, g, node, p) && i <= |p.elements|
    decreases Height(g, node), p, |p.elements| - i + 1
  {
    if i == |p.elements| then Plain(locals, 0, "")
    else
      var one := PlainElement(b, g, args, node, p, i, locals);
      var rest := PlainElements(b, g, args, node, p, i + 1, one.locals);
      Plain(rest.locals, one.count + rest.count, one.out + rest.out)
  }

  ghost function PlainElement(b: Store, g: Graph<PatternId>, args: Args, node: PatternId, p: Pattern, i: nat,
        locals: Option<Args>): Plain<string>
    requires Ready(b, g, node) && PatternWithin(b, g, node, p) && i < |p.elements|
    decreases Height(g, node), p, 0
  {
    match p.elements[i]
    case Text(text) => Plain(locals, 0, text)
    case Placeable(e) =>
      ElementStaysWithin(b, g, node, p, i);
      var one := PlainExpression(b, g, args, node, e, locals);
      Plain(one.locals, 1 + one.count,
            if |p.elements| > 1 && SetApart(e) then ['\U{2068}'] + one.out + ['\U{2069}'] else one.out)
  }

  lemma {:induction false} ElementStaysWithin(b: Store, g: Graph<PatternId>, node: PatternId, p: Pattern, i: nat)
    requires node in g && PatternWithin(b, g, node, p) && i < |p.elements| && p.elements[i].Placeable?
    ensures ExpressionWithin(b, g, node, p.elements[i].expr)
  {
    forall r | r in b.patterns && MentionsExpression(p.elements[i].expr, r) ensures r in g[node] {
      assert MentionsElement(p.elements[i], r);
    }
  }

  ghost function PlainExpression(b: Store, g: Graph<PatternId>, args: Args, node: PatternId, e: Expression,
        locals: Option<Args>): Plain<string>
    requires Ready(b, g, node) && ExpressionWithin(b, g, node, e)
    decreases Height(g, node), e, 0
  {
    match e
    case Inline(x) =>
      InlineStaysWithin(b, g, node, e, x);
      PlainInline(b, g, args, node, x, locals)
    case Select(selector, variants) =>
      InlineStaysWithin(b, g, node, e, selector);
      var sel := PlainValue(b, g, args, node, selector, locals);
      var k := Choose(b.num, variants, sel.out);
      if k < 0 then Plain(sel.locals, sel.count, "")
      else
        VariantStaysWithin(b, g, node, e, k);
        var v := PlainElements(b, g, args, node, variants[k].value, 0, sel.locals);
        v.(count := sel.count + v.count)
  }

  lemma {:induction false} InlineStaysWithin(b: Store, g: Graph<PatternId>, node: PatternId, e: Expression,
                                            x: InlineExpr)
    requires node in g && ExpressionWithin(b, g, node, e) && x == if e.Inline? then e.e else e.selector
    ensures InlineWithin(b, g, node, x)
  {
    forall r | r in b.patterns && MentionsInline(x, r) ensures r in g[node] {
      assert MentionsExpression(e, r);
    }
  }

  lemma {:induction false} VariantStaysWithin(b: Store, g: Graph<PatternId>, node: PatternId, e: Expression, k: nat)
    requires node in g && ExpressionWithin(b, g, node, e) && e.Select? && k < |e.variants|
    ensures PatternWithin(b, g, node, e.variants[k].value)
  {
    forall r | r in b.patterns && MentionsPattern(e.variants[k].value, r) ensures r in g[node] {
      assert MentionsExpression(e, r);
    }
  }

  ghost function PlainInline(b: Store, g: Graph<PatternId>, args: Args, node: PatternId, e: InlineExpr,
        locals: Option<Args>): Plain<string>
    requires Ready(b, g, node) && InlineWithin(b, g, node, e)
    decreases Height(g, node), e, 1
  {
    match e
    case StringLiteral(raw) => Plain(locals, 0, Literal.Unescape(raw))
    case NumberLiteral(raw) => Plain(locals, 0, Written(b.num, TryNumber(b.num, raw)))
    case MessageRef(_, _) => PlainTarget(b, g, args, node, e, locals)
    case TermRef(_, _, callArgs) =>
      var named := if callArgs.Some? then
                     ArgsStayWithin(b, g, node, e);
                     PlainArgs(b, g, args, node, callArgs.value, locals)
                   else Plain(locals, 0, map[]);
      var t := PlainTarget(b, g, args, node, e, Some(named.out));
      Plain(None, named.count + t.count, t.out)
    case FunctionRef(_, callArgs) =>
      ArgsStayWithin(b, g, node, e);
      var named := PlainArgs(b, g, args, node, callArgs, locals);
      Plain(named.locals, named.count, Missing(e))
    case VariableRef(id) =>
      var scope := if locals.Some? then locals.value else args;
      Plain(locals, 0, if id in scope then Written(b.num, scope[id]) else Missing(e))
    case NestedPlaceable(x) =>
      assert ExpressionWithin(b, g, node, x) by {
        forall r | r in b.patterns && MentionsExpression(x, r) ensures r in g[node] {
          assert MentionsInline(e, r);
        }
      }
      PlainExpression(b, g, args, node, x, locals)
  }

  lemma {:induction false} ArgsStayWithin(b: Store, g: Graph<PatternId>, node: PatternId, e: InlineExpr)
    requires node in g && InlineWithin(b, g, node, e) && (e.FunctionRef? || (e.TermRef? && e.args.Some?))
    ensures ArgsWithin(b, g, node, if e.TermRef? then e.args.value else e.callArgs)
  {
    forall r | r in b.patterns && MentionsArgs(if e.TermRef? then e.args.value else e.callArgs, r)
      ensures r in g[node]
    {
      assert MentionsInline(e, r);
    }
  }

  /** A reference is simply followed. */
  ghost function PlainTarget(b: Store, g: Graph<PatternId>, args: Args, node: PatternId, e: InlineExpr,
        locals: Option<Args>): Plain<string>
    requires Ready(b, g, node) && InlineWithin(b, g, node, e) && (e.MessageRef? || e.TermRef?)
    decreases Height(g, node), e, 0
  {
    var pid := Referent(e);
    if pid !in b.patterns then Plain(locals, 0, Missing(e))
    else
      Descends(b, g, node, e);
      PlainElements(b, g, args, pid, b.patterns[pid], 0, locals)
  }

  lemma {:induction false} Descends(b: Store, g: Graph<PatternId>, node: PatternId, e: InlineExpr)
    requires Ready(b, g, node) && InlineWithin(b, g, node, e) && (e.MessageRef? || e.TermRef?)
    requires Target(e) in b.patterns
    ensures Target(e) in g[node] && Ready(b, g, Target(e)) && PatternWithin(b, g, Target(e), b.patterns[Target(e)])
    ensures Height(g, Target(e)) < Height(g, node)
  {
    assert MentionsInline(e, Target(e));
    Descend(g, node, Target(e));
  }

  ghost function PlainValue(b: Store, g: Graph<PatternId>, args: Args, node: PatternId, e: InlineExpr,
        locals: Option<Args>): Plain<Value>
    requires Ready(b, g, node) && InlineWithin(b, g, node, e)
    decreases Height(g, node), e, 2
  {
    match e
    case StringLiteral(raw) => Plain(locals, 0, StringValue(Literal.Unescape(raw)))
    case NumberLiteral(raw) => Plain(locals, 0, TryNumber(b.num, raw))
    case VariableRef(id) =>
      var scope := if locals.Some? then locals.value else args;
      Plain(locals, 0, if id in scope then scope[id] else ErrorValue)
    case FunctionRef(_, _) => Plain(locals, 0, ErrorValue)
    case _ =>
      var t := PlainInline(b, g, args, node, e, locals);
      Plain(t.locals, t.count, StringValue(t.out))
  }

  ghost function PlainArgs(b: Store, g: Graph<PatternId>, args: Args, node: PatternId, c: CallArgs,
        locals: Option<Args>): Plain<Args>
    requires Ready(b, g, node) && ArgsWithin(b, g, node, c)
    decreases Height(g, node), c, |c.positional| + |c.named| + 1
  {
    var first := PlainPositional(b, g, args, node, c, 0, locals);
    var then' := PlainNamed(b, g, args, node, c, 0, first.locals, map[]);
    then'.(count := first.count + then'.count)
  }

  ghost function PlainPositional(b: Store, g: Graph<PatternId>, args: Args, node: PatternId, c: CallArgs, k: nat,
        locals: Option<Args>): Plain<()>
    requires Ready(b, g, node) && ArgsWithin(b, g, node, c) && k <= |c.positional|
    decreases Height(g, node), c, |c.positional| - k
  {
    if k == |c.positional| then Plain(locals, 0, ())
    else
      ArgumentWithin(b, g, node, c, c.positional[k]);
      var one := PlainValue(b, g, args, node, c.positional[k], locals);
      var rest := PlainPositional(b, g, args, node, c, k + 1, one.locals);
      rest.(count := one.count + rest.count)
  }

  lemma {:induction false} ArgumentWithin(b: Store, g: Graph<PatternId>, node: PatternId, c: CallArgs, e: InlineExpr)
    requires node in g && ArgsWithin(b, g, node, c)
    requires e in c.positional || exists k :: 0 <= k < |c.named| && c.named[k].value == e
    ensures InlineWithin(b, g, node, e)
  {
    forall r | r in b.patterns && MentionsInline(e, r) ensures r in g[node] {
      assert MentionsArgs(c, r);
    }
  }

  ghost function PlainNamed(b: Store, g: Graph<PatternId>, args: Args, node: PatternId, c: CallArgs, k: nat,
        locals: Option<Args>, named: Args): Plain<Args>
    requires Ready(b, g, node) && ArgsWithin(b, g, node, c) && k <= |c.named|
    decreases Height(g, node), c, |c.named| - k
  {
    if k == |c.named| then Plain(locals, 0, named)
    else
      ArgumentWithin(b, g, node, c, c.named[k].value);
      var one := PlainValue(b, g, args, node, c.named[k].value, locals);
      var rest := PlainNamed(b, g, args, node, c, k + 1, one.locals, named[c.named[k].name := one.out]);
      rest.(count := one.count + rest.count)
  }

  // ----- transparency -----

  /** Everything on the stack leads to the node being rendered. */
  ghost predicate PathTo(g: Graph<PatternId>, traveled: seq<PatternId>, node: PatternId) {
    forall t | t in traveled :: t == node || Reaches(g, t, node)
  }

  /** Within the limit the guarded run does what the plain one does; past it the flag is up. */
  ghost predicate Agrees<T>(st: St, plain: Plain<T>, st': St, out: T) {
    if st.placeables + plain.count <= MAX_PLACEABLES
    then st'.placeables == st.placeables + plain.count && st'.locals == plain.locals && out == plain.out
    else st'.dirty
  }

  ghost predicate Running(b: Store, g: Graph<PatternId>, node: PatternId, st: St) {
    Counted(st) && Stack(b, st.traveled) && !st.dirty && Ready(b, g, node) && PathTo(g, st.traveled, node)
  }

  lemma {:induction false} ElementsAgree(b: Store, g: Graph<PatternId>, args: Args, node: PatternId, p: Pattern,
        pid: PatternId, i: nat, st: St)
    requires Running(b, g, node, st) && PatternWithin(b, g, node, p) && i <= |p.elements|
    requires st.traveled == [] ==> pid == node
    ensures
      var r := WriteElements(b, args, p, pid, i, st);
      Agrees(st, PlainElements(b, g, args, node, p, i, st.locals), r.0, r.1)
    decreases Height(g, node), p, |p.elements| - i + 1
  {
    if i < |p.elements| {
      ElementAgrees(b, g, args, node, p, pid, i, st);
      var (st1, _) := WriteElement(b, args, p, pid, i, st);
      if !st1.dirty {
        ElementsAgree(b, g, args, node, p, pid, i + 1, st1);
      }
    }
  }

  lemma {:induction false} ElementAgrees(b: Store, g: Graph<PatternId>, args: Args, node: PatternId, p: Pattern,
        pid: PatternId, i: nat, st: St)
    requires Running(b, g, node, st) && PatternWithin(b, g, node, p) && i < |p.elements|
    requires st.traveled == [] ==> pid == node
    ensures
      var r := WriteElement(b, args, p, pid, i, st);
      Agrees(st, PlainElement(b, g, args, node, p, i, st.locals), r.0, r.1)
    decreases Height(g, node), p, 0
  {
    if p.elements[i].Placeable? && st.placeables < MAX_PLACEABLES {
      var e, st1 := p.elements[i].expr, Entered(pid, st);
      ElementStaysWithin(b, g, node, p, i);
      ExpressionAgrees(b, g, args, node, e, st1);
      MarkedAgrees(b, args, e, st1, PlainExpression(b, g, args, node, e, st.locals));
      PlacedAgrees(b, g, args, node, p, pid, i, st);
    }
  }

  /** A placeable agrees when its expression does. */
  lemma {:induction false} PlacedAgrees(b: Store, g: Graph<PatternId>, args: Args, node: PatternId, p: Pattern,
        pid: PatternId, i: nat, st: St)
    requires Running(b, g, node, st) && PatternWithin(b, g, node, p)
    requires i < |p.elements| && p.elements[i].Placeable? && ExpressionWithin(b, g, node, p.elements[i].expr)
    requires st.placeables < MAX_PLACEABLES && Stack(b, Entered(pid, st).traveled)
    requires
      var e, st1 := p.elements[i].expr, Entered(pid, st);
      var r := WriteMarked(b, args, e, st1);
      Agrees(st1, PlainExpression(b, g, args, node, e, st.locals), r.0, r.1)
    ensures
      var r := WriteElement(b, args, p, pid, i, st);
      Agrees(st, PlainElement(b, g, args, node, p, i, st.locals), r.0, r.1)
  {
  }

  /** Nothing is cut short within the limit. */
  lemma {:induction false} MarkedAgrees(b: Store, args: Args, e: Expression, st: St, plain: Plain<string>)
    requires Counted(st) && Stack(b, st.traveled) && st.traveled != []
    requires
      var r := WriteExpression(b, args, e, st);
      Agrees(st, plain, r.0, r.1)
    ensures
      var r := WriteMarked(b, args, e, st);
      Agrees(st, plain, r.0, r.1)
  {
    var (st1, out) := WriteExpression(b, args, e, st);
    if !st1.dirty {
      assert out + "" == out;
    }
  }

  lemma {:induction false} ExpressionAgrees(b: Store, g: Graph<PatternId>, args: Args, node: PatternId,
        e: Expression, st: St)
    requires Running(b, g, node, st) && ExpressionWithin(b, g, node, e) && st.traveled != []
    ensures
      var r := WriteExpression(b, args, e, st);
      Agrees(st, PlainExpression(b, g, args, node, e, st.locals), r.0, r.1)
    decreases Height(g, node), e, 0
  {
    InlineStaysWithin(b, g, node, e, if e.Inline? then e.e else e.selector);
    match e
    case Inline(x) => InlineAgrees(b, g, args, node, x, st);
    case Select(selector, variants) =>
      ValueAgrees(b, g, args, node, selector, st);
      var (st1, v) := ResolveInline(b, args, selector, st);
      var k := Choose(b.num, variants, v);
      if !st1.dirty && k >= 0 {
        VariantStaysWithin(b, g, node, e, k);
        ElementsAgree(b, g, args, node, variants[k].value, VariantPattern, 0, st1);
      }
  }

  lemma {:induction false} InlineAgrees(b: Store, g: Graph<PatternId>, args: Args, node: PatternId, e: InlineExpr,
        st: St)
    requires Running(b, g, node, st) && InlineWithin(b, g, node, e) && st.traveled != []
    ensures
      var r := WriteInline(b, args, e, st);
      Agrees(st, PlainInline(b, g, args, node, e, st.locals), r.0, r.1)
    decreases Height(g, node), e, 1
  {
    match e
    case StringLiteral(raw) =>
    case NumberLiteral(raw) =>
    case MessageRef(_, _) => TargetAgrees(b, g, args, node, e, st);
    case TermRef(_, _, callArgs) =>
      if callArgs.Some? {
        ArgsStayWithin(b, g, node, e);
        ArgsAgree(b, g, args, node, callArgs.value, st);
        var (st1, named) := NamedArgs(b, args, callArgs.value, st);
        if !st1.dirty {
          TargetAgrees(b, g, args, node, e, st1.(locals := Some(named)));
        }
      } else {
        TargetAgrees(b, g, args, node, e, st.(locals := Some(map[])));
      }
    case FunctionRef(_, callArgs) =>
      ArgsStayWithin(b, g, node, e);
      ArgsAgree(b, g, args, node, callArgs, st);
      MissingIsError(e);
    case VariableRef(id) => MissingIsError(e);
    case NestedPlaceable(x) =>
      assert ExpressionWithin(b, g, node, x) by {
        forall r | r in b.patterns && MentionsExpression(x, r) ensures r in g[node] {
          assert MentionsInline(e, r);
        }
      }
      ExpressionAgrees(b, g, args, node, x, st);
  }

  /** The stack is a path to the node, so a reference found on it would close a
      cycle: on an acyclic graph the guard never fires. */
  lemma {:induction false} GuardIsSilent(g: Graph<PatternId>, traveled: seq<PatternId>, node: PatternId, pid: PatternId)
    requires Closed(g) && node in g && pid in g[node] && AcyclicFrom(g, node) && PathTo(g, traveled, node)
    ensures pid !in traveled && PathTo(g, traveled + [pid], pid)
  {
    EdgeReaches(g, node, pid);
    forall t | t in traveled ensures Reaches(g, t, pid) {
      if t != node {
        ReachesTransitive(g, t, node, pid);
      }
    }
  }

  lemma {:induction false} TargetAgrees(b: Store, g: Graph<PatternId>, args: Args, node: PatternId, e: InlineExpr,
        st: St)
    requires Running(b, g, node, st) && InlineWithin(b, g, node, e) && st.traveled != []
    requires e.MessageRef? || e.TermRef?
    ensures
      var r := WriteTarget(b, args, e, st);
      Agrees(st, PlainTarget(b, g, args, node, e, st.locals), r.0, r.1)
    decreases Height(g, node), e, 0
  {
    var pid := Target(e);
    MissingIsError(e);
    if pid in b.patterns {
      Descends(b, g, node, e);
      PushedRuns(b, g, node, pid, st);
      ElementsAgree(b, g, args, pid, b.patterns[pid], pid, 0, st.(traveled := st.traveled + [pid]));
    }
  }

  /** What a node mentions is followed with the stack one deeper. */
  lemma {:induction false} PushedRuns(b: Store, g: Graph<PatternId>, node: PatternId, pid: PatternId, st: St)
    requires Running(b, g, node, st) && st.traveled != []
    requires pid in g[node] && pid in b.patterns && Ready(b, g, pid)
    ensures pid !in st.traveled && Running(b, g, pid, st.(traveled := st.traveled + [pid]))
  {
    GuardIsSilent(g, st.traveled, node, pid);
    StackIsBounded(b, st.traveled);
  }

  lemma {:induction false} ValueAgrees(b: Store, g: Graph<PatternId>, args: Args, node: PatternId, e: InlineExpr,
        st: St)
    requires Running(b, g, node, st) && InlineWithin(b, g, node, e) && st.traveled != []
    ensures
      var r := ResolveInline(b, args, e, st);
      Agrees(st, PlainValue(b, g, args, node, e, st.locals), r.0, r.1)
    decreases Height(g, node), e, 2
  {
    match e
    case StringLiteral(_) =>
    case NumberLiteral(_) =>
    case VariableRef(_) =>
    case FunctionRef(_, _) =>
    case _ => InlineAgrees(b, g, args, node, e, st);
  }

  lemma {:induction false} ArgsAgree(b: Store, g: Graph<PatternId>, args: Args, node: PatternId, c: CallArgs, st: St)
    requires Running(b, g, node, st) && ArgsWithin(b, g, node, c) && st.traveled != []
    ensures
      var r := NamedArgs(b, args, c, st);
      Agrees(st, PlainArgs(b, g, args, node, c, st.locals), r.0, r.1)
    decreases Height(g, node), c, |c.positional| + |c.named| + 1
  {
    PositionalAgrees(b, g, args, node, c, 0, st);
    var st1 := PositionalFrom(b, args, c, 0, st);
    if !st1.dirty {
      NamedAgrees(b, g, args, node, c, 0, st1, map[]);
    }
  }

  lemma {:induction false} PositionalAgrees(b: Store, g: Graph<PatternId>, args: Args, node: PatternId,
        c: CallArgs, k: nat, st: St)
    requires Running(b, g, node, st) && ArgsWithin(b, g, node, c) && st.traveled != [] && k <= |c.positional|
    ensures Agrees(st, PlainPositional(b, g, args, node, c, k, st.locals), PositionalFrom(b, args, c, k, st), ())
    decreases Height(g, node), c, |c.positional| - k
  {
    if k < |c.positional| {
      ArgumentWithin(b, g, node, c, c.positional[k]);
      ValueAgrees(b, g, args, node, c.positional[k], st);
      var st1 := ResolveInline(b, args, c.positional[k], st).0;
      if !st1.dirty {
        PositionalAgrees(b, g, args, node, c, k + 1, st1);
      }
    }
  }

  lemma {:induction false} NamedAgrees(b: Store, g: Graph<PatternId>, args: Args, node: PatternId, c: CallArgs,
        k: nat, st: St, named: Args)
    requires Running(b, g, node, st) && ArgsWithin(b, g, node, c) && st.traveled != [] && k <= |c.named|
    ensures
      var r := NamedFrom(b, args, c, k, st, named);
      Agrees(st, PlainNamed(b, g, args, node, c, k, st.locals, named), r.0, r.1)
    decreases Height(g, node), c, |c.named| - k
  {
    if k < |c.named| {
      ArgumentWithin(b, g, node, c, c.named[k].value);
      ValueAgrees(b, g, args, node, c.named[k].value, st);
      var (st1, v) := ResolveInline(b, args, c.named[k].value, st);
      if !st1.dirty {
        NamedAgrees(b, g, args, node, c, k + 1, st1, named[c.named[k].name := v]);
      }
    }
  }

  /** Plain rendering of one pattern of a bundle. */
  ghost function PlainFormat(b: Bundle, args: Args, pid: PatternId): Plain<string>
    requires Ready(StoreOf(b), RefGraph(StoreOf(b)), pid)
  {
    PlainElements(StoreOf(b), RefGraph(StoreOf(b)), args, pid, StoreOf(b).patterns[pid], 0, None)
  }

  /** No cycle of references can be reached from the pattern. */
  ghost predicate CycleFree(b: Bundle, pid: PatternId) {
    AcyclicFrom(RefGraph(StoreOf(b)), pid)
  }

  lemma {:induction false} GraphCovers(b: Store)
    ensures Covers(b, RefGraph(b))
  {
  }

  /** Transparency: on an acyclic part of the bundle the limit flag is raised
      exactly when the plain rendering needs more than 100 placeables, and
      otherwise formatting yields exactly the plain rendering. */
  lemma {:induction false} Transparent(b: Bundle, args: Args, p: Pattern, pid: PatternId)
    requires Lookup(b, pid) == Some(p) && CycleFree(b, pid)
    ensures Ready(StoreOf(b), RefGraph(StoreOf(b)), pid)
    ensures
      var plain := PlainFormat(b, args, pid);
      && (WritePattern(StoreOf(b), args, p, pid, START).0.dirty <==> plain.count > 100)
      && (plain.count <= 100 ==>
            && Format(b, args, p, pid) == plain.out
            && WritePattern(StoreOf(b), args, p, pid, START).0.placeables == plain.count)
  {
    var s := StoreOf(b);
    GraphCovers(s);
    assert Find(s, pid) == Some(p);
    ElementsAgree(s, RefGraph(s), args, pid, p, pid, 0, START);
  }
}
