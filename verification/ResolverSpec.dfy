/** What rendering a Fluent pattern means: the resolver's state and output as
    functions of the syntax and the state before. The functions terminate on
    every bundle, cyclic ones included: each tracked reference uses up a pattern
    identity that is not yet on the cycle stack, and between two of those the
    syntax gets smaller. */
module ResolverSpec {
  import opened FluentSyntax
  import opened Options
  import opened FluentValues
  import opened Digraph
  import Literal

  const FSI: char := '\U{2068}'
  const PDI: char := '\U{2069}'
  const MAX_PLACEABLES: nat := 100

  /** The identity of a pattern: the program compares addresses, and a bundle
      reaches a pattern only as the value or the named attribute of one entry.
      Patterns of variants have no address anyone refers to. */
  datatype PatternId =
    | ValueOf(term: bool, id: string)
    | AttrOf(term: bool, id: string, attr: string)
    | VariantPattern

  datatype Bundle = Bundle(messages: map<string, Entry>, terms: map<string, Entry>, num: Numerics)

  function Table(b: Bundle, term: bool): map<string, Entry> {
    if term then b.terms else b.messages
  }

  /** The first attribute of that name. */
  function AttributeOf(attrs: seq<Attribute>, name: string): (r: Option<Pattern>)
    ensures r.Some? <==> exists a | a in attrs :: a.id == name
    ensures r.Some? ==> Attribute(name, r.value) in attrs
  {
    if attrs == [] then None
    else if attrs[0].id == name then Some(attrs[0].value)
    else AttributeOf(attrs[1..], name)
  }

  function Lookup(b: Bundle, pid: PatternId): Option<Pattern> {
    match pid
    case ValueOf(t, id) => if id in Table(b, t) then Table(b, t)[id].value else None
    case AttrOf(t, id, a) => if id in Table(b, t) then AttributeOf(Table(b, t)[id].attrs, a) else None
    case VariantPattern => None
  }

  /** Every identity that names a pattern of the bundle. */
  function Ids(b: Bundle): set<PatternId> {
      (set id | id in b.messages && b.messages[id].value.Some? :: ValueOf(false, id))
    + (set id | id in b.terms && b.terms[id].value.Some? :: ValueOf(true, id))
    + (set id, k | id in b.messages && 0 <= k < |b.messages[id].attrs| :: AttrOf(false, id, b.messages[id].attrs[k].id))
    + (set id, k | id in b.terms && 0 <= k < |b.terms[id].attrs| :: AttrOf(true, id, b.terms[id].attrs[k].id))
  }

  lemma {:induction false} IdsAreLookups(b: Bundle, pid: PatternId)
    ensures pid in Ids(b) <==> Lookup(b, pid).Some?
  {
    if Lookup(b, pid).Some? && pid.AttrOf? {
      var attrs := Table(b, pid.term)[pid.id].attrs;
      var k :| 0 <= k < |attrs| && attrs[k] == Attribute(pid.attr, Lookup(b, pid).value);
      assert AttrOf(pid.term, pid.id, attrs[k].id) in Ids(b);
    }
  }

  /** The patterns of a bundle by identity, and the numeric rules: all that
      rendering reads. */
  datatype Store = Store(patterns: map<PatternId, Pattern>, num: Numerics)

  function StoreOf(b: Bundle): (s: Store)
    ensures Represents(s, b)
  {
    forall pid ensures pid in Ids(b) <==> Lookup(b, pid).Some? {
      IdsAreLookups(b, pid);
    }
    Store(map pid | pid in Ids(b) :: Lookup(b, pid).value, b.num)
  }

  ghost predicate Represents(s: Store, b: Bundle) {
    && s.num == b.num
    && forall pid :: Lookup(b, pid) == Find(s, pid)
  }

  function Find(s: Store, pid: PatternId): Option<Pattern> {
    if pid in s.patterns then Some(s.patterns[pid]) else None
  }

  /** A cycle stack: nothing twice, and only patterns of the store above the one
      that rendering started from. */
  ghost predicate Stack(s: Store, traveled: seq<PatternId>) {
    && NoRepeats(traveled)
    && (forall i | 1 <= i < |traveled| :: traveled[i] in s.patterns)
  }

  /** A stack cannot outgrow the store, so a reference that is not on it leaves
      room for fewer. */
  lemma {:induction false} StackIsBounded(s: Store, traveled: seq<PatternId>)
    requires Stack(s, traveled) && traveled != []
    ensures |traveled| <= |s.patterns| + 1
  {
    StackFits(traveled[1..], s.patterns.Keys);
  }

  /** How many more references the cycle guard can let through. */
  function Room(s: Store, st: St): int { |s.patterns| + 1 - |st.traveled| }

  type Args = map<string, Value>

  datatype St = St(placeables: nat, traveled: seq<PatternId>, dirty: bool, locals: Option<Args>)

  /** The limit flag is up exactly when the count has passed the limit, and the
      count passes it by one at most. */
  ghost predicate Counted(st: St) {
    && (st.dirty <==> st.placeables > MAX_PLACEABLES)
    && st.placeables <= MAX_PLACEABLES + 1
  }

  function NeedsIsolation(e: Expression): bool {
    !(e.Inline? && (e.e.MessageRef? || e.e.TermRef? || e.e.StringLiteral?))
  }

  function RefName(id: string, attr: string): string {
    if attr == "" then id else id + "." + attr
  }

  function InlineError(e: InlineExpr): string
    decreases e
  {
    match e
    case MessageRef(id, attr) => RefName(id, attr)
    case TermRef(id, attr, _) => "-" + RefName(id, attr)
    case FunctionRef(id, _) => id + "()"
    case VariableRef(id) => "$" + id
    case NestedPlaceable(x) => ErrorText(x)
    case _ => ""
  }

  /** The spelling of the reference that failed. */
  function ErrorText(e: Expression): string
    decreases e
  {
    match e
    case Inline(x) => InlineError(x)
    case Select(s, _) => InlineError(s)
  }

  function RefError(e: InlineExpr): string { "{" + InlineError(e) + "}" }

  /** The pattern a message or term reference names; None for an undefined one. */
  function Target(e: InlineExpr): PatternId
    requires e.MessageRef? || e.TermRef?
  {
    if e.attr != "" then AttrOf(e.TermRef?, e.id, e.attr) else ValueOf(e.TermRef?, e.id)
  }

  function VariableValue(st: St, args: Args, id: string): Option<Value> {
    var scope := if st.locals.Some? then st.locals.value else args;
    if id in scope then Some(scope[id]) else None
  }

  /** The state rendering may leave: the stack as it was (but for the pattern
      rendered first, which joins it at its first placeable), a count that did
      not fall, and a limit flag that stays up. */
  ghost predicate Leaves(st: St, st': St) {
    && Counted(st')
    && st.placeables <= st'.placeables
    && (st.dirty ==> st'.dirty)
    && (st.traveled != [] ==> st'.traveled == st.traveled)
  }

  function WritePattern(b: Store, args: Args, p: Pattern, pid: PatternId, st: St): (r: (St, string))
    requires Counted(st) && Stack(b, st.traveled)
    ensures Leaves(st, r.0)
    ensures st.traveled == [] ==> r.0.traveled == [] || r.0.traveled == [pid]
    decreases Room(b, st), p, |p.elements| + 1, 0
  {
    WriteElements(b, args, p, pid, 0, st)
  }

  /** Elements i and later of a pattern. */
  function WriteElements(b: Store, args: Args, p: Pattern, pid: PatternId, i: nat, st: St): (r: (St, string))
    requires i <= |p.elements| && Counted(st) && Stack(b, st.traveled)
    ensures Leaves(st, r.0)
    ensures st.traveled == [] ==> r.0.traveled == [] || r.0.traveled == [pid]
    decreases Room(b, st), p, |p.elements| - i, 1
  {
    if i == |p.elements| || st.dirty then (st, "")
    else
      var (st1, out) := WriteElement(b, args, p, pid, i, st);
      var (st2, rest) := WriteElements(b, args, p, pid, i + 1, st1);
      (st2, out + rest)
  }

  function WriteElement(b: Store, args: Args, p: Pattern, pid: PatternId, i: nat, st: St): (r: (St, string))
    requires i < |p.elements| && Counted(st) && Stack(b, st.traveled) && !st.dirty
    ensures Leaves(st, r.0)
    ensures st.traveled == [] ==> r.0.traveled == [] || r.0.traveled == [pid]
    decreases Room(b, st), p, |p.elements| - i, 0
  {
    match p.elements[i]
    case Text(text) => (st, text)
    case Placeable(e) =>
      if st.placeables == MAX_PLACEABLES then (st.(placeables := st.placeables + 1, dirty := true), "")
      else
        var (st1, out) := WriteMarked(b, args, e, Entered(pid, st));
        (st1, if |p.elements| > 1 && NeedsIsolation(e) then [FSI] + out + [PDI] else out)
  }

  /** An expression, followed by its marker when the limit cut it short. */
  function WriteMarked(b: Store, args: Args, e: Expression, st: St): (r: (St, string))
    requires Counted(st) && Stack(b, st.traveled) && st.traveled != []
    ensures Leaves(st, r.0)
    decreases Room(b, st), e, 1
  {
    var (st1, out) := WriteExpression(b, args, e, st);
    (st1, out + if st1.dirty then "{" + ErrorText(e) + "}" else "")
  }

  /** A placeable is counted, and the pattern rendered first joins the stack. */
  function Entered(pid: PatternId, st: St): St {
    st.(placeables := st.placeables + 1, traveled := if st.traveled == [] then [pid] else st.traveled)
  }

  function WriteExpression(b: Store, args: Args, e: Expression, st: St): (r: (St, string))
    requires Counted(st) && Stack(b, st.traveled) && st.traveled != []
    ensures Leaves(st, r.0)
    decreases Room(b, st), e, 0
  {
    match e
    case Inline(x) => WriteInline(b, args, x, st)
    case Select(selector, variants) =>
      var (st1, v) := ResolveInline(b, args, selector, st);
      var k := Choose(b.num, variants, v);
      if k < 0 then (st1, "") else WritePattern(b, args, variants[k].value, VariantPattern, st1)
  }

  function WriteInline(b: Store, args: Args, e: InlineExpr, st: St): (r: (St, string))
    requires Counted(st) && Stack(b, st.traveled) && st.traveled != []
    ensures Leaves(st, r.0)
    decreases Room(b, st), e, 1
  {
    match e
    case StringLiteral(raw) => (st, Literal.Unescape(raw))
    case NumberLiteral(raw) => (st, Written(b.num, TryNumber(b.num, raw)))
    case MessageRef(_, _) => WriteTarget(b, args, e, st)
    case TermRef(_, _, callArgs) =>
      var (st1, named) := if callArgs.Some? then NamedArgs(b, args, callArgs.value, st) else (st, map[]);
      var (st2, out) := WriteTarget(b, args, e, st1.(locals := Some(named)));
      (st2.(locals := None), out)
    case FunctionRef(_, callArgs) =>
      var (st1, _) := NamedArgs(b, args, callArgs, st);
      (st1, RefError(e))
    case VariableRef(id) =>
      var v := VariableValue(st, args, id);
      (st, if v.Some? then Written(b.num, v.value) else RefError(e))
    case NestedPlaceable(x) => WriteExpression(b, args, x, st)
  }

  /** Follows a reference unless it is undefined or would close a cycle. */
  function WriteTarget(b: Store, args: Args, e: InlineExpr, st: St): (r: (St, string))
    requires Counted(st) && Stack(b, st.traveled) && st.traveled != [] && (e.MessageRef? || e.TermRef?)
    ensures Leaves(st, r.0)
    decreases Room(b, st), e, 0
  {
    var pid := Target(e);
    var p := Find(b, pid);
    if p.None? || pid in st.traveled then (st, RefError(e))
    else
      StackIsBounded(b, st.traveled);
      var (st1, out) := WritePattern(b, args, p.value, pid, st.(traveled := st.traveled + [pid]));
      (st1.(traveled := st.traveled), out)
  }

  /** A value for a selector or an argument. */
  function ResolveInline(b: Store, args: Args, e: InlineExpr, st: St): (r: (St, Value))
    requires Counted(st) && Stack(b, st.traveled) && st.traveled != []
    ensures Leaves(st, r.0)
    decreases Room(b, st), e, 2
  {
    match e
    case StringLiteral(raw) => (st, StringValue(Literal.Unescape(raw)))
    case NumberLiteral(raw) => (st, TryNumber(b.num, raw))
    case VariableRef(id) =>
      var v := VariableValue(st, args, id);
      (st, if v.Some? then v.value else ErrorValue)
    case FunctionRef(_, _) => (st, ErrorValue)
    case _ =>
      var (st', out) := WriteInline(b, args, e, st);
      (st', StringValue(out))
  }

  /** Positional arguments are resolved and dropped, named ones are kept. */
  function NamedArgs(b: Store, args: Args, c: CallArgs, st: St): (r: (St, Args))
    requires Counted(st) && Stack(b, st.traveled) && st.traveled != []
    ensures Leaves(st, r.0)
    decreases Room(b, st), c, |c.positional| + |c.named| + 1
  {
    NamedFrom(b, args, c, 0, PositionalFrom(b, args, c, 0, st), map[])
  }

  function PositionalFrom(b: Store, args: Args, c: CallArgs, k: nat, st: St): (st': St)
    requires Counted(st) && Stack(b, st.traveled) && st.traveled != [] && k <= |c.positional|
    ensures Leaves(st, st')
    decreases Room(b, st), c, |c.positional| - k
  {
    if k == |c.positional| then st
    else PositionalFrom(b, args, c, k + 1, ResolveInline(b, args, c.positional[k], st).0)
  }

  function NamedFrom(b: Store, args: Args, c: CallArgs, k: nat, st: St, named: Args): (r: (St, Args))
    requires Counted(st) && Stack(b, st.traveled) && st.traveled != [] && k <= |c.named|
    ensures Leaves(st, r.0)
    decreases Room(b, st), c, |c.named| - k
  {
    if k == |c.named| then (st, named)
    else
      var (st1, v) := ResolveInline(b, args, c.named[k].value, st);
      NamedFrom(b, args, c, k + 1, st1, named[c.named[k].name := v])
  }

  const START: St := St(0, [], false, None)

  /** Formatting a pattern with the caller's arguments. */
  function Format(b: Bundle, args: Args, p: Pattern, pid: PatternId): string {
    WritePattern(StoreOf(b), args, p, pid, START).1
  }
}
