/** The values the resolver works with, and how a selector value picks a variant. */
module FluentValues {
  import opened FluentSyntax
  import opened Options
  import opened Chars

  /** A 64-bit float. Only its comparison, parsing, printing and truncation are used,
      and those are parameters: nothing here depends on rounding. */
  type Float(==, !new)

  /** minFD is the minimum number of fraction digits, -1 when unset. */
  datatype Number = Number(v: Float, minFD: int)

  datatype Value =
    | NoneValue
    | StringValue(str: string)
    | NumberValue(num: Number)
    | ErrorValue

  /** The plural operands: integer digits and visible fraction digits. */
  datatype Operands = Operands(i: nat, v: int)

  /** Float arithmetic and the language's plural rule. Two zeros may be equal and
      print differently. */
  datatype Numerics = Numerics(
    equal: (Float, Float) -> bool,
    parse: string -> Option<Float>,
    show: Float -> string,
    truncate: Float -> nat,
    plural: Operands -> string)

  function IndexOf(s: string, c: char): (i: int)
    ensures -1 <= i < |s|
    ensures i >= 0 ==> s[i] == c && c !in s[..i]
    ensures i < 0 ==> c !in s
  {
    if s == "" then -1
    else if s[0] == c then 0
    else
      var i := IndexOf(s[1..], c);
      assert i >= 0 ==> s[..i + 1] == [s[0]] + s[1..][..i];
      if i < 0 then -1 else i + 1
  }

  function Zeros(n: int): (s: string)
    ensures |s| == if n < 0 then 0 else n
    ensures All(s, IsDigit)
  {
    seq(if n < 0 then 0 else n, _ => '0')
  }

  function TryNumber(n: Numerics, raw: string): Value {
    match n.parse(raw)
    case None => StringValue(raw)
    case Some(f) =>
      var dot := IndexOf(raw, '.');
      NumberValue(Number(f, if dot >= 0 then |raw| - dot - 1 else -1))
  }

  /** The plain digits, padded with zeros up to the minimum fraction digits. */
  function NumberString(n: Numerics, x: Number): string {
    var s := n.show(x.v);
    if x.minFD < 0 then s
    else
      var dot := IndexOf(s, '.');
      if dot >= 0 then s + Zeros(x.minFD - (|s| - dot - 1))
      else s + "." + Zeros(x.minFD)
  }

  function Decimal(s: string): nat
    requires All(s, IsDigit)
  {
    if s == "" then 0 else Decimal(s[..|s| - 1]) * 10 + (s[|s| - 1] as int - '0' as int)
  }

  /** An unsigned 64-bit integer literal. */
  function ParseUint(s: string): Option<nat> {
    if s != "" && All(s, IsDigit) && Decimal(s) < 0x1_0000_0000_0000_0000 then Some(Decimal(s)) else None
  }

  function PluralOperands(n: Numerics, x: Number): Option<Operands> {
    var shown := n.show(x.v);
    var s := if shown != "" && shown[0] == '-' then shown[1..] else shown;
    match ShownOperands(n, s)
    case None => None
    case Some(o) => Some(if x.minFD > o.v then o.(v := x.minFD) else o)
  }

  /** The operands that a spelling without a sign shows. */
  function ShownOperands(n: Numerics, s: string): Option<Operands> {
    var dot := IndexOf(s, '.');
    if dot >= 0 then
      match ParseUint(s[..dot])
      case None => None
      case Some(i) => Some(Operands(i, |s| - dot - 1))
    else
      match n.parse(s)
      case None => None
      case Some(f) => Some(Operands(n.truncate(f), 0))
  }

  const PLURAL_KEYWORDS: set<string> := {"zero", "one", "two", "few", "many", "other"}

  /** Equal strings, equal numbers, or a plural keyword naming the number's category. */
  predicate Matches(n: Numerics, key: Value, selector: Value) {
    match (key, selector)
    case (StringValue(k), StringValue(s)) => k == s
    case (NumberValue(k), NumberValue(s)) => n.equal(k.v, s.v) && k.minFD == s.minFD
    case (StringValue(k), NumberValue(s)) =>
      k in PLURAL_KEYWORDS &&
      var ops := PluralOperands(n, s);
      ops.Some? && n.plural(ops.value) == k
    case _ => false
  }

  function Written(n: Numerics, v: Value): string {
    match v
    case StringValue(s) => s
    case NumberValue(x) => NumberString(n, x)
    case _ => ""
  }

  function VariantKey(n: Numerics, v: Variant): Value {
    if v.numberKey then TryNumber(n, v.key) else StringValue(v.key)
  }

  predicate Hit(n: Numerics, v: Variant, selector: Value) {
    Matches(n, VariantKey(n, v), selector)
  }

  /** The variant a selector value chooses: the first whose key matches a string
      or number, else the first default, else none. */
  ghost predicate Chosen(n: Numerics, variants: seq<Variant>, selector: Value, choice: int) {
    && -1 <= choice < |variants|
    && (var keyed := selector.StringValue? || selector.NumberValue?;
        || (choice >= 0 && keyed && Hit(n, variants[choice], selector)
            && forall k | 0 <= k < choice :: !Hit(n, variants[k], selector))
        || ((keyed ==> forall k | 0 <= k < |variants| :: !Hit(n, variants[k], selector))
            && (choice >= 0 ==> variants[choice].isDefault)
            && forall k | 0 <= k < (if choice < 0 then |variants| else choice) :: !variants[k].isDefault))
  }

  /** At most one variant is chosen. */
  lemma {:induction false} ChosenUnique(n: Numerics, variants: seq<Variant>, selector: Value, a: int, b: int)
    requires Chosen(n, variants, selector, a) && Chosen(n, variants, selector, b)
    ensures a == b
  {
  }

  function FirstHit(n: Numerics, variants: seq<Variant>, selector: Value, k: nat): (i: nat)
    requires k <= |variants|
    ensures k <= i <= |variants|
    ensures forall j | k <= j < i :: !Hit(n, variants[j], selector)
    ensures i < |variants| ==> Hit(n, variants[i], selector)
    decreases |variants| - k
  {
    if k == |variants| || Hit(n, variants[k], selector) then k else FirstHit(n, variants, selector, k + 1)
  }

  function FirstDefault(variants: seq<Variant>, k: nat): (i: nat)
    requires k <= |variants|
    ensures k <= i <= |variants|
    ensures forall j | k <= j < i :: !variants[j].isDefault
    ensures i < |variants| ==> variants[i].isDefault
    decreases |variants| - k
  {
    if k == |variants| || variants[k].isDefault then k else FirstDefault(variants, k + 1)
  }

  function Choose(n: Numerics, variants: seq<Variant>, selector: Value): (choice: int)
    ensures Chosen(n, variants, selector, choice)
  {
    var hit := FirstHit(n, variants, selector, 0);
    if (selector.StringValue? || selector.NumberValue?) && hit < |variants| then hit
    else
      var d := FirstDefault(variants, 0);
      if d < |variants| then d else -1
  }
}
