/** What numbers, keys and references mean, said without the functions that compute it:
    how many fraction digits a spelling has, how a number is padded, when a variant's
    key is a hit, which code point an escape spells, and what a reference leads to. */
module FluentLaws {
  import opened FluentSyntax
  import opened Options
  import opened Chars
  import opened FluentValues
  import opened ResolverSpec
  import Literal

  // ----- fraction digits -----

  /** The spelling has a dot, and this stands before and after the first one. */
  ghost predicate Dotted(raw: string, whole: string, frac: string) {
    raw == whole + "." + frac && '.' !in whole
  }

  lemma {:induction false} DotAt(raw: string)
    ensures '.' !in raw ==> IndexOf(raw, '.') == -1
    ensures forall whole, frac | Dotted(raw, whole, frac) ::
              IndexOf(raw, '.') == |whole| && whole == raw[..|whole|] && frac == raw[|whole| + 1..]
    ensures '.' in raw ==> Dotted(raw, raw[..IndexOf(raw, '.')], raw[IndexOf(raw, '.') + 1..])
  {
    forall whole, frac | Dotted(raw, whole, frac)
      ensures IndexOf(raw, '.') == |whole| && whole == raw[..|whole|] && frac == raw[|whole| + 1..]
    {
      assert raw[..|whole|] == whole;
      FirstIndex(raw, '.', |whole|);
    }
    if '.' in raw {
      var i := IndexOf(raw, '.');
      assert raw == raw[..i] + "." + raw[i + 1..];
    }
  }

  lemma {:induction false} FirstIndex(s: string, c: char, k: nat)
    requires k < |s| && s[k] == c && c !in s[..k]
    ensures IndexOf(s, c) == k
    decreases k
  {
    if k > 0 {
      assert s[0] == s[..k][0] && s[1..][..k - 1] == s[..k][1..];
      FirstIndex(s[1..], c, k - 1);
    }
  }

  /** The fraction digits of a spelling; -1 when it has no dot. */
  ghost predicate FractionDigits(raw: string, d: int) {
    || ('.' !in raw && d == -1)
    || exists whole, frac :: Dotted(raw, whole, frac) && d == |frac|
  }

  /** A spelling that parses is a number with as many fraction digits as it shows, any
      other is a string. */
  lemma {:induction false} NumberReads(n: Numerics, raw: string, d: int)
    ensures n.parse(raw).None? ==> TryNumber(n, raw) == StringValue(raw)
    ensures n.parse(raw).Some? ==>
              (TryNumber(n, raw) == NumberValue(Number(n.parse(raw).value, d)) <==> FractionDigits(raw, d))
  {
    DotAt(raw);
  }

  /** The shown digits, with zeros after them when fewer fraction digits are shown than
      wanted. */
  ghost predicate Padded(shown: string, wanted: int, s: string) {
    if wanted < 0 then s == shown
    else if '.' !in shown then s == shown + "." + Repeated('0', wanted)
    else exists whole, frac :: Dotted(shown, whole, frac) &&
           s == shown + Repeated('0', if wanted > |frac| then wanted - |frac| else 0)
  }

  function Repeated(c: char, n: nat): string {
    if n == 0 then "" else [c] + Repeated(c, n - 1)
  }

  lemma {:induction false} ZerosAre(n: nat)
    ensures Zeros(n) == Repeated('0', n)
  {
    if n > 0 {
      ZerosAre(n - 1);
      assert Zeros(n) == ['0'] + Zeros(n - 1);
    }
  }

  /** A number is written as its digits padded to its minimum of fraction digits. */
  lemma {:induction false} NumberWrites(n: Numerics, x: Number, s: string)
    ensures Written(n, NumberValue(x)) == s <==> Padded(n.show(x.v), x.minFD, s)
  {
    var shown := n.show(x.v);
    DotAt(shown);
    if x.minFD >= 0 {
      ZerosAre(x.minFD);
      if '.' in shown {
        var dot := IndexOf(shown, '.');
        var frac := shown[dot + 1..];
        assert Dotted(shown, shown[..dot], frac);
        ZerosAre(if x.minFD > |frac| then x.minFD - |frac| else 0);
        assert Zeros(x.minFD - |frac|) == Zeros(if x.minFD > |frac| then x.minFD - |frac| else 0);
      }
    }
  }

  // ----- hits -----

  /** The plural operands of a number: its integer part, and the fraction digits shown
      or wanted, whichever are more. */
  ghost predicate HasOperands(n: Numerics, x: Number, o: Operands) {
    exists s, shown: int :: Unsigned(n.show(x.v), s) && Shows(n, s, o.i, shown) && o.v == Most(x.minFD, shown)
  }

  function Most(a: int, b: int): int { if a > b then a else b }

  /** s is the spelling without its minus sign. */
  ghost predicate Unsigned(spelling: string, s: string) {
    spelling == "-" + s || (spelling == s && (s == "" || s[0] != '-'))
  }

  /** The integer part and the number of fraction digits that a spelling shows. */
  ghost predicate Shows(n: Numerics, s: string, i: nat, shown: int) {
    if '.' in s then
      exists whole, frac :: Dotted(s, whole, frac) && shown == |frac| &&
        whole != "" && All(whole, IsDigit) && i == Decimal(whole) && i < 0x1_0000_0000_0000_0000
    else n.parse(s).Some? && i == n.truncate(n.parse(s).value) && shown == 0
  }

  lemma {:induction false} OperandsAre(n: Numerics, x: Number, o: Operands)
    ensures PluralOperands(n, x) == Some(o) <==> HasOperands(n, x, o)
  {
    var spelling := n.show(x.v);
    var s := if spelling != "" && spelling[0] == '-' then spelling[1..] else spelling;
    OneUnsigned(spelling);
    if PluralOperands(n, x) == Some(o) {
      var shown := ShownOperands(n, s).value;
      ShowsIs(n, s, shown);
      assert Shows(n, s, o.i, shown.v) && o.v == Most(x.minFD, shown.v);
    }
    if t, shown: int :| Unsigned(spelling, t) && Shows(n, t, o.i, shown) && o.v == Most(x.minFD, shown) {
      ShowsIs(n, s, Operands(o.i, shown));
    }
  }

  lemma {:induction false} ShowsIs(n: Numerics, s: string, o: Operands)
    ensures ShownOperands(n, s) == Some(o) <==> Shows(n, s, o.i, o.v)
  {
    DotAt(s);
    if '.' in s {
      var dot := IndexOf(s, '.');
      UintIs(s[..dot], o.i);
    }
  }

  lemma {:induction false} UintIs(s: string, i: nat)
    ensures ParseUint(s) == Some(i) <==>
            s != "" && All(s, IsDigit) && i == Decimal(s) && i < 0x1_0000_0000_0000_0000
  {
  }

  /** The digits of a number, over that many places. */
  function Places(i: nat, digits: nat): string {
    if digits == 0 then "" else Places(i / 10, digits - 1) + ["0123456789"[i % 10]]
  }

  function Power10(n: nat): nat { if n == 0 then 1 else 10 * Power10(n - 1) }

  /** Decimal digits read as the number they are the digits of. */
  lemma {:induction false} DecimalReads(i: nat, digits: nat)
    requires i < Power10(digits)
    ensures All(Places(i, digits), IsDigit) && Decimal(Places(i, digits)) == i
    decreases digits
  {
    if digits > 0 {
      var s := Places(i, digits);
      DecimalReads(i / 10, digits - 1);
      assert s[..|s| - 1] == Places(i / 10, digits - 1) && IsDigit("0123456789"[i % 10]);
      assert s[|s| - 1] as int - '0' as int == i % 10;
    }
  }

  lemma {:induction false} OneUnsigned(spelling: string)
    ensures
      var s := if spelling != "" && spelling[0] == '-' then spelling[1..] else spelling;
      Unsigned(spelling, s) && forall t | Unsigned(spelling, t) :: t == s
  {
    var s := if spelling != "" && spelling[0] == '-' then spelling[1..] else spelling;
    forall t | Unsigned(spelling, t) ensures t == s {
      if spelling == "-" + t {
        assert spelling[1..] == t;
      }
    }
  }

  /** A variant's key is a hit: it is the selecting string; or it spells a number equal
      to the selecting one, with as many fraction digits; or it is the keyword of that
      number's plural category. */
  lemma {:induction false} HitIs(n: Numerics, v: Variant, selector: Value)
    ensures Hit(n, v, selector) <==>
            match selector
            case StringValue(s) => v.key == s && !(v.numberKey && n.parse(v.key).Some?)
            case NumberValue(x) =>
              if v.numberKey && n.parse(v.key).Some?
              then n.equal(n.parse(v.key).value, x.v) && FractionDigits(v.key, x.minFD)
              else v.key in ["zero", "one", "two", "few", "many", "other"] &&
                   exists o :: HasOperands(n, x, o) && n.plural(o) == v.key
            case _ => false
  {
    if selector.NumberValue? {
      var x := selector.num;
      if v.numberKey {
        NumberReads(n, v.key, x.minFD);
        if n.parse(v.key).Some? {
          NumberReads(n, v.key, TryNumber(n, v.key).num.minFD);
        }
      }
      if PluralOperands(n, x).Some? {
        OperandsAre(n, x, PluralOperands(n, x).value);
      }
      forall o | HasOperands(n, x, o) ensures PluralOperands(n, x) == Some(o) {
        OperandsAre(n, x, o);
      }
    }
  }

  // ----- code points -----

  /** The hexadecimal digits of a number, most significant first; upper or lower case. */
  function Hex(cp: nat, digits: nat, upper: bool): (s: string)
    ensures |s| == digits
  {
    if digits == 0 then "" else Hex(cp / 16, digits - 1, upper) + [HexChar(cp % 16, upper)]
  }

  function HexChar(d: nat, upper: bool): char
    requires d < 16
  {
    if upper then "0123456789ABCDEF"[d] else "0123456789abcdef"[d]
  }

  lemma {:induction false} HexCharReads(d: nat, upper: bool)
    requires d < 16
    ensures IsHex(HexChar(d, upper)) && Literal.HexDigit(HexChar(d, upper)) == d
  {
  }

  lemma {:induction false} HexReads(cp: nat, digits: nat, upper: bool)
    requires cp < Power16(digits)
    ensures All(Hex(cp, digits, upper), IsHex) && Literal.HexValue(Hex(cp, digits, upper)) == cp
    decreases digits
  {
    if digits > 0 {
      var s := Hex(cp, digits, upper);
      HexReads(cp / 16, digits - 1, upper);
      HexCharReads(cp % 16, upper);
      assert s[..digits - 1] == Hex(cp / 16, digits - 1, upper);
    }
  }

  function Power16(n: nat): nat { if n == 0 then 1 else 16 * Power16(n - 1) }

  /** An escape that spells a code point stands for it. */
  lemma {:induction false} EscapeSpells(c: char, upper: bool)
    requires c as int <= 0x10FFFF && !(0xD800 <= c as int <= 0xDFFF)
    ensures Literal.Rune(Hex(c as nat, 6, upper)) == c
    ensures c as int < 0x1_0000 ==> Literal.Rune(Hex(c as nat, 4, upper)) == c
  {
    Powers();
    HexReads(c as nat, 6, upper);
    if c as int < 0x1_0000 {
      HexReads(c as nat, 4, upper);
    }
  }

  lemma {:induction false} Powers()
    ensures Power16(4) == 0x1_0000 && Power16(6) == 0x100_0000
  {
    assert Power16(1) == 16 && Power16(2) == 256 && Power16(3) == 4096 && Power16(4) == 0x1_0000;
    assert Power16(5) == 0x10_0000;
  }

  // ----- references -----

  /** The first attribute of that name. */
  ghost predicate FirstNamed(attrs: seq<Attribute>, name: string, p: Pattern) {
    exists k: nat :: NamedAt(attrs, name, p, k)
  }

  ghost predicate NamedAt(attrs: seq<Attribute>, name: string, p: Pattern, k: nat) {
    k < |attrs| && attrs[k] == Attribute(name, p) && forall j | 0 <= j < k :: attrs[j].id != name
  }

  lemma {:induction false} AttributeIsFirst(attrs: seq<Attribute>, name: string, p: Pattern)
    ensures AttributeOf(attrs, name) == Some(p) <==> FirstNamed(attrs, name, p)
    decreases attrs
  {
    if attrs != [] {
      var rest := attrs[1..];
      AttributeIsFirst(rest, name, p);
      assert NamedAt(attrs, name, p, 0) <==> attrs[0] == Attribute(name, p);
      if k: nat :| attrs[0].id != name && NamedAt(rest, name, p, k) {
        LaterNamed(attrs, name, p, k);
      }
      if k: nat :| k > 0 && NamedAt(attrs, name, p, k) {
        LaterNamed(attrs, name, p, k - 1);
      }
    }
  }

  lemma {:induction false} LaterNamed(attrs: seq<Attribute>, name: string, p: Pattern, k: nat)
    requires attrs != []
    ensures NamedAt(attrs, name, p, k + 1) <==> attrs[0].id != name && NamedAt(attrs[1..], name, p, k)
  {
    var rest := attrs[1..];
    assert forall j | 1 <= j < |attrs| :: attrs[j] == rest[j - 1];
    if attrs[0].id != name && NamedAt(rest, name, p, k) {
      assert forall j | 0 <= j < k + 1 :: j == 0 || attrs[j] == rest[j - 1];
    }
    if NamedAt(attrs, name, p, k + 1) {
      assert forall j | 0 <= j < k :: rest[j] == attrs[j + 1];
    }
  }

  /** What an entry holds for a reference: its value, or its first attribute of the name. */
  ghost predicate Holds(entries: map<string, Entry>, id: string, attr: string, p: Pattern) {
    id in entries && if attr == "" then entries[id].value == Some(p) else FirstNamed(entries[id].attrs, attr, p)
  }

  /** A message reference leads into the messages, a term reference into the terms. */
  lemma {:induction false} ReferenceLeads(b: Bundle, e: InlineExpr, p: Pattern)
    requires e.MessageRef? || e.TermRef?
    ensures Find(StoreOf(b), Target(e)) == Some(p) <==>
            match e
            case MessageRef(id, attr) => Holds(b.messages, id, attr, p)
            case TermRef(id, attr, _) => Holds(b.terms, id, attr, p)
            case _ => false
  {
    var entries := if e.MessageRef? then b.messages else b.terms;
    assert Find(StoreOf(b), Target(e)) == Lookup(b, Target(e));
    if e.id in entries {
      AttributeIsFirst(entries[e.id].attrs, e.attr, p);
    }
  }
}
