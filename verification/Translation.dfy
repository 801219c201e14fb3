/** From source text to rendered message: what the parser builds is what the
    resolver needs, and isolation marks balance for whole sources. */
module Translation {
  import opened FluentSyntax
  import opened Options
  import opened FluentValues
  import opened Chars
  import opened ParserSpec
  import opened WellFormed
  import opened ResolverSpec
  import opened Isolation
  import Literal
  import Parser
  import Resolver

  /** A source that spells no isolation mark, neither itself nor by an escape. */
  ghost predicate NoMarks(src: string) {
    MarkFree(src) && NoMarkEscape(src)
  }

  ghost predicate NoMarkEscape(src: string) { forall i: nat :: !MarkEscape(src, i) }

  /** A mark's code point, written from position i. */
  predicate MarkDigits(s: string, i: nat) {
    i + 4 <= |s| && s[i] == '2' && s[i + 1] == '0' && s[i + 2] == '6' && (s[i + 3] == '8' || s[i + 3] == '9')
  }

  /** The backslashes right before position i. */
  function Slashes(s: string, i: nat): nat
    requires i <= |s|
  {
    if i > 0 && s[i - 1] == '\\' then Slashes(s, i - 1) + 1 else 0
  }

  /** A backslash at i that none before it escapes, and after it a mark's code point. */
  predicate MarkEscape(s: string, i: nat) {
    && i + 1 < |s| && s[i] == '\\' && Slashes(s, i) % 2 == 0
    && ((s[i + 1] == 'u' && MarkDigits(s, i + 2)) ||
        (s[i + 1] == 'U' && i + 3 < |s| && s[i + 2] == '0' && s[i + 3] == '0' && MarkDigits(s, i + 4)))
  }

  // ----- decoded literals -----

  lemma {:induction false} HexValue4(a: char, b: char, c: char, d: char)
    requires IsHex(a) && IsHex(b) && IsHex(c) && IsHex(d)
    ensures Literal.HexValue([a, b, c, d]) ==
            Literal.HexDigit(a) * 4096 + Literal.HexDigit(b) * 256 + Literal.HexDigit(c) * 16 + Literal.HexDigit(d)
  {
    var s := [a, b, c, d];
    assert s[..3] == [a, b, c] && [a, b, c][..2] == [a, b] && [a, b][..1] == [a] && [a][..0] == [];
    assert Literal.HexValue([a]) == Literal.HexDigit(a);
    assert Literal.HexValue([a, b]) == Literal.HexDigit(a) * 16 + Literal.HexDigit(b);
    assert Literal.HexValue([a, b, c]) == (Literal.HexDigit(a) * 16 + Literal.HexDigit(b)) * 16 + Literal.HexDigit(c);
  }

  /** The digits of a number below 65536 that is a mark's code point. */
  lemma {:induction false} MarkValue(a: nat, b: nat, c: nat, d: nat)
    requires a < 16 && b < 16 && c < 16 && d < 16 && a * 4096 + b * 256 + c * 16 + d in {0x2068, 0x2069}
    ensures a == 2 && b == 0 && c == 6 && (d == 8 || d == 9)
  {
  }

  lemma {:induction false} HexOfMark(hex: string)
    requires |hex| == 4 && All(hex, IsHex) && Literal.HexValue(hex) in {0x2068, 0x2069}
    ensures MarkDigits(hex, 0)
  {
    assert hex == [hex[0], hex[1], hex[2], hex[3]];
    HexValue4(hex[0], hex[1], hex[2], hex[3]);
    MarkValue(Literal.HexDigit(hex[0]), Literal.HexDigit(hex[1]), Literal.HexDigit(hex[2]), Literal.HexDigit(hex[3]));
  }

  /** A long escape of a mark: two zeros, then the digits. */
  lemma {:induction false} LongHexOfMark(hex: string)
    requires |hex| == 6 && All(hex, IsHex) && Literal.HexValue(hex) in {0x2068, 0x2069}
    ensures hex[0] == '0' && hex[1] == '0' && MarkDigits(hex, 2)
  {
    HexValue6(hex);
    TopZero(Literal.HexDigit(hex[0]), Literal.HexDigit(hex[1]), Literal.HexDigit(hex[2]), Literal.HexDigit(hex[3]),
            Literal.HexDigit(hex[4]), Literal.HexDigit(hex[5]));
  }

  lemma {:induction false} TopZero(e: nat, f: nat, a: nat, b: nat, c: nat, d: nat)
    requires a < 16 && b < 16 && c < 16 && d < 16
    requires (e * 16 + f) * 65536 + a * 4096 + b * 256 + c * 16 + d in {0x2068, 0x2069}
    ensures e == 0 && f == 0 && a == 2 && b == 0 && c == 6 && (d == 8 || d == 9)
  {
  }

  lemma {:induction false} HexValue6(hex: string)
    requires |hex| == 6 && All(hex, IsHex)
    ensures Literal.HexValue(hex) ==
            (Literal.HexDigit(hex[0]) * 16 + Literal.HexDigit(hex[1])) * 65536 +
            Literal.HexDigit(hex[2]) * 4096 + Literal.HexDigit(hex[3]) * 256 +
            Literal.HexDigit(hex[4]) * 16 + Literal.HexDigit(hex[5])
  {
    var front, five := hex[..4], hex[..5];
    assert hex[..5] == five && five[..4] == front && front == [hex[0], hex[1], hex[2], hex[3]];
    HexValue4(hex[0], hex[1], hex[2], hex[3]);
    assert Literal.HexValue(five) == Literal.HexValue(front) * 16 + Literal.HexDigit(five[4]);
    assert Literal.HexValue(hex) == Literal.HexValue(five) * 16 + Literal.HexDigit(hex[5]);
  }

  lemma {:induction false} PartMarkFree(src: string, s: string)
    requires MarkFree(src) && PartOf(src, s)
    ensures MarkFree(s)
  {
  }

  /** Between units the backslashes pair up. */
  lemma {:induction false} UnitsPair(src: string, i: nat, u: Literal.Unit)
    requires u.Valid() && i + |u.Spelling()| <= |src| && src[i..i + |u.Spelling()|] == u.Spelling()
    requires Slashes(src, i) % 2 == 0
    ensures Slashes(src, i + |u.Spelling()|) % 2 == 0
  {
    var s := u.Spelling();
    assert forall k | i <= k < i + |s| :: src[k] == s[k - i];
    match u
    case Backslash =>
      assert Slashes(src, i + 1) == Slashes(src, i) + 1 && Slashes(src, i + 2) == Slashes(src, i) + 2;
    case _ =>
      assert src[i + |s| - 1] == s[|s| - 1] != '\\';
  }

  lemma {:induction false} UnitNoMark(src: string, i: nat, u: Literal.Unit)
    requires u.Valid() && i + |u.Spelling()| <= |src| && src[i..i + |u.Spelling()|] == u.Spelling()
    requires NoMarks(src) && Slashes(src, i) % 2 == 0
    ensures u.Meaning() != FSI && u.Meaning() != PDI
  {
    var s := u.Spelling();
    assert forall k | i <= k < i + |s| :: src[k] == s[k - i];
    assert !MarkEscape(src, i);
    match u
    case Plain(c) => assert c == src[i];
    case Short(hex) =>
      if u.Meaning() in {FSI, PDI} {
        HexOfMark(hex);
      }
    case Long(hex) =>
      if u.Meaning() in {FSI, PDI} {
        LongHexOfMark(hex);
      }
    case _ =>
  }

  lemma {:induction false} UnitsNoMark(src: string, i: nat, us: seq<Literal.Unit>, after: string)
    requires NoMarks(src) && i <= |src| && Slashes(src, i) % 2 == 0
    requires Literal.Units(us) && src[i..] == Literal.Spell(us) + after
    ensures forall k | 0 <= k < |us| :: us[k].Meaning() != FSI && us[k].Meaning() != PDI
    decreases us
  {
    if us != [] {
      var u, s, rest := us[0], us[0].Spelling(), Literal.Spell(us[1..]);
      assert u.Valid();
      WellFormed.Regroup(s, rest, after);
      Literal.Suffix(src, i, s, rest + after);
      UnitNoMark(src, i, u);
      UnitsPair(src, i, u);
      UnitsNoMark(src, i + |s|, us[1..], after);
    }
  }

  lemma {:induction false} DecodedMarkFree(src: string, raw: string)
    requires NoMarks(src) && Quoted(src, raw) && Spelled(raw)
    ensures MarkFree(Literal.Unescape(raw))
  {
    var us: seq<Literal.Unit> :| Literal.Units(us) && raw == Literal.Spell(us);
    assert raw[0..] == raw;
    Literal.DecodesUnitByUnit(raw, 0, us);
    QuotedUnitsNoMark(src, raw, us);
    assert Literal.Unescape(raw) == Literal.Meanings(us);
  }

  lemma {:induction false} QuotedUnitsNoMark(src: string, raw: string, us: seq<Literal.Unit>)
    requires NoMarks(src) && Quoted(src, raw) && Literal.Units(us) && raw == Literal.Spell(us)
    ensures forall k | 0 <= k < |us| :: us[k].Meaning() != FSI && us[k].Meaning() != PDI
  {
    var i: nat :| QuotedAt(src, raw, i);
    QuotedTail(src, raw, i);
    UnitsNoMark(src, i + 1, us, src[i + 1 + |raw|..]);
  }

  lemma {:induction false} QuotedTail(src: string, raw: string, i: nat)
    requires QuotedAt(src, raw, i)
    ensures i + 1 + |raw| <= |src| && src[i + 1..] == raw + src[i + 1 + |raw|..]
    ensures Slashes(src, i + 1) == 0
  {
  }

  // ----- the parsed syntax is quiet -----

  lemma {:induction false} NumberMarkFree(s: string)
    requires IsNumber(s)
    ensures MarkFree(s)
  {
    var sign, whole, frac :|
      && s == sign + whole + frac
      && (sign == "" || sign == "-")
      && whole != "" && All(whole, IsDigit)
      && (frac == "" || (|frac| > 1 && frac[0] == '.' && All(frac[1..], IsDigit)));
    assert forall k | 1 <= k < |frac| :: frac[k] == frac[1..][k - 1];
  }

  lemma {:induction false} PatternQuiet(src: string, p: Pattern)
    requires NoMarks(src) && WfPattern(src, p)
    ensures QuietPattern(p)
    decreases p
  {
    forall k | 0 <= k < |p.elements| ensures QuietElement(p.elements[k]) {
      assert WfElement(src, p.elements[k]);
      match p.elements[k]
      case Text(t) => PartMarkFree(src, t);
      case Placeable(e) => ExpressionQuiet(src, e);
    }
  }

  lemma {:induction false} ExpressionQuiet(src: string, e: Expression)
    requires NoMarks(src) && WfPlaceable(src, e)
    ensures QuietExpression(e)
    decreases e
  {
    match e
    case Inline(x) => InlineQuiet(src, x);
    case Select(s, vs) =>
      InlineQuiet(src, s);
      forall k | 0 <= k < |vs| ensures QuietPattern(vs[k].value) {
        assert WfVariant(src, vs[k]);
        PatternQuiet(src, vs[k].value);
      }
  }

  lemma {:induction false} InlineQuiet(src: string, e: InlineExpr)
    requires NoMarks(src) && WfInline(src, e)
    ensures QuietInline(e)
    decreases e
  {
    match e
    case StringLiteral(raw) =>
      DecodedMarkFree(src, raw);
    case NumberLiteral(raw) => NumberMarkFree(raw);
    case TermRef(_, _, c) =>
      if c.Some? {
        ArgsQuiet(src, c.value);
      }
    case FunctionRef(_, c) => ArgsQuiet(src, c);
    case NestedPlaceable(x) => ExpressionQuiet(src, x);
    case _ =>
  }

  lemma {:induction false} ArgsQuiet(src: string, c: CallArgs)
    requires NoMarks(src) && WfArgs(src, c)
    ensures QuietArgs(c)
    decreases c
  {
    forall k | 0 <= k < |c.positional| ensures QuietInline(c.positional[k]) {
      InlineQuiet(src, c.positional[k]);
    }
    forall k | 0 <= k < |c.named| ensures QuietInline(c.named[k].value) {
      assert WfNamed(src, c.named[k]);
      InlineQuiet(src, c.named[k].value);
    }
  }

  // ----- whole sources -----

  /** The bundle's tables hold entries of the source. */
  ghost predicate BuiltFrom(b: Bundle, src: string) {
    forall term, id | id in Table(b, term) ::
      Table(b, term)[id] in Parse(src).entries && Table(b, term)[id].term == term
  }

  /** A bundle built from a source has well-formed patterns only, and each of its
      terms has a value to follow. */
  lemma {:induction false} BuiltWf(b: Bundle, src: string)
    requires BuiltFrom(b, src)
    ensures forall pid | Lookup(b, pid).Some? :: WfPattern(src, Lookup(b, pid).value)
    ensures forall id | id in b.terms :: Lookup(b, ValueOf(true, id)).Some?
  {
    ParseWf(src);
    forall id | id in b.terms ensures b.terms[id].value.Some? {
      assert id in Table(b, true) && WfEntry(src, Table(b, true)[id]);
    }
    forall pid | Lookup(b, pid).Some? ensures WfPattern(src, Lookup(b, pid).value) {
      var e := Table(b, pid.term)[pid.id];
      assert WfEntry(src, e);
      if pid.AttrOf? {
        var k :| 0 <= k < |e.attrs| && e.attrs[k] == Attribute(pid.attr, Lookup(b, pid).value);
        assert WfAttribute(src, e.attrs[k]);
      }
    }
  }

  lemma {:induction false} BuiltQuiet(b: Bundle, src: string)
    requires BuiltFrom(b, src) && NoMarks(src) && forall f :: MarkFree(b.num.show(f))
    ensures QuietStore(StoreOf(b))
  {
    BuiltWf(b, src);
    var s := StoreOf(b);
    forall pid | pid in s.patterns ensures QuietPattern(s.patterns[pid]) {
      assert Lookup(b, pid) == Find(s, pid);
      PatternQuiet(src, s.patterns[pid]);
    }
  }

  /** The first message with the identifier, with a value. */
  ghost predicate Defined(src: string, id: string, e: Entry) {
    Resolver.FirstDefinition(Parse(src).entries, false, id, e) && e.value.Some?
  }

  /** Parses a source and formats the value of one of its messages: None when the
      first message with the identifier has no value, or there is none. A source and
      arguments without isolation marks give a text in which the marks balance. */
  method GetMessage(src: string, num: Numerics, args: Args, id: string) returns (out: Option<string>)
    ensures out.Some? <==> exists e :: Defined(src, id, e)
    ensures out.Some? ==>
              exists e, b :: Defined(src, id, e) && Resolver.BundleOf(b, Parse(src).entries, num) &&
                             out.value == Format(b, args, e.value.value, ValueOf(false, id))
    ensures out.Some? && NoMarks(src) && (forall f :: MarkFree(num.show(f))) && BalancedArgs(num, args) ==>
              Balanced(out.value)
  {
    var res := Parser.ParseResource(src);
    var b := Resolver.NewBundle(res, num);
    BoundIsDefined(b, src, num, id);
    if id !in b.messages {
      return None;
    }
    var e := b.messages[id];
    if e.value.None? {
      return None;
    }
    var text := Resolver.Format(b, args, e.value.value, ValueOf(false, id));
    assert Defined(src, id, e);
    if NoMarks(src) && (forall f :: MarkFree(num.show(f))) && BalancedArgs(num, args) {
      MessageBalanced(b, src, num, args, id, e);
    }
    return Some(text);
  }

  /** What the bundle of a source holds is what the source defines. */
  lemma {:induction false} BoundIsDefined(b: Bundle, src: string, num: Numerics, id: string)
    requires Resolver.BundleOf(b, Parse(src).entries, num)
    ensures forall e :: Defined(src, id, e) <==> id in b.messages && b.messages[id] == e && e.value.Some?
  {
    var es := Parse(src).entries;
    forall e ensures Resolver.FirstDefinition(es, false, id, e) <==> id in b.messages && b.messages[id] == e {
      assert id in b.messages <==> id in Table(b, false);
      if Resolver.FirstDefinition(es, false, id, e) {
        var k :| Resolver.FirstAt(es, false, id, e, k);
        assert e in es && Resolver.Defines(es, false, id);
        var j :| Resolver.FirstAt(es, false, id, b.messages[id], j);
      }
    }
  }

  lemma {:induction false} BundleIsBuilt(b: Bundle, src: string, num: Numerics)
    requires Resolver.BundleOf(b, Parse(src).entries, num)
    ensures BuiltFrom(b, src)
  {
    forall term, id | id in Table(b, term)
      ensures Table(b, term)[id] in Parse(src).entries && Table(b, term)[id].term == term
    {
      var k :| Resolver.FirstAt(Parse(src).entries, term, id, Table(b, term)[id], k);
    }
  }

  /** A message of a source without isolation marks renders balanced. */
  lemma {:induction false} MessageBalanced(b: Bundle, src: string, num: Numerics, args: Args, id: string, e: Entry)
    requires Resolver.BundleOf(b, Parse(src).entries, num) && Defined(src, id, e)
    requires NoMarks(src) && (forall f :: MarkFree(num.show(f))) && BalancedArgs(num, args)
    ensures Balanced(Format(b, args, e.value.value, ValueOf(false, id)))
  {
    BundleIsBuilt(b, src, num);
    BoundIsDefined(b, src, num, id);
    BuiltQuiet(b, src);
    assert id in Table(b, false) && Lookup(b, ValueOf(false, id)) == Some(e.value.value);
    BuiltWf(b, src);
    PatternQuiet(src, e.value.value);
    FormatBalanced(b, args, e.value.value, ValueOf(false, id));
  }
}
