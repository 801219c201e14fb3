/** String literals: the escapes the parser accepts, and how they are decoded. */
module Literal {
  import opened Chars

  const REPLACEMENT: char := '\U{FFFD}'

  predicate ValidRune(cp: nat) { cp <= 0x10FFFF && (cp < 0xD800 || cp > 0xDFFF) }

  function HexDigit(c: char): (d: nat)
    requires IsHex(c)
    ensures d < 16
  {
    if IsDigit(c) then c as int - '0' as int
    else if 'a' <= c <= 'f' then c as int - 'a' as int + 10
    else c as int - 'A' as int + 10
  }

  function HexValue(s: string): nat
    requires All(s, IsHex)
  {
    if s == "" then 0 else HexValue(s[..|s| - 1]) * 16 + HexDigit(s[|s| - 1])
  }

  /** The code point spelled by hexadecimal digits, U+FFFD when there is none. */
  function Rune(hex: string): char {
    if hex != "" && All(hex, IsHex) && ValidRune(HexValue(hex)) then HexValue(hex) as char else REPLACEMENT
  }

  /** The character decoded at position i, and how far decoding moves. */
  function Decoded(raw: string, i: nat): (r: (char, nat))
    requires i < |raw|
    ensures r.1 >= 1
  {
    if raw[i] != '\\' then (raw[i], 1)
    else if i + 1 >= |raw| then (REPLACEMENT, 1)
    else if raw[i + 1] == '\\' || raw[i + 1] == '"' then (raw[i + 1], 2)
    else if raw[i + 1] == 'u' || raw[i + 1] == 'U' then
      var length := if raw[i + 1] == 'U' then 6 else 4;
      (if i + 2 + length <= |raw| then Rune(raw[i + 2..i + 2 + length]) else REPLACEMENT, 2 + length)
    else (REPLACEMENT, 2)
  }

  /** Decoding from position i on. */
  function UnescapeFrom(raw: string, i: nat): string
    decreases |raw| - i
  {
    if i >= |raw| then "" else [Decoded(raw, i).0] + UnescapeFrom(raw, i + Decoded(raw, i).1)
  }

  function Unescape(raw: string): string { UnescapeFrom(raw, 0) }

  /** Without a backslash there is nothing to decode. */
  lemma {:induction false} UnescapePlain(raw: string, i: nat)
    requires i <= |raw| && '\\' !in raw
    ensures UnescapeFrom(raw, i) == raw[i..]
    decreases |raw| - i
  {
    if i < |raw| {
      UnescapePlain(raw, i + 1);
    }
  }

  /** The decoder as the program runs it: one index, one growing output. */
  method UnescapeLoop(raw: string) returns (out: string)
    ensures out == Unescape(raw)
  {
    if '\\' !in raw {
      UnescapePlain(raw, 0);
      return raw;
    }
    out := "";
    var i := 0;
    while i < |raw|
      invariant 0 <= i
      invariant out + UnescapeFrom(raw, i) == Unescape(raw)
      decreases |raw| - i
    {
      var c := raw[i];
      var width := 1;
      if c == '\\' {
        c, width := Escaped(raw, i);
      }
      out := out + [c];
      i := i + width;
    }
  }

  /** The escape at i: its character, and how far to move on. */
  method Escaped(raw: string, i: nat) returns (c: char, width: nat)
    requires i < |raw| && raw[i] == '\\'
    ensures (c, width) == Decoded(raw, i)
  {
    if i + 1 >= |raw| {
      return REPLACEMENT, 1;
    }
    var kind := raw[i + 1];
    if kind == '\\' || kind == '"' {
      return kind, 2;
    }
    if kind == 'u' || kind == 'U' {
      var length := if kind == 'U' then 6 else 4;
      c := REPLACEMENT;
      if i + 2 + length <= |raw| {
        c := Rune(raw[i + 2..i + 2 + length]);
      }
      return c, 2 + length;
    }
    return REPLACEMENT, 2;
  }

  // ----- the literal grammar, independent of scanner and decoder -----

  /** One unit of a string literal's content. */
  datatype Unit =
    | Plain(c: char)
    | Backslash
    | Quote
    | Brace
    | Short(hex: string)
    | Long(hex: string)
  {
    predicate Valid() {
      match this
      case Plain(c) => c != '\\' && c != '"' && c != '\n'
      case Short(hex) => |hex| == 4 && All(hex, IsHex)
      case Long(hex) => |hex| == 6 && All(hex, IsHex)
      case _ => true
    }

    function Spelling(): (s: string)
      ensures |s| > 0
    {
      match this
      case Plain(c) => [c]
      case Backslash => "\\\\"
      case Quote => "\\\""
      case Brace => "\\{"
      case Short(hex) => "\\u" + hex
      case Long(hex) => "\\U" + hex
    }

    /** What the unit stands for; an escaped brace is not supported. */
    function Meaning(): char {
      match this
      case Plain(c) => c
      case Backslash => '\\'
      case Quote => '"'
      case Brace => REPLACEMENT
      case Short(hex) => Rune(hex)
      case Long(hex) => Rune(hex)
    }
  }

  function Spell(us: seq<Unit>): string {
    if us == [] then "" else us[0].Spelling() + Spell(us[1..])
  }

  function Meanings(us: seq<Unit>): (s: string)
    ensures |s| == |us| && forall k | 0 <= k < |us| :: s[k] == us[k].Meaning()
  {
    seq(|us|, k requires 0 <= k < |us| => us[k].Meaning())
  }

  ghost predicate Units(us: seq<Unit>) { forall k | 0 <= k < |us| :: us[k].Valid() }

  /** On content made of valid units the decoder never meets a truncated
      escape: it reads unit by unit and writes each unit's meaning. */
  lemma {:induction false} DecodesUnitByUnit(raw: string, i: nat, us: seq<Unit>)
    requires i <= |raw| && Units(us) && raw[i..] == Spell(us)
    ensures UnescapeFrom(raw, i) == Meanings(us)
    decreases |us|
  {
    if us == [] {
      assert i == |raw|;
    } else {
      DecodesFirst(raw, i, us[0], Spell(us[1..]));
      DecodesUnitByUnit(raw, i + |us[0].Spelling()|, us[1..]);
      MeaningsCons(us);
    }
  }

  lemma {:induction false} MeaningsCons(us: seq<Unit>)
    requires us != []
    ensures Meanings(us) == [us[0].Meaning()] + Meanings(us[1..])
  {
  }

  lemma {:induction false} DecodesFirst(raw: string, i: nat, u: Unit, rest: string)
    requires i <= |raw| && u.Valid() && raw[i..] == u.Spelling() + rest
    ensures
      var j := i + |u.Spelling()|;
      j <= |raw| && raw[j..] == rest && UnescapeFrom(raw, i) == [u.Meaning()] + UnescapeFrom(raw, j)
  {
    Suffix(raw, i, u.Spelling(), rest);
    DecodesUnit(raw, i, u);
  }

  /** Splitting off the front of a suffix. */
  lemma {:induction false} Suffix(s: string, i: nat, a: string, b: string)
    requires i <= |s| && s[i..] == a + b
    ensures i + |a| <= |s| && s[i..i + |a|] == a && s[i + |a|..] == b
  {
    assert s[i..][..|a|] == a && s[i..][|a|..] == b;
    assert s[i..][..|a|] == s[i..i + |a|];
    assert s[i..][|a|..] == s[i + |a|..];
  }

  lemma {:induction false} DecodesUnit(raw: string, i: nat, u: Unit)
    requires u.Valid() && i + |u.Spelling()| <= |raw| && raw[i..i + |u.Spelling()|] == u.Spelling()
    ensures Decoded(raw, i) == (u.Meaning(), |u.Spelling()|)
  {
    var s := u.Spelling();
    assert forall k | i <= k < i + |s| :: raw[k] == s[k - i];
    if u.Short? || u.Long? {
      assert raw[i + 2..i + |s|] == u.hex;
    }
  }

  // ----- escaping -----

  function EscapeUnit(c: char): (u: Unit)
    ensures u.Valid() && u.Meaning() == c
  {
    if c == '\\' then Backslash
    else if c == '"' then Quote
    else if c == '\n' then
      NewlineHex();
      Short("000A")
    else Plain(c)
  }

  lemma {:induction false} NewlineHex()
    ensures All("000A", IsHex) && Rune("000A") == '\n'
  {
    var h := "000A";
    assert h[..3] == "000" && h[..3][..2] == "00" && "00"[..1] == "0" && "0"[..0] == "";
    assert HexValue("0") == 0;
    assert HexValue("00") == 0;
    assert HexValue("000") == 0;
    assert HexValue(h) == 10;
  }

  function EscapeUnits(text: string): (us: seq<Unit>)
    ensures |us| == |text|
    ensures forall k | 0 <= k < |us| :: us[k] == EscapeUnit(text[k])
  {
    seq(|text|, k requires 0 <= k < |text| => EscapeUnit(text[k]))
  }

  /** A literal content standing for text: backslash and quote escaped, newline
      as a code point. */
  function Escape(text: string): string { Spell(EscapeUnits(text)) }

  /** Decoding undoes escaping, for every text. */
  lemma {:induction false} UnescapeEscape(text: string)
    ensures Unescape(Escape(text)) == text
  {
    var us := EscapeUnits(text);
    assert Units(us);
    assert Escape(text)[0..] == Spell(us);
    DecodesUnitByUnit(Escape(text), 0, us);
    assert Meanings(us) == text;
  }

  /** A replacement character in the output comes from a unit that stands for
      one: itself, an escaped brace, or a code point escape that spells U+FFFD
      or no code point at all. */
  lemma {:induction false} ReplacementOrigin(us: seq<Unit>, k: nat)
    requires Units(us) && k < |Unescape(Spell(us))| && Unescape(Spell(us))[k] == REPLACEMENT
    ensures k < |us|
    ensures
      || us[k] == Plain(REPLACEMENT)
      || us[k].Brace?
      || ((us[k].Short? || us[k].Long?) && All(us[k].hex, IsHex) &&
          (HexValue(us[k].hex) == 0xFFFD || !ValidRune(HexValue(us[k].hex))))
  {
    assert Spell(us)[0..] == Spell(us);
    DecodesUnitByUnit(Spell(us), 0, us);
    assert us[k].Meaning() == REPLACEMENT && us[k].Valid();
  }
}
