/** Unicode language identifiers: parsing, canonical text, and when the one undoes
    the other. */
module LangIds {
  import opened Options
  import opened Chars

  /** An empty language is und; empty script and region are absent; variants are
      sorted and without duplicates. */
  datatype LangID = LangID(language: string, script: string, region: string, variants: seq<string>)

  const EMPTY: LangID := LangID("", "", "", [])

  function LowerChar(c: char): char { if 'A' <= c <= 'Z' then (c as int + 32) as char else c }

  function UpperChar(c: char): char { if 'a' <= c <= 'z' then (c as int - 32) as char else c }

  function Lower(s: string): (t: string)
    ensures |t| == |s| && forall k | 0 <= k < |s| :: t[k] == LowerChar(s[k])
  {
    seq(|s|, k requires 0 <= k < |s| => LowerChar(s[k]))
  }

  function Upper(s: string): (t: string)
    ensures |t| == |s| && forall k | 0 <= k < |s| :: t[k] == UpperChar(s[k])
  {
    seq(|s|, k requires 0 <= k < |s| => UpperChar(s[k]))
  }

  // ----- subtags -----

  predicate IsLanguage(s: string) { 2 <= |s| <= 8 && |s| != 4 && All(s, IsAlpha) }

  predicate IsScript(s: string) { |s| == 4 && All(s, IsAlpha) }

  predicate IsRegion(s: string) { (|s| == 2 && All(s, IsAlpha)) || (|s| == 3 && All(s, IsDigit)) }

  predicate IsAscii(c: char) { c < '\U{80}' }

  /** Looser than the Unicode grammar for four characters: it turns away only a
      subtag that neither starts with a digit nor is alphanumeric after its first
      character. */
  predicate IsVariant(s: string) {
    && 4 <= |s| <= 8
    && All(s, IsAscii)
    && (|s| >= 5 ==> All(s, IsAlnum))
    && (|s| == 4 && !IsDigit(s[0]) ==> All(s[1..], IsAlnum))
  }

  function LanguageOf(s: string): string { if Lower(s) == "und" then "" else Lower(s) }

  function ScriptOf(s: string): string
    requires |s| > 0
  {
    Upper(s[..1]) + Lower(s[1..])
  }

  function RegionOf(s: string): string { if |s| == 2 then Upper(s) else s }

  predicate IsSeparator(c: char) { c == '-' || c == '_' }

  /** Cut at '-' and '_', keeping empty subtags. */
  function Split(s: string): (tags: seq<string>)
    ensures |tags| >= 1
    ensures forall k | 0 <= k < |tags| :: Solid(tags[k])
    decreases |s|
  {
    if s == "" then [""]
    else
      var rest := Split(s[1..]);
      if IsSeparator(s[0]) then [""] + rest else [[s[0]] + rest[0]] + rest[1..]
  }

  /** Without a separator. */
  predicate Solid(s: string) { forall k | 0 <= k < |s| :: !IsSeparator(s[k]) }

  // ----- sorted variants -----

  /** Character by character, a prefix first. */
  predicate Less(a: string, b: string) {
    if b == "" then false
    else if a == "" then true
    else if a[0] != b[0] then a[0] < b[0]
    else Less(a[1..], b[1..])
  }

  lemma {:induction false} LessTransitive(a: string, b: string, c: string)
    requires Less(a, b) && Less(b, c)
    ensures Less(a, c)
    decreases |a|
  {
    if a != "" && a[0] == b[0] && b[0] == c[0] {
      LessTransitive(a[1..], b[1..], c[1..]);
    }
  }

  lemma {:induction false} LessTotal(a: string, b: string)
    ensures a == b || Less(a, b) || Less(b, a)
    ensures !(Less(a, b) && Less(b, a)) && !Less(a, a)
    decreases |a|
  {
    if a != "" && b != "" && a[0] == b[0] {
      LessTotal(a[1..], b[1..]);
      assert a == [a[0]] + a[1..] && b == [b[0]] + b[1..];
    }
    if a != "" {
      LessTotal(a[1..], a[1..]);
    }
  }

  ghost predicate Sorted(vs: seq<string>) { forall j, k | 0 <= j < k < |vs| :: Less(vs[j], vs[k]) }

  /** Insertion into a sorted list without duplicates. */
  function Insert(v: string, vs: seq<string>): seq<string> {
    if vs == [] then [v]
    else if v == vs[0] then vs
    else if Less(v, vs[0]) then [v] + vs
    else [vs[0]] + Insert(v, vs[1..])
  }

  /** Sorting and dropping duplicates. */
  function SortUnique(vs: seq<string>): seq<string> {
    if vs == [] then [] else Insert(vs[0], SortUnique(vs[1..]))
  }

  lemma {:induction false} InsertSorted(v: string, vs: seq<string>)
    requires Sorted(vs)
    ensures Sorted(Insert(v, vs)) && forall x :: x in Insert(v, vs) <==> x == v || x in vs
    decreases vs
  {
    if vs != [] && v != vs[0] {
      if Less(v, vs[0]) {
        forall k | 0 < k < |vs| ensures Less(v, vs[k]) {
          LessTransitive(v, vs[0], vs[k]);
        }
      } else {
        LessTotal(v, vs[0]);
        InsertSorted(v, vs[1..]);
        var rest := Insert(v, vs[1..]);
        forall k | 0 <= k < |rest| ensures Less(vs[0], rest[k]) {
          assert rest[k] in rest;
          if rest[k] != v {
            var m :| 0 <= m < |vs[1..]| && vs[1..][m] == rest[k];
            assert vs[1 + m] == rest[k];
          }
        }
        assert forall x :: x in vs <==> x == vs[0] || x in vs[1..];
      }
    }
  }

  /** The sorted list holds the same variants, each once. */
  lemma {:induction false} SortUniqueSorts(vs: seq<string>)
    ensures Sorted(SortUnique(vs)) && forall x :: x in SortUnique(vs) <==> x in vs
    decreases vs
  {
    if vs != [] {
      SortUniqueSorts(vs[1..]);
      InsertSorted(vs[0], SortUnique(vs[1..]));
    }
  }

  /** Sorting what is sorted changes nothing. */
  lemma {:induction false} SortUniqueFixed(vs: seq<string>)
    requires Sorted(vs)
    ensures SortUnique(vs) == vs
    decreases vs
  {
    if vs != [] {
      SortUniqueFixed(vs[1..]);
      if |vs| > 1 {
        assert vs[1..][0] == vs[1];
        LessTotal(vs[0], vs[1]);
      }
    }
  }

  // ----- parsing -----

  /** One subtag after the language: what it adds, and the position after it
      (1 before the script, 2 before the region, 3 among the variants). */
  function Take(id: LangID, position: nat, tag: string): Option<(LangID, nat)> {
    if position == 1 && IsScript(tag) then Some((id.(script := ScriptOf(tag)), 2))
    else if position <= 2 && IsRegion(tag) then Some((id.(region := RegionOf(tag)), 3))
    else if IsVariant(tag) then Some((id.(variants := id.variants + [Lower(tag)]), 3))
    else None
  }

  function TakeAll(id: LangID, position: nat, tags: seq<string>): Option<LangID>
    decreases tags
  {
    if tags == [] then Some(id)
    else
      match Take(id, position, tags[0])
      case None => None
      case Some((id', p)) => TakeAll(id', p, tags[1..])
  }

  function Finish(id: Option<LangID>): Option<LangID> {
    if id.None? then None else Some(id.value.(variants := SortUnique(id.value.variants)))
  }

  function ParseTags(tags: seq<string>): Option<LangID>
    requires tags != []
  {
    if !IsLanguage(tags[0]) then None
    else Finish(TakeAll(EMPTY.(language := LanguageOf(tags[0])), 1, tags[1..]))
  }

  function Parse(s: string): Option<LangID> { ParseTags(Split(s)) }

  // ----- what is accepted -----

  predicate AllVariants(tags: seq<string>) { forall k | 0 <= k < |tags| :: IsVariant(tags[k]) }

  /** At most one script, then at most one region, then variants: the region stands
      before r, and the script before it. */
  predicate Ordered(tags: seq<string>, s: nat, r: nat) {
    && s <= 1 && s <= r <= s + 1 && r <= |tags|
    && (s == 1 ==> IsScript(tags[0]))
    && (r == s + 1 ==> IsRegion(tags[s]))
    && AllVariants(tags[r..])
  }

  /** The grammar: a language, an optional script, an optional region, variants. */
  ghost predicate Grammatical(tags: seq<string>) {
    tags != [] && IsLanguage(tags[0]) && exists s, r :: Ordered(tags[1..], s, r)
  }

  lemma {:induction false} TakesVariants(id: LangID, tags: seq<string>)
    ensures TakeAll(id, 3, tags).Some? <==> AllVariants(tags)
    decreases tags
  {
    if tags != [] {
      assert AllVariants(tags) <==> IsVariant(tags[0]) && AllVariants(tags[1..]);
      if IsVariant(tags[0]) {
        TakesVariants(Take(id, 3, tags[0]).value.0, tags[1..]);
      }
    }
  }

  lemma {:induction false} TakesRegion(id: LangID, position: nat, tags: seq<string>)
    requires 1 <= position <= 2 && (position == 1 && tags != [] ==> !IsScript(tags[0]))
    ensures TakeAll(id, position, tags).Some? <==>
            AllVariants(tags) || (tags != [] && IsRegion(tags[0]) && AllVariants(tags[1..]))
  {
    if tags != [] {
      assert AllVariants(tags) <==> IsVariant(tags[0]) && AllVariants(tags[1..]);
      var next := Take(id, position, tags[0]);
      if next.Some? {
        TakesVariants(next.value.0, tags[1..]);
      }
    }
  }

  lemma {:induction false} TakesOrdered(id: LangID, tags: seq<string>)
    ensures TakeAll(id, 1, tags).Some? <==> exists s, r :: Ordered(tags, s, r)
  {
    assert tags[0..] == tags;
    if tags != [] && IsScript(tags[0]) {
      TakesRegion(id.(script := ScriptOf(tags[0])), 2, tags[1..]);
      ScriptOrdered(tags);
    } else {
      TakesRegion(id, 1, tags);
      PlainOrdered(tags);
    }
  }

  lemma {:induction false} PlainOrdered(tags: seq<string>)
    requires tags != [] ==> !IsScript(tags[0])
    ensures (exists s, r :: Ordered(tags, s, r)) <==>
            AllVariants(tags) || (tags != [] && IsRegion(tags[0]) && AllVariants(tags[1..]))
  {
    assert tags[0..] == tags;
    assert AllVariants(tags) ==> Ordered(tags, 0, 0);
    assert tags != [] && IsRegion(tags[0]) && AllVariants(tags[1..]) ==> Ordered(tags, 0, 1);
  }

  /** A four-letter subtag that could be a script or a variant is taken as a script,
      which bars nothing that may follow the variant. */
  lemma {:induction false} ScriptOrdered(tags: seq<string>)
    requires tags != [] && IsScript(tags[0])
    ensures (exists s, r :: Ordered(tags, s, r)) <==>
            AllVariants(tags[1..]) || (|tags| > 1 && IsRegion(tags[1]) && AllVariants(tags[2..]))
  {
    var rest := tags[1..];
    assert tags[0..] == tags && (|tags| > 1 ==> rest[1..] == tags[2..]);
    assert AllVariants(rest) ==> Ordered(tags, 1, 1);
    assert |tags| > 1 && IsRegion(tags[1]) && AllVariants(tags[2..]) ==> Ordered(tags, 1, 2);
    assert AllVariants(tags) ==> AllVariants(rest);
  }

  /** A text parses if and only if its subtags follow the grammar. */
  lemma {:induction false} ParsesGrammatical(s: string)
    ensures Parse(s).Some? <==> Grammatical(Split(s))
  {
    var tags := Split(s);
    TakesOrdered(EMPTY.(language := LanguageOf(tags[0])), tags[1..]);
  }

  /** The parser as the program runs it. */
  method ParseLangID(s: string) returns (r: Option<LangID>)
    ensures r == Parse(s)
  {
    var tags := Split(s);
    if !IsLanguage(tags[0]) {
      return None;
    }
    var id := EMPTY.(language := LanguageOf(tags[0]));
    var position := 1;
    var k := 1;
    while k < |tags|
      invariant 1 <= k <= |tags|
      invariant TakeAll(id, position, tags[k..]) == TakeAll(EMPTY.(language := LanguageOf(tags[0])), 1, tags[1..])
    {
      var tag := tags[k];
      assert tags[k..][0] == tag && tags[k..][1..] == tags[k + 1..];
      if position == 1 && IsScript(tag) {
        id, position := id.(script := ScriptOf(tag)), 2;
      } else if position <= 2 && IsRegion(tag) {
        id, position := id.(region := RegionOf(tag)), 3;
      } else if IsVariant(tag) {
        id, position := id.(variants := id.variants + [Lower(tag)]), 3;
      } else {
        return None;
      }
      k := k + 1;
    }
    if |id.variants| > 0 {
      id := id.(variants := SortUnique(id.variants));
    }
    return Some(id);
  }

  // ----- canonical text -----

  function Language(id: LangID): string { if id.language == "" then "und" else id.language }

  function Parts(id: LangID): seq<string> {
    [Language(id)] + (if id.script == "" then [] else [id.script]) +
    (if id.region == "" then [] else [id.region]) + id.variants
  }

  function Join(parts: seq<string>): string
    requires parts != []
  {
    if |parts| == 1 then parts[0] else parts[0] + "-" + Join(parts[1..])
  }

  function TextOf(id: LangID): string { Join(Parts(id)) }

  lemma {:induction false} SplitSolid(a: string, rest: string)
    requires Solid(a)
    ensures Split(a) == [a]
    ensures Split(a + "-" + rest) == [a] + Split(rest)
    decreases |a|
  {
    if a == "" {
      assert ("-" + rest)[1..] == rest;
      assert a + "-" + rest == "-" + rest;
    } else {
      SplitSolid(a[1..], rest);
      assert (a + "-" + rest)[1..] == a[1..] + "-" + rest;
      assert a == [a[0]] + a[1..];
    }
  }

  /** Splitting undoes joining. */
  lemma {:induction false} SplitJoin(parts: seq<string>)
    requires parts != [] && forall k | 0 <= k < |parts| :: Solid(parts[k])
    ensures Split(Join(parts)) == parts
    decreases parts
  {
    if |parts| == 1 {
      SplitSolid(parts[0], "");
    } else {
      SplitJoin(parts[1..]);
      SplitSolid(parts[0], Join(parts[1..]));
    }
  }

  // ----- the round trip -----

  /** The form of a parsed identifier: every subtag in canonical case. */
  ghost predicate Canonical(id: LangID) {
    && (id.language == "" || (IsLanguage(id.language) && Lower(id.language) == id.language && id.language != "und"))
    && (id.script == "" || (IsScript(id.script) && ScriptOf(id.script) == id.script))
    && (id.region == "" || (IsRegion(id.region) && RegionOf(id.region) == id.region))
    && (forall k | 0 <= k < |id.variants| :: CanonicalVariant(id.variants[k]))
  }

  ghost predicate CanonicalVariant(v: string) { IsVariant(v) && Lower(v) == v && Solid(v) }

  lemma {:induction false} LowerSubtag(s: string)
    ensures Lower(Lower(s)) == Lower(s)
    ensures All(s, IsAlpha) ==> All(Lower(s), IsAlpha)
    ensures Solid(s) ==> Solid(Lower(s))
    ensures IsVariant(s) ==> IsVariant(Lower(s))
  {
    if IsVariant(s) && |s| == 4 && !IsDigit(s[0]) {
      forall k | 0 <= k < 3 ensures IsAlnum(Lower(s)[1..][k]) {
        assert IsAlnum(s[1..][k]);
      }
    }
  }

  lemma {:induction false} ScriptSubtag(s: string)
    requires IsScript(s)
    ensures IsScript(ScriptOf(s)) && ScriptOf(ScriptOf(s)) == ScriptOf(s)
  {
    var t := ScriptOf(s);
    assert forall k | 0 <= k < 4 :: t[k] == if k == 0 then UpperChar(s[0]) else LowerChar(s[k]);
    assert forall k | 0 <= k < 4 :: IsAlpha(s[k]);
    assert t[1..] == Lower(s[1..]);
    LowerSubtag(s[1..]);
  }

  lemma {:induction false} RegionSubtag(s: string)
    requires IsRegion(s)
    ensures IsRegion(RegionOf(s)) && RegionOf(RegionOf(s)) == RegionOf(s)
  {
    if |s| == 2 {
      assert forall k | 0 <= k < 2 :: IsAlpha(s[k]);
      assert Upper(Upper(s)) == Upper(s);
    }
  }

  lemma {:induction false} TakenCanonical(id: LangID, position: nat, tags: seq<string>)
    requires Canonical(id) && forall k | 0 <= k < |tags| :: Solid(tags[k])
    ensures TakeAll(id, position, tags).Some? ==> Canonical(TakeAll(id, position, tags).value)
    ensures TakeAll(id, position, tags).Some? ==> TakeAll(id, position, tags).value.language == id.language
    decreases tags
  {
    if tags != [] {
      LowerSubtag(tags[0]);
      if IsScript(tags[0]) {
        ScriptSubtag(tags[0]);
      }
      if IsRegion(tags[0]) {
        RegionSubtag(tags[0]);
      }
      var t := Take(id, position, tags[0]);
      if t.Some? {
        TakenCanonical(t.value.0, t.value.1, tags[1..]);
      }
    }
  }

  lemma {:induction false} ParsedCanonical(s: string)
    requires Parse(s).Some?
    ensures Canonical(Parse(s).value) && Sorted(Parse(s).value.variants)
  {
    var tags := Split(s);
    LowerSubtag(tags[0]);
    var start := EMPTY.(language := LanguageOf(tags[0]));
    TakenCanonical(start, 1, tags[1..]);
    var id := TakeAll(start, 1, tags[1..]).value;
    SortUniqueSorts(id.variants);
    forall k | 0 <= k < |SortUnique(id.variants)| ensures CanonicalVariant(SortUnique(id.variants)[k]) {
      assert SortUnique(id.variants)[k] in id.variants;
    }
  }

  lemma {:induction false} PartsSolid(id: LangID)
    requires Canonical(id)
    ensures forall k | 0 <= k < |Parts(id)| :: Solid(Parts(id)[k])
  {
    forall p | p in Parts(id) ensures Solid(p) {
      if p in id.variants {
        assert exists k :: 0 <= k < |id.variants| && id.variants[k] == p;
      }
    }
  }

  /** Canonical variants are read back as they are, unless the first of them is
      taken for a script. */
  lemma {:induction false} VariantsReadBack(id: LangID, position: nat, vs: seq<string>)
    requires forall k | 0 <= k < |vs| :: CanonicalVariant(vs[k])
    requires position == 1 && vs != [] ==> !IsScript(vs[0])
    ensures TakeAll(id, position, vs) == Some(id.(variants := id.variants + vs))
    decreases vs
  {
    if vs != [] {
      assert CanonicalVariant(vs[0]);
      VariantsReadBack(id.(variants := id.variants + [vs[0]]), 3, vs[1..]);
      assert id.variants + [vs[0]] + vs[1..] == id.variants + vs;
    } else {
      assert id.variants + vs == id.variants;
    }
  }

  /** The identifiers whose text reads differently: neither script nor region, and
      a first variant of four letters. */
  predicate ReadsAsScript(id: LangID) {
    id.script == "" && id.region == "" && id.variants != [] && IsScript(id.variants[0])
  }

  lemma {:induction false} TailReadBack(id: LangID)
    requires Canonical(id) && !ReadsAsScript(id)
    ensures TakeAll(EMPTY.(language := id.language), 1, Parts(id)[1..]) == Some(id)
  {
    var start := EMPTY.(language := id.language);
    var withScript := start.(script := id.script);
    var withRegion := withScript.(region := id.region);
    var p := if id.script == "" then 1 else 2;
    var q := if id.region == "" then p else 3;
    var afterScript := Optional(id.region) + id.variants;
    assert Parts(id)[1..] == Optional(id.script) + afterScript;
    if id.script != "" {
      TakeOne(start, 1, id.script, afterScript);
    }
    assert [] + afterScript == afterScript;
    assert TakeAll(start, 1, Optional(id.script) + afterScript) == TakeAll(withScript, p, afterScript);
    if id.region != "" {
      TakeOne(withScript, p, id.region, id.variants);
    }
    assert [] + id.variants == id.variants;
    assert TakeAll(withScript, p, afterScript) == TakeAll(withRegion, q, id.variants);
    VariantsReadBack(withRegion, q, id.variants);
    assert withRegion.variants + id.variants == id.variants;
  }

  function Optional(s: string): seq<string> { if s == "" then [] else [s] }

  lemma {:induction false} TakeOne(id: LangID, position: nat, tag: string, rest: seq<string>)
    requires Take(id, position, tag).Some?
    ensures TakeAll(id, position, [tag] + rest) ==
            TakeAll(Take(id, position, tag).value.0, Take(id, position, tag).value.1, rest)
  {
    assert ([tag] + rest)[1..] == rest;
  }

  /** Parsing the canonical text of a parsed identifier gives the identifier back,
      if and only if its text does not read its first variant as a script. */
  lemma {:induction false} RoundTrip(s: string)
    requires Parse(s).Some?
    ensures var id := Parse(s).value;
            Parse(TextOf(id)) == Some(id) <==> !ReadsAsScript(id)
  {
    var id := Parse(s).value;
    ParsedCanonical(s);
    PartsSolid(id);
    SplitJoin(Parts(id));
    LanguageReadBack(id);
    if !ReadsAsScript(id) {
      TailReadBack(id);
      SortUniqueFixed(id.variants);
    } else {
      var tail := Parts(id)[1..];
      assert tail == id.variants;
      ScriptStays(EMPTY.(language := id.language, script := ScriptOf(tail[0])), 2, tail[1..]);
    }
  }

  lemma {:induction false} LanguageReadBack(id: LangID)
    requires Canonical(id)
    ensures IsLanguage(Language(id)) && LanguageOf(Language(id)) == id.language
  {
    assert Lower("und") == "und";
  }

  lemma {:induction false} ScriptStays(id: LangID, position: nat, tags: seq<string>)
    requires position >= 2 && id.script != ""
    ensures TakeAll(id, position, tags).Some? ==> TakeAll(id, position, tags).value.script == id.script
    decreases tags
  {
    if tags != [] {
      var t := Take(id, position, tags[0]);
      if t.Some? {
        ScriptStays(t.value.0, t.value.1, tags[1..]);
      }
    }
  }

  const TWO_VARIANTS: seq<string> := ["en", "abcde", "abcd"]

  /** An identifier that does read differently: en with the variants abcd, abcde. */
  lemma {:induction false} RoundTripFails()
    ensures exists s :: Parse(s).Some? && Parse(TextOf(Parse(s).value)) != Parse(s)
  {
    var s := Join(TWO_VARIANTS);
    ParsesTwoVariants();
    assert ReadsAsScript(Parse(s).value) by {
      assert IsScript("abcd");
    }
    RoundTrip(s);
  }

  lemma {:induction false} ParsesTwoVariants()
    ensures Parse(Join(TWO_VARIANTS)) == Some(LangID("en", "", "", ["abcd", "abcde"]))
  {
    SplitJoin(TWO_VARIANTS);
    assert Lower("en") == "en";
    assert TWO_VARIANTS[1..] == ["abcde", "abcd"];
    TwoVariants();
    TwoSorted();
  }

  lemma {:induction false} TwoVariants()
    ensures TakeAll(EMPTY.(language := "en"), 1, ["abcde", "abcd"]) == Some(LangID("en", "", "", ["abcde", "abcd"]))
  {
    var start := EMPTY.(language := "en");
    assert Lower("abcde") == "abcde" && Lower("abcd") == "abcd";
    assert IsVariant("abcde") && !IsScript("abcde") && IsVariant("abcd");
    var tags := ["abcde", "abcd"];
    assert tags[1..] == ["abcd"] && tags[1..][1..] == [];
    assert [] + ["abcde"] == ["abcde"] && ["abcde"] + ["abcd"] == tags;
    assert Take(start, 1, "abcde") == Some((start.(variants := ["abcde"]), 3));
    assert Take(start.(variants := ["abcde"]), 3, "abcd") == Some((start.(variants := tags), 3));
  }

  lemma {:induction false} TwoSorted()
    ensures SortUnique(["abcde", "abcd"]) == ["abcd", "abcde"]
  {
    var vs := ["abcde", "abcd"];
    LessPrefix();
    assert vs[1..] == ["abcd"] && ["abcd"][1..] == [];
    assert SortUnique(["abcd"]) == ["abcd"];
    assert Insert("abcde", ["abcd"]) == ["abcd"] + Insert("abcde", []);
  }

  lemma {:induction false} LessPrefix()
    ensures Less("abcd", "abcde") && !Less("abcde", "abcd")
  {
    var a, b := "abcd", "abcde";
    assert a[1..] == "bcd" && b[1..] == "bcde" && "bcd"[1..] == "cd" && "bcde"[1..] == "cde";
    assert "cd"[1..] == "d" && "cde"[1..] == "de" && "d"[1..] == "" && "de"[1..] == "e";
    assert Less("", "e") && Less("d", "de") && Less("cd", "cde") && Less("bcd", "bcde");
    LessTotal(a, b);
  }
}
