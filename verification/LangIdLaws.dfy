/** Which texts parse, and which subtag each field of the parsed identifier is, in which
    case. */
module LangIdLaws {
  import opened Options
  import opened Chars
  import opened LangIds

  // ----- subtags -----

  /** s is the subtags with one hyphen or underscore between each two. */
  ghost predicate Glued(s: string, tags: seq<string>)
    decreases tags
  {
    tags != [] &&
    if |tags| == 1 then s == tags[0]
    else exists c: char, rest ::
      (c == '-' || c == '_') && s == tags[0] + [c] + rest && Glued(rest, tags[1..])
  }

  lemma {:induction false} SplitGlues(s: string)
    ensures Glued(s, Split(s)) && forall k | 0 <= k < |Split(s)| :: '-' !in Split(s)[k] && '_' !in Split(s)[k]
    decreases |s|
  {
    var tags := Split(s);
    if s != "" {
      SplitGlues(s[1..]);
      var rest := Split(s[1..]);
      if IsSeparator(s[0]) {
        assert tags[1..] == rest && s == "" + [s[0]] + s[1..];
      } else {
        GluedLonger(s[1..], rest, s[0]);
        assert s == [s[0]] + s[1..];
      }
    }
  }

  lemma {:induction false} GluedLonger(s: string, tags: seq<string>, c: char)
    requires Glued(s, tags)
    ensures Glued([c] + s, [[c] + tags[0]] + tags[1..])
  {
    var more := [[c] + tags[0]] + tags[1..];
    if |tags| > 1 {
      var d: char, rest :| (d == '-' || d == '_') && s == tags[0] + [d] + rest && Glued(rest, tags[1..]);
      assert more[1..] == tags[1..] && [c] + s == more[0] + [d] + rest;
    }
  }

  /** The same letter or digit, its case aside. */
  predicate SameLetter(c: char, d: char) {
    || c == d
    || ('A' <= c <= 'Z' && d as int == c as int + 32)
    || ('A' <= d <= 'Z' && c as int == d as int + 32)
  }

  predicate IsUpper(c: char) { 'A' <= c <= 'Z' }

  predicate IsLower(c: char) { 'a' <= c <= 'z' }

  /** t is s with no capital letter. */
  predicate Lowered(s: string, t: string) {
    |t| == |s| && forall k | 0 <= k < |s| :: SameLetter(s[k], t[k]) && !IsUpper(t[k])
  }

  /** t is s with no small letter. */
  predicate Raised(s: string, t: string) {
    |t| == |s| && forall k | 0 <= k < |s| :: SameLetter(s[k], t[k]) && !IsLower(t[k])
  }

  predicate Titled(s: string, t: string) {
    s != "" && |t| == |s| && Raised(s[..1], t[..1]) && Lowered(s[1..], t[1..])
  }

  // ----- the fields -----

  /** After the language: a script when the first subtag is one, then a region when the
      next is one, then the variants. */
  function ScriptEnd(rest: seq<string>): nat { if rest != [] && |rest[0]| == 4 && All(rest[0], IsAlpha) then 1 else 0 }

  function RegionEnd(rest: seq<string>): (r: nat)
    ensures ScriptEnd(rest) <= r <= |rest|
  {
    var s := ScriptEnd(rest);
    if s < |rest| && ((|rest[s]| == 2 && All(rest[s], IsAlpha)) || (|rest[s]| == 3 && All(rest[s], IsDigit))) then s + 1
    else s
  }

  ghost predicate Fields(tags: seq<string>, id: LangID) {
    tags != [] &&
    var rest := tags[1..];
    var s, r := ScriptEnd(rest), RegionEnd(rest);
    && (if Lowered(tags[0], "und") then id.language == "" else Lowered(tags[0], id.language))
    && (if s == 1 then Titled(rest[0], id.script) else id.script == "")
    && (if r > s then Raised(rest[s], id.region) else id.region == "")
    && VariantsOf(rest[r..], id.variants)
  }

  /** The variants are those subtags in small letters, sorted and each once. */
  ghost predicate VariantsOf(tags: seq<string>, variants: seq<string>) {
    && Sorted(variants)
    && (forall v | v in variants :: exists k :: 0 <= k < |tags| && Lowered(tags[k], v))
    && (forall k | 0 <= k < |tags| :: exists v :: v in variants && Lowered(tags[k], v))
  }

  lemma {:induction false} LowerIs(s: string, t: string)
    ensures Lowered(s, t) <==> t == Lower(s)
  {
    if Lowered(s, t) {
      assert forall k | 0 <= k < |s| :: t[k] == Lower(s)[k];
    }
  }

  lemma {:induction false} UpperIs(s: string, t: string)
    ensures Raised(s, t) <==> t == Upper(s)
  {
    if Raised(s, t) {
      assert forall k | 0 <= k < |s| :: t[k] == Upper(s)[k];
    }
  }

  function LowerAll(tags: seq<string>): (r: seq<string>)
    ensures |r| == |tags| && forall k | 0 <= k < |tags| :: r[k] == Lower(tags[k])
  {
    seq(|tags|, k requires 0 <= k < |tags| => Lower(tags[k]))
  }

  lemma {:induction false} VariantsTaken(id: LangID, tags: seq<string>)
    ensures TakeAll(id, 3, tags).Some? ==> TakeAll(id, 3, tags).value == id.(variants := id.variants + LowerAll(tags))
    decreases tags
  {
    if tags == [] {
      assert id.variants + [] == id.variants;
    } else if IsVariant(tags[0]) {
      VariantsTaken(id.(variants := id.variants + [Lower(tags[0])]), tags[1..]);
      LowerAllCons(tags);
      Regroup(id.variants, [Lower(tags[0])], LowerAll(tags[1..]));
    }
  }

  lemma {:induction false} Regroup<T>(a: seq<T>, b: seq<T>, c: seq<T>)
    ensures a + b + c == a + (b + c)
  {
  }

  /** From after the script on. */
  lemma {:induction false} RegionTaken(id: LangID, position: nat, tags: seq<string>)
    requires id.variants == [] && 1 <= position <= 2 && (position == 1 ==> tags == [] || !IsScript(tags[0]))
    requires TakeAll(id, position, tags).Some?
    ensures
      var out := TakeAll(id, position, tags).value;
      if tags != [] && IsRegion(tags[0])
      then out == id.(region := RegionOf(tags[0]), variants := LowerAll(tags[1..]))
      else out == id.(variants := LowerAll(tags))
  {
    if tags != [] {
      FirstTaken(id, position, tags);
    }
  }

  lemma {:induction false} FirstTaken(id: LangID, position: nat, tags: seq<string>)
    requires id.variants == [] && 1 <= position <= 2 && tags != [] && (position == 1 ==> !IsScript(tags[0]))
    requires TakeAll(id, position, tags).Some?
    ensures TakeAll(id, position, tags).value ==
            if IsRegion(tags[0]) then id.(region := RegionOf(tags[0]), variants := LowerAll(tags[1..]))
            else id.(variants := LowerAll(tags))
  {
    LowerAllCons(tags);
    if IsRegion(tags[0]) {
      FollowTaken(id.(region := RegionOf(tags[0])), tags[1..]);
    } else {
      VariantsTaken(id.(variants := [] + [Lower(tags[0])]), tags[1..]);
      assert [] + [Lower(tags[0])] == [Lower(tags[0])];
    }
  }

  lemma {:induction false} LowerAllCons(tags: seq<string>)
    requires tags != []
    ensures LowerAll(tags) == [Lower(tags[0])] + LowerAll(tags[1..])
  {
  }

  lemma {:induction false} FollowTaken(id: LangID, tags: seq<string>)
    requires id.variants == []
    ensures TakeAll(id, 3, tags).Some? ==> TakeAll(id, 3, tags).value == id.(variants := LowerAll(tags))
  {
    VariantsTaken(id, tags);
    assert [] + LowerAll(tags) == LowerAll(tags);
  }

  lemma {:induction false} FieldsTaken(id: LangID, tags: seq<string>)
    requires id.variants == [] && id.script == "" && id.region == "" && TakeAll(id, 1, tags).Some?
    ensures
      var s, r := ScriptEnd(tags), RegionEnd(tags);
      TakeAll(id, 1, tags).value ==
        id.(script := if s == 1 then ScriptOf(tags[0]) else "", region := if r > s then RegionOf(tags[s]) else "",
            variants := LowerAll(tags[r..]))
  {
    if ScriptEnd(tags) == 1 {
      RegionTaken(id.(script := ScriptOf(tags[0])), 2, tags[1..]);
      assert |tags| > 1 ==> tags[1..][1..] == tags[2..];
    } else {
      RegionTaken(id, 1, tags);
      assert tags[0..] == tags;
    }
  }

  lemma {:induction false} RegionCase(tag: string)
    requires IsRegion(tag)
    ensures Raised(tag, RegionOf(tag))
  {
    UpperIs(tag, RegionOf(tag));
    if |tag| == 3 {
      assert forall k | 0 <= k < 3 :: Upper(tag)[k] == tag[k];
    }
  }

  lemma {:induction false} ScriptCase(tag: string)
    requires IsScript(tag)
    ensures Titled(tag, ScriptOf(tag))
  {
    var t := ScriptOf(tag);
    assert t[..1] == Upper(tag[..1]) && t[1..] == Lower(tag[1..]);
    UpperIs(tag[..1], t[..1]);
    LowerIs(tag[1..], t[1..]);
  }

  lemma {:induction false} VariantsSorted(tags: seq<string>)
    ensures VariantsOf(tags, SortUnique(LowerAll(tags)))
  {
    var lower := LowerAll(tags);
    SortUniqueSorts(lower);
    forall k | 0 <= k < |tags| ensures Lowered(tags[k], lower[k]) && lower[k] in SortUnique(lower) {
      LowerIs(tags[k], lower[k]);
    }
    forall v | v in SortUnique(lower) ensures exists k :: 0 <= k < |tags| && Lowered(tags[k], v) {
      var k :| 0 <= k < |lower| && lower[k] == v;
      assert Lowered(tags[k], lower[k]);
    }
  }

  /** The subtags that are accepted: a language of two to eight letters but not four;
      an optional script, then an optional region; then variants, of five to eight
      letters and digits, or of four characters that start with a digit or are letters
      and digits after the first. */
  ghost predicate Acceptable(tags: seq<string>) {
    tags != [] &&
    var language, rest := tags[0], tags[1..];
    && |language| in {2, 3, 5, 6, 7, 8} && (forall c | c in language :: IsAlpha(c))
    && forall k | RegionEnd(rest) <= k < |rest| :: AcceptableVariant(rest[k])
  }

  predicate AcceptableVariant(s: string) {
    && (forall k | 0 <= k < |s| :: s[k] < '\U{80}')
    && if |s| == 4 then IsDigit(s[0]) || forall c | c in s[1..] :: IsAlpha(c) || IsDigit(c)
       else |s| in {5, 6, 7, 8} && forall c | c in s :: IsAlpha(c) || IsDigit(c)
  }

  lemma {:induction false} VariantAcceptable(s: string)
    ensures IsVariant(s) <==> AcceptableVariant(s)
  {
    assert All(s, IsAlnum) <==> forall c | c in s :: IsAlpha(c) || IsDigit(c);
    if |s| == 4 {
      assert All(s[1..], IsAlnum) <==> forall c | c in s[1..] :: IsAlpha(c) || IsDigit(c);
    }
  }

  lemma {:induction false} ParsesAcceptable(s: string)
    ensures Parse(s).Some? <==> Acceptable(Split(s))
  {
    var tags := Split(s);
    var rest := tags[1..];
    forall k | 0 <= k < |rest| ensures IsVariant(rest[k]) <==> AcceptableVariant(rest[k]) {
      VariantAcceptable(rest[k]);
    }
    TakesAcceptable(EMPTY.(language := LanguageOf(tags[0])), rest);
    assert IsLanguage(tags[0]) <==> |tags[0]| in {2, 3, 5, 6, 7, 8} && forall c | c in tags[0] :: IsAlpha(c);
  }

  lemma {:induction false} TakesAcceptable(id: LangID, tags: seq<string>)
    ensures TakeAll(id, 1, tags).Some? <==> AllVariants(tags[RegionEnd(tags)..])
  {
    assert tags[0..] == tags;
    if tags != [] && IsScript(tags[0]) {
      TakesRegion(id.(script := ScriptOf(tags[0])), 2, tags[1..]);
      TakesVariants(id.(script := ScriptOf(tags[0])), tags[1..]);
      assert |tags| > 1 ==> tags[1..][0] == tags[1] && tags[1..][1..] == tags[2..];
      RegionNoVariant(tags[1..]);
    } else {
      TakesRegion(id, 1, tags);
      RegionNoVariant(tags);
    }
  }

  /** A region is too short for a variant. */
  lemma {:induction false} RegionNoVariant(tags: seq<string>)
    ensures tags != [] && IsRegion(tags[0]) ==> !AllVariants(tags)
  {
    if tags != [] && IsRegion(tags[0]) {
      assert !IsVariant(tags[0]);
    }
  }

  lemma {:induction false} LanguageField(tag: string)
    ensures if Lowered(tag, "und") then LanguageOf(tag) == "" else Lowered(tag, LanguageOf(tag))
  {
    LowerIs(tag, "und");
    LowerIs(tag, Lower(tag));
  }

  lemma {:induction false} ScriptField(rest: seq<string>)
    requires ScriptEnd(rest) == 1
    ensures Titled(rest[0], ScriptOf(rest[0]))
  {
    ScriptCase(rest[0]);
  }

  lemma {:induction false} RegionField(rest: seq<string>)
    requires RegionEnd(rest) > ScriptEnd(rest)
    ensures Raised(rest[ScriptEnd(rest)], RegionOf(rest[ScriptEnd(rest)]))
  {
    RegionCase(rest[ScriptEnd(rest)]);
  }

  /** What a text parses to, subtag by subtag. */
  lemma {:induction false} ParsedIs(s: string, rest: seq<string>)
    requires Parse(s).Some? && rest == Split(s)[1..]
    ensures
      var m, r := ScriptEnd(rest), RegionEnd(rest);
      Parse(s).value ==
        LangID(LanguageOf(Split(s)[0]), if m == 1 then ScriptOf(rest[0]) else "",
               if r > m then RegionOf(rest[m]) else "", SortUnique(LowerAll(rest[r..])))
  {
    FieldsTaken(EMPTY.(language := LanguageOf(Split(s)[0])), rest);
  }

  /** Each field of a parsed identifier is the subtag that stands for it, in its case. */
  lemma {:induction false} ParsedFields(s: string)
    requires Parse(s).Some?
    ensures Fields(Split(s), Parse(s).value)
  {
    var id, rest := Parse(s).value, Split(s)[1..];
    ParsedIs(s, rest);
    LanguageField(Split(s)[0]);
    SubtagFields(rest, id);
  }

  lemma {:induction false} SubtagFields(rest: seq<string>, id: LangID)
    requires id.script == if ScriptEnd(rest) == 1 then ScriptOf(rest[0]) else ""
    requires id.region == if RegionEnd(rest) > ScriptEnd(rest) then RegionOf(rest[ScriptEnd(rest)]) else ""
    requires id.variants == SortUnique(LowerAll(rest[RegionEnd(rest)..]))
    ensures if ScriptEnd(rest) == 1 then Titled(rest[0], id.script) else id.script == ""
    ensures if RegionEnd(rest) > ScriptEnd(rest) then Raised(rest[ScriptEnd(rest)], id.region) else id.region == ""
    ensures VariantsOf(rest[RegionEnd(rest)..], id.variants)
  {
    if ScriptEnd(rest) == 1 {
      ScriptField(rest);
    }
    if RegionEnd(rest) > ScriptEnd(rest) {
      RegionField(rest);
    }
    VariantsSorted(rest[RegionEnd(rest)..]);
  }

  // ----- the canonical text -----

  /** s is the subtags with one hyphen between each two. */
  ghost predicate Hyphened(s: string, tags: seq<string>)
    decreases tags
  {
    tags != [] &&
    if |tags| == 1 then s == tags[0]
    else exists rest :: s == tags[0] + "-" + rest && Hyphened(rest, tags[1..])
  }

  lemma {:induction false} JoinHyphens(tags: seq<string>)
    requires tags != []
    ensures Hyphened(Join(tags), tags)
    decreases tags
  {
    if |tags| > 1 {
      JoinHyphens(tags[1..]);
      assert Join(tags) == tags[0] + "-" + Join(tags[1..]);
    }
  }

  /** The language, und for none, then the script, the region and the variants, those
      that there are. */
  lemma {:induction false} TextReads(id: LangID)
    ensures
      var tags := [if id.language == "" then "und" else id.language] +
                  (if id.script == "" then [] else [id.script]) +
                  (if id.region == "" then [] else [id.region]) + id.variants;
      Hyphened(TextOf(id), tags)
  {
    JoinHyphens(Parts(id));
  }
}
