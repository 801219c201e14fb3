/** What the parser reads of a whole source: an entry where the grammar has one, the
    entry that it has, and nothing elsewhere. */
module GrammarEntries {
  import opened FluentSyntax
  import opened Options
  import opened Chars
  import opened ParserSpec
  import opened Grammar
  import opened GrammarTokens
  import opened GrammarSound
  import opened GrammarComplete

  // ----- attributes -----

  lemma {:induction false} AttributeComplete(src: string, i: nat, a: Attribute, j: nat)
    requires i <= |src| && Attributed(src, i, j, a)
    ensures AttributeAt(src, i) == Ok(a, j)
  {
    var m: nat, n: nat :| Assigned(src, i, m, n, a.id) && Patterns(src, n + 1, j, a.value);
    AssignedIs(src, i, m, n, a.id);
    PatternComplete(src, n + 1, j, a.value);
    PartsAttribute(src, i, m, n, a, j);
  }

  lemma {:induction false} PartsAttribute(src: string, i: nat, m: nat, n: nat, a: Attribute, j: nat)
    requires Identifier(src, i) == Ok(a.id, m) && SkipBlankInline(src, m) == n && At(src, n, '=')
    requires i <= |src| && PatternAt(src, n + 1) == Ok(Some(a.value), j)
    ensures AttributeAt(src, i) == Ok(a, j)
  {
  }

  lemma {:induction false} NextAttributeComplete(src: string, i: nat, a: Attribute, j: nat)
    requires i <= |src| && AttributeLine(src, i, j, a)
    ensures NextAttribute(src, i) == (Some(a), j)
  {
    var s: nat :| Spaces(src, i, s) && Here(src, s, '.') && Attributed(src, s + 1, j, a);
    LineComplete(src, i, s, a, j);
  }

  lemma {:induction false} LineComplete(src: string, i: nat, s: nat, a: Attribute, j: nat)
    requires i <= |src| && Spaces(src, i, s) && Here(src, s, '.') && Attributed(src, s + 1, j, a)
    ensures NextAttribute(src, i) == (Some(a), j)
  {
    SkipSpacesIs(src, i, s);
    AttributeComplete(src, s + 1, a, j);
    PartsLine(src, i, s, a, j);
  }

  lemma {:induction false} PartsLine(src: string, i: nat, s: nat, a: Attribute, j: nat)
    requires i <= |src| && SkipBlankInline(src, i) == s && At(src, s, '.') && AttributeAt(src, s + 1) == Ok(a, j)
    ensures NextAttribute(src, i) == (Some(a), j)
  {
  }

  lemma {:induction false} NoAttributeIs(src: string, i: nat)
    requires i <= |src|
    ensures NextAttribute(src, i).0.None? <==> !exists m: nat, a: Attribute :: AttributeLine(src, i, m, a)
  {
    var r := NextAttribute(src, i);
    if r.0.Some? {
      NextAttributeSound(src, i, r.0.value, r.1);
    }
    forall m: nat, a: Attribute | AttributeLine(src, i, m, a) ensures r == (Some(a), m) {
      NextAttributeComplete(src, i, a, m);
    }
  }

  lemma {:induction false} AttributesStep(src: string, i: nat, sofar: seq<Attribute>, a: Attribute, next: nat)
    requires i <= |src| && NextAttribute(src, i) == (Some(a), next)
    ensures i < next <= |src| && AttributesAt(src, i, sofar) == AttributesAt(src, next, sofar + [a])
  {
  }

  lemma {:induction false} AttributesStop(src: string, i: nat, sofar: seq<Attribute>)
    requires i <= |src| && !exists m: nat, a: Attribute :: AttributeLine(src, i, m, a)
    ensures AttributesAt(src, i, sofar) == (sofar, i)
  {
    NoAttributeIs(src, i);
  }

  lemma {:induction false} AttributesSound(src: string, i: nat, sofar: seq<Attribute>, attrs: seq<Attribute>, j: nat)
    requires i <= |src| && AttributesAt(src, i, sofar) == (attrs, j)
    ensures sofar <= attrs && Attributes(src, i, j, attrs, |sofar|)
    decreases |src| - i
  {
    var (a, next) := NextAttribute(src, i);
    if a.Some? {
      AttributesSound(src, next, sofar + [a.value], attrs, j);
      assert attrs[|sofar|] == a.value;
      NextAttributeSound(src, i, a.value, next);
      assert AttributeThen(src, i, next, j, attrs, |sofar|);
    } else {
      NoAttributeIs(src, i);
    }
  }

  lemma {:induction false} AttributesComplete(src: string, i: nat, attrs: seq<Attribute>, k: nat, j: nat)
    requires i <= |src| && k <= |attrs| && Attributes(src, i, j, attrs, k)
    ensures AttributesAt(src, i, attrs[..k]) == (attrs, j)
    decreases |attrs| - k
  {
    if k == |attrs| {
      AttributesStop(src, i, attrs[..k]);
      assert attrs[..k] == attrs;
    } else {
      var m: nat :| AttributeThen(src, i, m, j, attrs, k);
      ThenComplete(src, i, m, attrs, k, j);
    }
  }

  lemma {:induction false} ThenComplete(src: string, i: nat, m: nat, attrs: seq<Attribute>, k: nat, j: nat)
    requires i <= |src| && k < |attrs| && AttributeThen(src, i, m, j, attrs, k)
    ensures AttributesAt(src, i, attrs[..k]) == (attrs, j)
    decreases |attrs| - k, 0
  {
    NextAttributeComplete(src, i, attrs[k], m);
    AttributesStep(src, i, attrs[..k], attrs[k], m);
    AttributesComplete(src, m, attrs, k + 1, j);
    ReadAttributes(attrs, k);
  }

  lemma {:induction false} ReadAttributes(attrs: seq<Attribute>, k: nat)
    requires k < |attrs|
    ensures attrs[..k + 1] == attrs[..k] + [attrs[k]]
  {
  }

  lemma {:induction false} AttributesAre(src: string, i: nat, attrs: seq<Attribute>, j: nat)
    requires i <= |src|
    ensures AttributesAt(src, i, []) == (attrs, j) <==> Attributes(src, i, j, attrs, 0)
  {
    if AttributesAt(src, i, []) == (attrs, j) {
      AttributesSound(src, i, [], attrs, j);
    }
    if Attributes(src, i, j, attrs, 0) {
      AttributesComplete(src, i, attrs, 0, j);
      assert attrs[..0] == [];
    }
  }

  // ----- entries -----

  lemma {:induction false} PatternIs(src: string, i: nat, p: Option<Pattern>, j: nat)
    requires i <= |src| && (p.Some? ==> p.value.elements != [])
    ensures PatternAt(src, i) == Ok(p, j) <==> Patterns(src, i, j, Whole(p))
  {
    if PatternAt(src, i) == Ok(p, j) {
      PatternSound(src, i, p, j);
    }
    if Patterns(src, i, j, Whole(p)) {
      PatternComplete(src, i, j, Whole(p));
    }
  }

  lemma {:induction false} BodySound(src: string, i: nat, v: nat, s: nat, e: Entry, j: nat)
    requires i <= |src| && PatternAt(src, i) == Ok(e.value, v) && SkipBlankBlock(src, v) == s
    requires AttributesAt(src, s, []) == (e.attrs, j)
    ensures Body(src, i, j, e) && (e.value.Some? ==> e.value.value.elements != [])
  {
    PatternSound(src, i, e.value, v);
    SkipLinesIs(src, v, s);
    AttributesAre(src, s, e.attrs, j);
  }

  lemma {:induction false} BodyComplete(src: string, i: nat, e: Entry, j: nat) returns (v: nat, s: nat)
    requires i <= |src| && Body(src, i, j, e) && (e.value.Some? ==> e.value.value.elements != [])
    ensures PatternAt(src, i) == Ok(e.value, v) && SkipBlankBlock(src, v) == s <= |src|
    ensures AttributesAt(src, s, []) == (e.attrs, j)
  {
    v, s :| Patterns(src, i, v, Whole(e.value)) && BlankLines(src, v, s) && Attributes(src, s, j, e.attrs, 0);
    PatternIs(src, i, e.value, v);
    SkipLinesIs(src, v, s);
    AttributesAre(src, s, e.attrs, j);
  }

  lemma {:induction false} MessageSound(src: string, i: nat, e: Entry, j: nat)
    requires i <= |src| && MessageAt(src, i) == Ok(e, j)
    ensures !e.term && Entries(src, i, j, e)
  {
    var id, m := MessageParts(src, i, e, j);
    var n := SkipBlankInline(src, m);
    var v, s := MessageBodyParts(src, i, id, m, n, e, j);
    AssignedIs(src, i, m, n, id);
    MessageMade(src, i, m, n, v, s, e, j);
  }

  lemma {:induction false} MessageMade(src: string, i: nat, m: nat, n: nat, v: nat, s: nat, e: Entry, j: nat)
    requires !e.term && (e.value.Some? || e.attrs != []) && Assigned(src, i, m, n, e.id)
    requires PatternAt(src, n + 1) == Ok(e.value, v) && SkipBlankBlock(src, v) == s
    requires AttributesAt(src, s, []) == (e.attrs, j)
    ensures Entries(src, i, j, e)
  {
    BodySound(src, n + 1, v, s, e, j);
    assert exists x: nat, y: nat :: Assigned(src, i, x, y, e.id) && Body(src, y + 1, j, e);
  }

  lemma {:induction false} MessageParts(src: string, i: nat, e: Entry, j: nat) returns (id: string, m: nat)
    requires i <= |src| && MessageAt(src, i) == Ok(e, j)
    ensures m <= |src| && Identifier(src, i) == Ok(id, m) && MessageBody(src, i, id, m) == Ok(e, j)
  {
    id, m := Identifier(src, i).value, Identifier(src, i).pos;
  }

  lemma {:induction false} MessageBodyParts(src: string, start: nat, id: string, i: nat, n: nat, e: Entry, j: nat)
      returns (v: nat, s: nat)
    requires i <= |src| && SkipBlankInline(src, i) == n && MessageBody(src, start, id, i) == Ok(e, j)
    ensures e.id == id && !e.term && (e.value.Some? || e.attrs != [])
    ensures At(src, n, '=') && PatternAt(src, n + 1) == Ok(e.value, v)
    ensures SkipBlankBlock(src, v) == s <= |src| && AttributesAt(src, s, []) == (e.attrs, j)
  {
    v := PatternAt(src, n + 1).pos;
    s := SkipBlankBlock(src, v);
  }

  lemma {:induction false} MessageComplete(src: string, i: nat, e: Entry, j: nat)
    requires i <= |src| && !e.term && Entries(src, i, j, e)
    ensures MessageAt(src, i) == Ok(e, j)
  {
    var m: nat, n: nat :| Assigned(src, i, m, n, e.id) && Body(src, n + 1, j, e);
    AssignedIs(src, i, m, n, e.id);
    MessageBodyComplete(src, i, m, n, e, j);
    PartsMessage(src, i, m, e, j);
  }

  lemma {:induction false} PartsMessage(src: string, i: nat, m: nat, e: Entry, j: nat)
    requires i <= |src| && Identifier(src, i) == Ok(e.id, m) && MessageBody(src, i, e.id, m) == Ok(e, j)
    ensures MessageAt(src, i) == Ok(e, j)
  {
  }

  lemma {:induction false} MessageBodyComplete(src: string, start: nat, i: nat, n: nat, e: Entry, j: nat)
    requires !e.term && (e.value.Some? || e.attrs != []) && (e.value.Some? ==> e.value.value.elements != [])
    requires i <= |src| && SkipBlankInline(src, i) == n && At(src, n, '=') && Body(src, n + 1, j, e)
    ensures MessageBody(src, start, e.id, i) == Ok(e, j)
  {
    var v, s := BodyComplete(src, n + 1, e, j);
    PartsMessageBody(src, start, i, n, v, s, e.id, e.value, e.attrs, j);
    assert MessageOf(start, e.id, e.value, e.attrs, j) == Ok(e, j);
  }

  lemma {:induction false} PartsMessageBody(src: string, start: nat, i: nat, n: nat, v: nat, s: nat, id: string,
                                            value: Option<Pattern>, attrs: seq<Attribute>, j: nat)
    requires i <= |src| && SkipBlankInline(src, i) == n && At(src, n, '=') && PatternAt(src, n + 1) == Ok(value, v)
    requires SkipBlankBlock(src, v) == s <= |src| && AttributesAt(src, s, []) == (attrs, j)
    ensures MessageBody(src, start, id, i) == MessageOf(start, id, value, attrs, j)
  {
    assert Expect(src, n, '=') == Ok((), n + 1);
  }

  lemma {:induction false} TermSound(src: string, i: nat, e: Entry, j: nat)
    requires i <= |src| && TermAt(src, i) == Ok(e, j)
    ensures e.term && Entries(src, i, j, e)
  {
    var id, m := TermParts(src, i, e, j);
    var n := SkipBlankInline(src, m);
    var t := SkipBlankInline(src, n + 1);
    var v, s := TermBodyParts(src, i, id, m, n, t, e, j);
    AssignedIs(src, i + 1, m, n, id);
    SkipSpacesIs(src, n + 1, t);
    TermMade(src, i, m, n, t, v, s, e, j);
  }

  lemma {:induction false} TermMade(src: string, i: nat, m: nat, n: nat, t: nat, v: nat, s: nat, e: Entry, j: nat)
    requires e.term && e.value.Some? && TermAssigned(src, i, m, n, t, e.id)
    requires PatternAt(src, t) == Ok(e.value, v) && SkipBlankBlock(src, v) == s
    requires AttributesAt(src, s, []) == (e.attrs, j)
    ensures Entries(src, i, j, e)
  {
    BodySound(src, t, v, s, e, j);
  }

  lemma {:induction false} TermParts(src: string, i: nat, e: Entry, j: nat) returns (id: string, m: nat)
    requires i <= |src| && TermAt(src, i) == Ok(e, j)
    ensures At(src, i, '-') && m <= |src| && Identifier(src, i + 1) == Ok(id, m)
    ensures TermBody(src, i, id, m) == Ok(e, j)
  {
    id, m := Identifier(src, i + 1).value, Identifier(src, i + 1).pos;
  }

  lemma {:induction false} TermBodyParts(src: string, start: nat, id: string, i: nat, n: nat, t: nat, e: Entry, j: nat)
      returns (v: nat, s: nat)
    requires i <= |src| && SkipBlankInline(src, i) == n && SkipBlankInline(src, n + 1) == t
    requires TermBody(src, start, id, i) == Ok(e, j)
    ensures e.id == id && e.term && e.value.Some? && At(src, n, '=') && PatternAt(src, t) == Ok(e.value, v)
    ensures SkipBlankBlock(src, v) == s <= |src| && AttributesAt(src, s, []) == (e.attrs, j)
  {
    v := PatternAt(src, t).pos;
    s := SkipBlankBlock(src, v);
  }

  lemma {:induction false} TermComplete(src: string, i: nat, e: Entry, j: nat)
    requires i <= |src| && e.term && Entries(src, i, j, e)
    ensures TermAt(src, i) == Ok(e, j)
  {
    var m: nat, n: nat, t: nat :| TermAssigned(src, i, m, n, t, e.id) && Body(src, t, j, e);
    TermAssignedIs(src, i, m, n, t, e.id);
    TermBodyComplete(src, i, m, n, t, e, j);
    PartsTerm(src, i, m, e, j);
  }

  lemma {:induction false} TermAssignedIs(src: string, i: nat, m: nat, n: nat, t: nat, id: string)
    requires TermAssigned(src, i, m, n, t, id)
    ensures At(src, i, '-') && Identifier(src, i + 1) == Ok(id, m) && m <= |src|
    ensures SkipBlankInline(src, m) == n && At(src, n, '=') && SkipBlankInline(src, n + 1) == t <= |src|
  {
    AssignedIs(src, i + 1, m, n, id);
    SkipSpacesIs(src, n + 1, t);
  }

  lemma {:induction false} PartsTerm(src: string, i: nat, m: nat, e: Entry, j: nat)
    requires At(src, i, '-') && Identifier(src, i + 1) == Ok(e.id, m) && TermBody(src, i, e.id, m) == Ok(e, j)
    ensures TermAt(src, i) == Ok(e, j)
  {
  }

  lemma {:induction false} TermBodyComplete(src: string, start: nat, i: nat, n: nat, t: nat, e: Entry, j: nat)
    requires e.term && e.value.Some? && e.value.value.elements != []
    requires i <= |src| && SkipBlankInline(src, i) == n && At(src, n, '=') && SkipBlankInline(src, n + 1) == t
    requires t <= |src| && Body(src, t, j, e)
    ensures TermBody(src, start, e.id, i) == Ok(e, j)
  {
    var v, s := BodyComplete(src, t, e, j);
    PartsTermBody(src, start, i, n, t, v, s, e.id, e.value, e.attrs, j);
    assert TermOf(start, e.id, e.value, e.attrs, j) == Ok(e, j);
  }

  lemma {:induction false} PartsTermBody(src: string, start: nat, i: nat, n: nat, t: nat, v: nat, s: nat, id: string,
                                         value: Option<Pattern>, attrs: seq<Attribute>, j: nat)
    requires i <= |src| && SkipBlankInline(src, i) == n && At(src, n, '=') && SkipBlankInline(src, n + 1) == t <= |src|
    requires PatternAt(src, t) == Ok(value, v)
    requires SkipBlankBlock(src, v) == s <= |src| && AttributesAt(src, s, []) == (attrs, j)
    ensures TermBody(src, start, id, i) == TermOf(start, id, value, attrs, j)
  {
    assert Expect(src, n, '=') == Ok((), n + 1);
  }

  /** At every position the parser reads an entry if and only if the grammar has that
      entry there, and takes what the grammar says it takes. */
  lemma {:induction false} EntryIs(src: string, i: nat, e: Entry, j: nat)
    requires i < |src|
    ensures EntryAt(src, i) == Ok(Some(e), j) <==> Entries(src, i, j, e)
  {
    if EntryAt(src, i) == Ok(Some(e), j) {
      EntrySound(src, i, e, j);
    }
    if Entries(src, i, j, e) {
      EntryComplete(src, i, e, j);
    }
  }

  lemma {:induction false} EntrySound(src: string, i: nat, e: Entry, j: nat)
    requires i < |src| && EntryAt(src, i) == Ok(Some(e), j)
    ensures Entries(src, i, j, e)
  {
    if src[i] == '-' {
      TermSound(src, i, e, j);
    } else {
      MessageSound(src, i, e, j);
    }
  }

  lemma {:induction false} EntryComplete(src: string, i: nat, e: Entry, j: nat)
    requires Entries(src, i, j, e)
    ensures i < |src| && EntryAt(src, i) == Ok(Some(e), j)
  {
    EntryKind(src, i, e, j);
    if src[i] == '-' {
      TermComplete(src, i, e, j);
    } else {
      MessageComplete(src, i, e, j);
    }
  }

  lemma {:induction false} EntryKind(src: string, i: nat, e: Entry, j: nat)
    ensures Entries(src, i, j, e) ==> i < |src| && src[i] != '#' && (e.term <==> src[i] == '-')
  {
  }

  /** No stretch of source spells two entries, and none from one position two stretches. */
  lemma {:induction false} Unambiguous(src: string, i: nat, e: Entry, j: nat, f: Entry, k: nat)
    requires Entries(src, i, j, e) && Entries(src, i, k, f)
    ensures e == f && j == k
  {
    EntryComplete(src, i, e, j);
    EntryComplete(src, i, f, k);
  }
}
