/** What parsing makes of a whole source, told by the grammar alone: rounds of entries,
    comments and junk with blank lines between them. */
module GrammarRounds {
  import opened FluentSyntax
  import opened ParserSpec
  import opened Grammar
  import opened GrammarTokens
  import opened GrammarEntries
  import opened GrammarStops

  // ----- comments and junk -----

  predicate LineStop(src: string, i: nat) { i >= |src| || src[i] == '\n' || Newline(src, i, i + 2) }

  /** The first line end from i on, or the end of the source. */
  ghost predicate LineTo(src: string, i: nat, m: nat) {
    i <= m <= |src| && LineStop(src, m) && forall k: nat | i <= k < m :: !LineStop(src, k)
  }

  /** Lines that begin with a number sign, each up to one past where its line end begins. */
  ghost predicate CommentLines(src: string, i: nat, j: nat)
    decreases |src| - i
  {
    && Here(src, i, '#')
    && exists m: nat ::
         LineTo(src, i, m) && if Here(src, m + 1, '#') then CommentLines(src, m + 1, j) else j == m + 1
  }

  /** A line that begins with a letter, a hyphen or a number sign. */
  predicate MayStart(src: string, i: nat) {
    && i < |src| && (i == 0 || src[i - 1] == '\n')
    && (Letter(src[i]) || src[i] == '-' || src[i] == '#')
  }

  ghost predicate SpellsEntry(src: string, i: nat) { exists j: nat, e: Entry :: Entries(src, i, j, e) }

  lemma {:induction false} LineEndIs(src: string, i: nat, m: nat)
    requires i <= |src|
    ensures LineEnd(src, i) == m <==> LineTo(src, i, m)
  {
    LineEndStops(src, i);
    if LineTo(src, i, m) {
      LineUnique(src, i, m, LineEnd(src, i));
    }
  }

  lemma {:induction false} LineEndStops(src: string, i: nat)
    requires i <= |src|
    ensures LineTo(src, i, LineEnd(src, i))
    decreases |src| - i
  {
    if !IsEol(src, i) {
      LineEndStops(src, i + 1);
      forall k: nat | i <= k < LineEnd(src, i) ensures !LineStop(src, k) {
        assert k == i || i + 1 <= k;
      }
    }
  }

  lemma {:induction false} LineUnique(src: string, i: nat, m: nat, n: nat)
    requires LineTo(src, i, m) && LineTo(src, i, n)
    ensures m == n
  {
  }

  lemma {:induction false} CommentIs(src: string, i: nat, k: nat, j: nat)
    requires Here(src, i, '#') && (k == i || k == i + 1)
    ensures SkipComment(src, k) == j <==> CommentLines(src, i, j)
    decreases |src| - i
  {
    var m := LineEnd(src, i);
    assert LineEnd(src, i) == LineEnd(src, i + 1);
    LineEndIs(src, i, m);
    forall n: nat | LineTo(src, i, n) ensures n == m {
      LineEndIs(src, i, n);
    }
    if Here(src, m + 1, '#') {
      CommentIs(src, m + 1, m + 2, j);
    }
  }

  // ----- rounds -----

  /** An entry where one is spelled; a comment; and junk only where no entry is spelled,
      with the reason why, from there to the next line after where reading gave up that
      can start one, or the end. */
  ghost predicate RoundIs(src: string, item: Item) {
    match item
    case Parsed(e, start, end) => Entries(src, start, end, e)
    case Comment(start, end) => CommentLines(src, start, end)
    case Junk(err, failed, start, end) =>
      && !Here(src, start, '#') && !SpellsEntry(src, start) && EntryStops(src, start, err, failed)
      && start <= failed <= end <= |src| && start < end
      && (end == |src| || MayStart(src, end))
      && forall k: nat | failed <= k < end :: !MayStart(src, k)
  }

  /** Rounds from i on, each after all the blank lines there are. */
  ghost predicate Rounds(src: string, i: nat, items: seq<Item>)
    decreases items
  {
    if items == [] then i > |src| || BlankLines(src, i, |src|)
    else
      && i <= |src| && items[0].start < |src| && BlankLines(src, i, items[0].start)
      && RoundIs(src, items[0]) && Rounds(src, items[0].end, items[1..])
  }

  lemma {:induction false} NothingSpelled(src: string, i: nat)
    requires i < |src|
    ensures SpellsEntry(src, i) <==> EntryAt(src, i).Ok? && EntryAt(src, i).value.Some?
  {
    var r := EntryAt(src, i);
    if r.Ok? && r.value.Some? {
      EntryIs(src, i, r.value.value, r.pos);
    }
    if j: nat, e: Entry :| Entries(src, i, j, e) {
      EntryIs(src, i, e, j);
    }
  }

  lemma {:induction false} ItemIsRound(src: string, i: nat)
    requires i < |src|
    ensures RoundIs(src, ItemAt(src, i))
  {
    var r := EntryAt(src, i);
    NothingSpelled(src, i);
    if r.Ok? && r.value.Some? {
      EntryIs(src, i, r.value.value, r.pos);
    } else if r.Ok? {
      CommentIs(src, i, i, r.pos);
    } else {
      JunkIsRound(src, i);
    }
  }

  lemma {:induction false} JunkIsRound(src: string, i: nat)
    requires i < |src| && EntryAt(src, i).Err? && !SpellsEntry(src, i)
    ensures RoundIs(src, ItemAt(src, i))
  {
    EntryStopped(src, i, EntryAt(src, i).error, EntryAt(src, i).pos);
    JunkEnds(src, i);
  }

  lemma {:induction false} JunkEnds(src: string, i: nat)
    requires i < |src| && EntryAt(src, i).Err?
    ensures
      var failed, end := EntryAt(src, i).pos, ItemAt(src, i).end;
      && ItemAt(src, i) == Junk(EntryAt(src, i).error, failed, i, end)
      && i <= failed <= end <= |src| && i < end && (end == |src| || MayStart(src, end))
      && forall k: nat | failed <= k < end :: !MayStart(src, k)
  {
    assert forall k: nat :: EntryStart(src, k) <==> MayStart(src, k);
  }

  /** The rounds of parsing are the rounds of the source. */
  lemma {:induction false} ItemsAreRounds(src: string, i: nat)
    ensures Rounds(src, i, ItemsFrom(src, SkipBlankBlock(src, i)))
    decreases |src| - i
  {
    var j := SkipBlankBlock(src, i);
    if i <= |src| {
      SkipLinesIs(src, i, j);
    }
    if j < |src| {
      var item := ItemAt(src, j);
      ItemIsRound(src, j);
      ItemsAreRounds(src, item.end);
      assert ItemsFrom(src, j)[1..] == ItemsFrom(src, SkipBlankBlock(src, item.end));
    }
  }

  /** The entries of the rounds, in order, each once. */
  ghost predicate Collects(items: seq<Item>, entries: seq<Entry>) {
    if items == [] then entries == []
    else if items[0].Parsed? then
      entries != [] && entries[0] == items[0].entry && Collects(items[1..], entries[1..])
    else Collects(items[1..], entries)
  }

  lemma {:induction false} EntriesCollect(items: seq<Item>)
    ensures Collects(items, EntriesOf(items))
  {
    if items != [] {
      EntriesCollect(items[1..]);
      var rest := EntriesOf(items[1..]);
      assert items[0].Parsed? ==> EntriesOf(items) == [items[0].entry] + rest && ([items[0].entry] + rest)[1..] == rest;
      assert !items[0].Parsed? ==> EntriesOf(items) == rest;
    }
  }

  /** Parsing reads a source as it is spelled: its entries are those of the rounds. */
  lemma {:induction false} ParsesAsSpelled(src: string)
    ensures exists items :: Rounds(src, 0, items) && Collects(items, Parse(src).entries)
  {
    ItemsAreRounds(src, 0);
    EntriesCollect(Items(src));
  }

  // ----- sources that hold no junk -----

  ghost predicate NoJunk(items: seq<Item>) { forall k | 0 <= k < |items| :: !items[k].Junk? }

  lemma {:induction false} RoundIsItem(src: string, item: Item)
    requires item.start < |src| && RoundIs(src, item) && !item.Junk?
    ensures ItemAt(src, item.start) == item
  {
    if item.Parsed? {
      EntryIs(src, item.start, item.entry, item.end);
    } else {
      CommentIs(src, item.start, item.start, item.end);
    }
  }

  lemma {:induction false} RoundReads(src: string, item: Item)
    requires item.start < |src| && RoundIs(src, item) && !item.Junk?
    ensures ItemsFrom(src, item.start) == [item] + ItemsFrom(src, SkipBlankBlock(src, item.end))
  {
    RoundIsItem(src, item);
  }

  lemma {:induction false} RoundsAreItems(src: string, i: nat, items: seq<Item>)
    requires Rounds(src, i, items) && NoJunk(items)
    ensures ItemsFrom(src, SkipBlankBlock(src, i)) == items
    decreases items
  {
    if items == [] {
      if i <= |src| {
        SkipLinesIs(src, i, |src|);
      }
    } else {
      var item, rest := items[0], items[1..];
      SkipLinesIs(src, i, item.start);
      RoundReads(src, item);
      RoundsAreItems(src, item.end, rest);
      assert items == [item] + rest;
    }
  }

  /** A source spelled as entries and comments, blank lines between them, parses to just
      those entries and to no junk. */
  lemma {:induction false} SpelledParses(src: string, items: seq<Item>)
    requires Rounds(src, 0, items) && NoJunk(items)
    ensures Collects(items, Parse(src).entries) && Parse(src).junk == []
  {
    RoundsAreItems(src, 0, items);
    EntriesCollect(items);
    NoneListed(src, items);
  }

  lemma {:induction false} NoneListed(src: string, items: seq<Item>)
    requires NoJunk(items)
    ensures JunkOf(src, items) == []
  {
    if items != [] {
      assert forall k | 0 <= k < |items| - 1 :: items[1..][k] == items[k + 1];
      NoneListed(src, items[1..]);
    }
  }
}
