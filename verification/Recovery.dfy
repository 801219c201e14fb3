/** Junk recovery. The rounds of the top loop tile the source: nothing is read
    twice, nothing but blank lines is skipped, and every round moves on. */
module Recovery {
  import opened FluentSyntax
  import opened ParserSpec
  import opened WellFormed

  /** What one round consumed: a well-formed entry; a comment, which alone may
      end one past the source; or junk, which is non-empty, and runs from where
      reading failed to the next line that can start an entry, or to the end. */
  ghost predicate WfItem(src: string, item: Item) {
    && item.start < item.end && item.start < |src|
    && match item
       case Parsed(e, _, end) => end <= |src| && WfEntry(src, e)
       case Comment(start, end) => src[start] == '#' && end <= |src| + 1
       case Junk(_, failed, start, end) =>
         && start <= failed <= end <= |src|
         && (end == |src| || EntryStart(src, end))
         && forall k | failed <= k < end :: !EntryStart(src, k)
  }

  ghost predicate Blank(src: string, i: nat, j: nat) {
    i <= j && forall k | i <= k < j :: k < |src| && src[k] in {' ', '\r', '\n'}
  }

  /** Items tile the source from i on. */
  ghost predicate Tiles(src: string, i: nat, items: seq<Item>)
    decreases items
  {
    if items == [] then i >= |src| || Blank(src, i, |src|)
    else
      && Blank(src, i, items[0].start)
      && WfItem(src, items[0])
      && Tiles(src, items[0].end, items[1..])
  }

  lemma {:induction false} ItemWf(src: string, i: nat)
    requires i < |src|
    ensures WfItem(src, ItemAt(src, i))
  {
    TermWf(src, i);
    MessageWf(src, i);
  }

  lemma {:induction false} ItemsTile(src: string, i: nat)
    ensures Tiles(src, i, ItemsFrom(src, SkipBlankBlock(src, i)))
    decreases |src| - i
  {
    var j := SkipBlankBlock(src, i);
    if j < |src| {
      ItemWf(src, j);
      var item := ItemAt(src, j);
      ItemsTile(src, item.end);
      assert ItemsFrom(src, j)[1..] == ItemsFrom(src, SkipBlankBlock(src, item.end));
    }
  }

  /** On every source parsing terminates, and its rounds tile the source. */
  lemma {:induction false} ParseTiles(src: string)
    ensures Tiles(src, 0, Items(src))
  {
    ItemsTile(src, 0);
  }

  /** Tiles are in order and disjoint. */
  lemma {:induction false} TilesInOrder(src: string, i: nat, items: seq<Item>, j: nat, k: nat)
    requires Tiles(src, i, items) && j < k < |items|
    ensures i <= items[j].start < items[j].end <= items[k].start
    decreases items
  {
    if j > 0 {
      TilesInOrder(src, items[0].end, items[1..], j - 1, k - 1);
    } else {
      TileAfter(src, items[0].end, items[1..], k - 1);
    }
  }

  lemma {:induction false} TileAfter(src: string, i: nat, items: seq<Item>, k: nat)
    requires Tiles(src, i, items) && k < |items|
    ensures i <= items[k].start && WfItem(src, items[k])
    decreases items
  {
    if k > 0 {
      TileAfter(src, items[0].end, items[1..], k - 1);
    }
  }

  /** No character is lost: each belongs to exactly one round, or is part of a
      blank line between rounds. */
  lemma {:induction false} EveryCharacter(src: string, i: nat, items: seq<Item>, k: nat)
    requires Tiles(src, i, items) && i <= k < |src|
    ensures
      || src[k] in {' ', '\r', '\n'}
      || exists n :: 0 <= n < |items| && items[n].start <= k < items[n].end
    decreases items
  {
    if items != [] && k >= items[0].start {
      if k < items[0].end {
        assert items[0].start <= k < items[0].end;
      } else {
        EveryCharacter(src, items[0].end, items[1..], k);
        if src[k] !in {' ', '\r', '\n'} {
          var n :| 0 <= n < |items| - 1 && items[1..][n].start <= k < items[1..][n].end;
          assert items[n + 1] == items[1..][n];
        }
      }
    }
  }

  /** The places of the junk rounds, in order. */
  ghost predicate ListsJunk(items: seq<Item>, ns: seq<nat>) {
    && (forall j, k | 0 <= j < k < |ns| :: ns[j] < ns[k])
    && (forall n: nat :: n in ns <==> n < |items| && items[n].Junk?)
  }

  ghost predicate JunkAt(src: string, items: seq<Item>, junk: seq<JunkEntry>, ns: seq<nat>) {
    && |junk| == |ns|
    && forall k | 0 <= k < |ns| ::
         ns[k] < |items| && items[ns[k]].Junk? &&
         junk[k] == JunkEntry(Sub(src, items[ns[k]].start, items[ns[k]].end), items[ns[k]].err)
  }

  /** The junk entries are the slices of all the junk rounds, each once, in order. */
  lemma {:induction false} JunkSlices(src: string, items: seq<Item>)
    ensures exists ns :: ListsJunk(items, ns) && JunkAt(src, items, JunkOf(src, items), ns)
  {
    var ns := JunkPlaces(src, items);
  }

  lemma {:induction false} JunkPlaces(src: string, items: seq<Item>) returns (ns: seq<nat>)
    ensures ListsJunk(items, ns) && JunkAt(src, items, JunkOf(src, items), ns)
    decreases items
  {
    if items == [] {
      ns := [];
    } else {
      var later := JunkPlaces(src, items[1..]);
      ShiftedLists(items, later);
      ShiftedAt(src, items, later);
      ns := if items[0].Junk? then [0] + Shifted(later) else Shifted(later);
      LaterPlaces(src, items, later, ns);
    }
  }

  function Shifted(ns: seq<nat>): seq<nat> { seq(|ns|, k requires 0 <= k < |ns| => ns[k] + 1) }

  lemma {:induction false} ShiftedLists(items: seq<Item>, ns: seq<nat>)
    requires items != [] && ListsJunk(items[1..], ns)
    ensures forall n: nat :: n in Shifted(ns) <==> 0 < n < |items| && items[n].Junk?
    ensures forall j, k | 0 <= j < k < |ns| :: Shifted(ns)[j] < Shifted(ns)[k]
  {
    forall n: nat ensures n in Shifted(ns) <==> 0 < n < |items| && items[n].Junk? {
      if n in Shifted(ns) {
        var k :| 0 <= k < |ns| && Shifted(ns)[k] == n;
        assert ns[k] in ns && items[1..][n - 1] == items[n];
      }
      if 0 < n < |items| && items[n].Junk? {
        assert items[1..][n - 1] == items[n] && n - 1 in ns;
        var k :| 0 <= k < |ns| && ns[k] == n - 1;
        assert Shifted(ns)[k] == n;
      }
    }
  }

  lemma {:induction false} ShiftedAt(src: string, items: seq<Item>, ns: seq<nat>)
    requires items != [] && JunkAt(src, items[1..], JunkOf(src, items[1..]), ns)
    ensures JunkAt(src, items, JunkOf(src, items[1..]), Shifted(ns))
  {
    assert forall k | 0 <= k < |ns| :: items[Shifted(ns)[k]] == items[1..][ns[k]];
  }

  /** The first round, in front of the later ones. */
  lemma {:induction false} LaterPlaces(src: string, items: seq<Item>, later: seq<nat>, ns: seq<nat>)
    requires items != [] && ns == if items[0].Junk? then [0] + Shifted(later) else Shifted(later)
    requires forall n: nat :: n in Shifted(later) <==> 0 < n < |items| && items[n].Junk?
    requires forall j, k | 0 <= j < k < |later| :: Shifted(later)[j] < Shifted(later)[k]
    requires JunkAt(src, items, JunkOf(src, items[1..]), Shifted(later))
    ensures ListsJunk(items, ns) && JunkAt(src, items, JunkOf(src, items), ns)
  {
    if items[0].Junk? {
      FirstPlace(items, Shifted(later));
      FirstJunk(src, items, JunkOf(src, items[1..]), Shifted(later));
    } else {
      assert JunkOf(src, items) == JunkOf(src, items[1..]);
    }
  }

  lemma {:induction false} FirstPlace(items: seq<Item>, ns: seq<nat>)
    requires items != [] && items[0].Junk?
    requires forall n: nat :: n in ns <==> 0 < n < |items| && items[n].Junk?
    requires forall j, k | 0 <= j < k < |ns| :: ns[j] < ns[k]
    ensures ListsJunk(items, [0] + ns)
  {
    var all := [0] + ns;
    assert forall n: nat :: n in all <==> n == 0 || n in ns;
    forall j, k | 0 <= j < k < |all| ensures all[j] < all[k] {
      assert ns[k - 1] in ns;
    }
  }

  lemma {:induction false} FirstJunk(src: string, items: seq<Item>, junk: seq<JunkEntry>, ns: seq<nat>)
    requires items != [] && items[0].Junk? && JunkAt(src, items, junk, ns)
    ensures JunkAt(src, items, [JunkEntry(Sub(src, items[0].start, items[0].end), items[0].err)] + junk, [0] + ns)
  {
    var all := [0] + ns;
    assert forall k | 0 < k < |all| :: all[k] == ns[k - 1];
  }
}
