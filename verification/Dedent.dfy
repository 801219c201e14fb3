/** Indentation. The common indent of a pattern is stated from its elements and the
    source alone, and every text element that starts a line loses exactly its share
    of it. */
module Dedent {
  import opened FluentSyntax
  import opened Options
  import opened ParserSpec
  import opened WellFormed

  // ----- lines of the source -----

  /** A line starts at i. */
  predicate LineAt(src: string, i: nat) { i == 0 || (i <= |src| && src[i - 1] == '\n') }

  /** The line feed of a line end that a carriage return opened. */
  predicate CrLfTail(src: string, i: nat) { i > 0 && At(src, i - 1, '\r') && At(src, i, '\n') }

  /** The element starts a line of its own: not the one that the pattern begins on. */
  predicate OwnLine(src: string, el: Placeholder) {
    el.role != InitialLineStart && LineAt(src, el.start)
  }

  /** A text element with something other than blanks and its line end. */
  ghost predicate NonBlankSlice(src: string, el: Placeholder) {
    el.Slice? && exists k :: el.start + el.indent <= k < el.end && k < |src| && src[k] != ' ' && src[k] != '\n'
  }

  ghost predicate NonBlankLine(src: string, el: Placeholder) {
    NonBlankSlice(src, el) && OwnLine(src, el)
  }

  predicate ColumnZero(src: string, el: Placeholder) { el.Hole? && At(src, el.start, '{') && OwnLine(src, el) }

  /** The least indent of the lines that start with non-blank text; 0 when a
      placeable stands at column zero; -1 when no such line exists. */
  ghost predicate IsCommonIndent(src: string, els: seq<Placeholder>, c: int) {
    if exists k :: 0 <= k < |els| && ColumnZero(src, els[k]) then c == 0
    else if exists k :: 0 <= k < |els| && NonBlankLine(src, els[k]) then
      && (exists k :: 0 <= k < |els| && NonBlankLine(src, els[k]) && els[k].indent == c)
      && (forall k | 0 <= k < |els| && NonBlankLine(src, els[k]) :: c <= els[k].indent)
    else c == -1
  }

  ghost predicate NonBlank(src: string, el: Placeholder) { el.Hole? || NonBlankSlice(src, el) }

  /** n is the index of the last non-blank element, -1 for none. */
  ghost predicate IsLastNonBlank(src: string, els: seq<Placeholder>, n: int) {
    && -1 <= n < |els|
    && (n >= 0 ==> NonBlank(src, els[n]))
    && forall k | n < k < |els| :: !NonBlank(src, els[k])
  }

  /** Elements stand in source order and do not overlap; all end by cursor i. */
  ghost predicate InOrder(els: seq<Placeholder>, i: nat) {
    && Disjoint(els)
    && (forall k | 0 <= k < |els| :: els[k].start <= els[k].end <= i)
  }

  ghost predicate Disjoint(els: seq<Placeholder>) {
    forall j, k | 0 <= j < k < |els| :: els[j].end <= els[k].start
  }

  predicate IsWhite(src: string, k: nat) { k < |src| && src[k] in {' ', '\r', '\n'} }

  /** The character at k is in an element, or is white space. */
  ghost predicate Held(src: string, els: seq<Placeholder>, k: nat) {
    || IsWhite(src, k)
    || exists n :: 0 <= n < |els| && els[n].start <= k < els[n].end
  }

  /** So is every character from one position to another. */
  ghost predicate Covered(src: string, from: nat, to: nat, els: seq<Placeholder>) {
    forall k: nat | from <= k < to :: Held(src, els, k)
  }

  // ----- roles and lines -----

  /** The scan's role agrees with where it stands. */
  predicate Stands(src: string, i: nat, role: Role) {
    match role
    case InitialLineStart => true
    case LineStart => LineAt(src, i) || CrLfTail(src, i)
    case Continuation => !LineAt(src, i)
  }

  /** So does an element's; a placeable starts at its brace, and the indent of a text
      is all the blanks that start its line. */
  predicate Placed(src: string, el: Placeholder) {
    && Stands(src, el.start, el.role)
    && (el.Hole? ==> At(src, el.start, '{') && el.start < el.end <= |src| && src[el.end - 1] == '}')
    && (el.Slice? && el.role == LineStart ==> el.start + el.indent == SkipBlankInline(src, el.start))
  }

  ghost predicate AllPlaced(src: string, els: seq<Placeholder>) {
    forall k | 0 <= k < |els| :: Placed(src, els[k])
  }

  /** For placeables and non-blank texts the role says just whether they start a line
      of their own. */
  lemma {:induction false} RoleIsLine(src: string, el: Placeholder)
    requires Placed(src, el) && ValidPlaceholder(src, el) && NonBlank(src, el)
    ensures OwnLine(src, el) <==> el.role == LineStart
    ensures ColumnZero(src, el) <==> el.Hole? && el.role == LineStart
  {
  }

  lemma {:induction false} TextStands(src: string, j: nat)
    requires j < |src| && src[j] != '{' && TextAt(src, j).Ok?
    ensures Stands(src, TextAt(src, j).pos, AfterText(TextAt(src, j).value.term))
  {
  }

  function AfterText(t: Termination): Role {
    match t { case ByLineFeed => LineStart case ByCrLf => LineStart case _ => Continuation }
  }

  lemma {:induction false} BlanksThenText(src: string, i: nat, j: nat)
    requires i < j < |src| && (forall k | i <= k < j :: src[k] == ' ') && TextAt(src, j).Ok?
    ensures Stands(src, TextAt(src, j).pos, AfterText(TextAt(src, j).value.term))
  {
  }

  lemma {:induction false} StartStands(src: string, i: nat)
    requires i <= |src|
    ensures Stands(src, PatternStart(src, i).0, PatternStart(src, i).1)
  {
    var j := SkipBlankInline(src, i);
    if SkipEol(src, j) != j {
      BlockStands(src, SkipEol(src, j));
    }
  }

  lemma {:induction false} BlockStands(src: string, i: nat)
    requires LineAt(src, i) && i <= |src|
    ensures LineAt(src, SkipBlankBlock(src, i))
    decreases |src| - i
  {
    var j := SkipBlankInline(src, i);
    if SkipEol(src, j) != j {
      BlockStands(src, SkipEol(src, j));
    }
  }

  // ----- the scan keeps its measurements -----

  ghost predicate Measured(src: string, i: nat, scan: Scan) {
    && ValidScan(src, scan)
    && AllPlaced(src, scan.elements) && Stands(src, i, scan.role)
    && IsCommonIndent(src, scan.elements, scan.commonIndent)
    && IsLastNonBlank(src, scan.elements, scan.lastNonBlank)
    && InOrder(scan.elements, i)
  }

  lemma {:induction false} TextBlankness(src: string, i: nat, j: nat, role: Role)
    requires i <= j < |src| && TextAt(src, j).Ok? && TextAt(src, j).value.end > j
    ensures NonBlankSlice(src, Slice(i, TextAt(src, j).value.end, j - i, role)) <==> !TextAt(src, j).value.blank
  {
    var t, stop := TextAt(src, j).value, TextStop(src, j);
    var last := if t.term == ByLineFeed then t.end - 1 else t.end;
    assert t.blank == BlankText(src[j..last]);
    if !t.blank {
      var k :| 0 <= k < last - j && src[j..last][k] != ' ';
      assert src[j + k] != ' ' && src[j + k] != '\n';
    } else {
      forall k | j <= k < last ensures src[k] == ' ' {
        assert src[j..last][k - j] == ' ';
      }
    }
  }

  /** A hole joins: it is non-blank, and at column zero it clears the indent. */
  lemma {:induction false} AddHoleMeasured(src: string, i: nat, scan: Scan, e: Expression, end: nat)
    requires At(src, i, '{') && Measured(src, i, scan) && i < end <= |src| && WfPlaceable(src, e) && src[end - 1] == '}'
    ensures Measured(src, end, AddHole(scan, i, end, e))
  {
    var el := Hole(i, end, e, scan.role);
    RoleIsLine(src, el);
    if scan.role == LineStart {
      assert ColumnZero(src, (scan.elements + [el])[|scan.elements|]);
    } else {
      SameIndent(src, scan.elements, el, scan.commonIndent);
    }
    JoinedMeasured(src, i, scan, el, AddHole(scan, i, end, e).commonIndent, Continuation, end);
  }

  /** An element that is neither a column-zero placeable nor a non-blank line
      leaves the common indent as it is. */
  lemma {:induction false} SameIndent(src: string, els: seq<Placeholder>, el: Placeholder, c: int)
    requires IsCommonIndent(src, els, c) && !ColumnZero(src, el) && !NonBlankLine(src, el)
    ensures IsCommonIndent(src, els + [el], c)
  {
    var els' := els + [el];
    assert forall k | 0 <= k < |els| :: els'[k] == els[k];
    if exists k :: 0 <= k < |els| && ColumnZero(src, els[k]) {
      var k :| 0 <= k < |els| && ColumnZero(src, els[k]);
      assert ColumnZero(src, els'[k]);
    } else {
      assert !exists k :: 0 <= k < |els'| && ColumnZero(src, els'[k]);
      if exists k :: 0 <= k < |els| && NonBlankLine(src, els[k]) {
        var k :| 0 <= k < |els| && NonBlankLine(src, els[k]) && els[k].indent == c;
        assert NonBlankLine(src, els'[k]);
      }
    }
  }

  /** A non-blank line can only lower the common indent, to its own. */
  lemma {:induction false} LowerIndent(src: string, els: seq<Placeholder>, el: Placeholder, c: int)
    requires IsCommonIndent(src, els, c) && NonBlankLine(src, el)
    ensures IsCommonIndent(src, els + [el], if c < 0 || el.indent < c then el.indent else c)
  {
    var els', n := els + [el], |els|;
    assert forall k | 0 <= k < n :: els'[k] == els[k];
    assert NonBlankLine(src, els'[n]);
    if exists k :: 0 <= k < n && ColumnZero(src, els[k]) {
      var k :| 0 <= k < n && ColumnZero(src, els[k]);
      assert ColumnZero(src, els'[k]);
    } else {
      assert !exists k :: 0 <= k < |els'| && ColumnZero(src, els'[k]);
      if c >= 0 && c <= el.indent {
        var k :| 0 <= k < n && NonBlankLine(src, els[k]) && els[k].indent == c;
        assert NonBlankLine(src, els'[k]) && els'[k].indent == c;
      }
    }
  }

  lemma {:induction false} AddSliceMeasured(src: string, i: nat, scan: Scan, j: nat)
    requires i <= j < |src| && src[i] != '{' && Measured(src, i, scan) && TextAt(src, j).Ok?
    requires j == if scan.role == LineStart then SkipBlankInline(src, i) else i
    ensures Measured(src, TextAt(src, j).pos, AddSlice(scan, i, j - i, TextAt(src, j).value))
  {
    var t, end := TextAt(src, j).value, TextAt(src, j).pos;
    var after, role := AddSlice(scan, i, j - i, t), AfterText(t.term);
    CursorStands(src, i, j);
    if j == t.end {
      MovedMeasured(src, i, scan, role, end);
      assert after == scan.(role := role);
    } else {
      var el := Slice(i, t.end, j - i, scan.role);
      SliceMeasured(src, i, scan, j);
      JoinedMeasured(src, i, scan, el, after.commonIndent, role, end);
      assert after.elements == scan.elements + [el];
    }
  }

  lemma {:induction false} CursorStands(src: string, i: nat, j: nat)
    requires i <= j < |src| && src[i] != '{' && (forall k | i <= k < j :: src[k] == ' ') && TextAt(src, j).Ok?
    ensures Stands(src, TextAt(src, j).pos, AfterText(TextAt(src, j).value.term))
  {
    if i < j {
      BlanksThenText(src, i, j);
    } else {
      TextStands(src, j);
    }
  }

  /** The scan moves on without a new element. */
  lemma {:induction false} MovedMeasured(src: string, i: nat, scan: Scan, role: Role, end: nat)
    requires Measured(src, i, scan) && i <= end && Stands(src, end, role)
    ensures Measured(src, end, scan.(role := role))
  {
  }

  /** The scan moves on with a new element. */
  lemma {:induction false} JoinedMeasured(src: string, i: nat, scan: Scan, el: Placeholder, c: int, role: Role,
                                         end: nat)
    requires Measured(src, i, scan) && i <= end && Stands(src, end, role)
    requires ValidPlaceholder(src, el) && Placed(src, el) && i <= el.start <= el.end <= end
    requires IsCommonIndent(src, scan.elements + [el], c)
    ensures
      var last := if NonBlank(src, el) then |scan.elements| else scan.lastNonBlank;
      Measured(src, end, Scan(scan.elements + [el], last, c, role))
  {
    OrderedAppend(scan.elements, i, el, end);
    LastAppend(src, scan.elements, scan.lastNonBlank, el);
  }

  /** What the new element is, and the common indent with it. */
  lemma {:induction false} SliceMeasured(src: string, i: nat, scan: Scan, j: nat)
    requires i <= j < |src| && Measured(src, i, scan) && TextAt(src, j).Ok? && TextAt(src, j).value.end != j
    requires j == if scan.role == LineStart then SkipBlankInline(src, i) else i
    ensures
      var t := TextAt(src, j).value;
      var el := Slice(i, t.end, j - i, scan.role);
      && ValidPlaceholder(src, el) && Placed(src, el) && (NonBlank(src, el) <==> !t.blank)
      && IsCommonIndent(src, scan.elements + [el], AddSlice(scan, i, j - i, t).commonIndent)
  {
    var t := TextAt(src, j).value;
    var el := Slice(i, t.end, j - i, scan.role);
    SliceFits(src, i, scan, j);
    SliceIndent(src, scan, i, j - i, t, el);
  }

  lemma {:induction false} SliceFits(src: string, i: nat, scan: Scan, j: nat)
    requires i <= j < |src| && Measured(src, i, scan) && TextAt(src, j).Ok? && TextAt(src, j).value.end != j
    requires j == if scan.role == LineStart then SkipBlankInline(src, i) else i
    ensures
      var t := TextAt(src, j).value;
      var el := Slice(i, t.end, j - i, scan.role);
      ValidPlaceholder(src, el) && Placed(src, el) && (NonBlank(src, el) <==> !t.blank)
  {
    TextBlankness(src, i, j, scan.role);
    SliceValid(src, scan, i, j);
  }

  /** The common indent follows the new slice. */
  lemma {:induction false} SliceIndent(src: string, scan: Scan, start: nat, indent: nat, t: TextSlice, el: Placeholder)
    requires IsCommonIndent(src, scan.elements, scan.commonIndent) && start + indent != t.end
    requires el == Slice(start, t.end, indent, scan.role) && ValidPlaceholder(src, el) && Placed(src, el)
    requires NonBlank(src, el) <==> !t.blank
    ensures IsCommonIndent(src, scan.elements + [el], AddSlice(scan, start, indent, t).commonIndent)
  {
    if NonBlank(src, el) {
      RoleIsLine(src, el);
    }
    if NonBlankLine(src, el) {
      LowerIndent(src, scan.elements, el, scan.commonIndent);
    } else {
      SameIndent(src, scan.elements, el, scan.commonIndent);
    }
  }

  lemma {:induction false} OrderedAppend(els: seq<Placeholder>, i: nat, el: Placeholder, end: nat)
    requires InOrder(els, i) && i <= el.start <= el.end <= end
    ensures InOrder(els + [el], end)
  {
  }

  lemma {:induction false} LastAppend(src: string, els: seq<Placeholder>, n: int, el: Placeholder)
    requires IsLastNonBlank(src, els, n)
    ensures IsLastNonBlank(src, els + [el], if NonBlank(src, el) then |els| else n)
  {
  }

  lemma {:induction false} ScanMeasured(src: string, i: nat, scan: Scan)
    requires i <= |src| && Measured(src, i, scan)
    ensures
      var r := PatternScan(src, i, scan);
      r.Ok? ==> exists end: nat :: Measured(src, end, r.value)
    decreases |src| - i
  {
    var r := PatternScan(src, i, scan);
    if r.Ok? && i < |src| {
      var step := NextElement(src, i, scan);
      if step.value.Go? {
        Adds(src, i, scan, step.pos, step.value.scan);
        StepMeasured(src, i, scan, step.pos, step.value.scan);
        ScanMeasured(src, step.pos, step.value.scan);
      } else {
        assert Measured(src, i, r.value);
      }
    } else if r.Ok? {
      assert Measured(src, i, r.value);
    }
  }

  /** The scan has gone from i to end over a placeable. */
  ghost predicate AddsHole(src: string, i: nat, scan: Scan, end: nat, after: Scan, e: Expression) {
    && At(src, i, '{') && i < end <= |src| && src[end - 1] == '}' && WfPlaceable(src, e)
    && after == AddHole(scan, i, end, e)
  }

  /** The scan has gone from i to end over a text that starts at j. */
  ghost predicate AddsText(src: string, i: nat, scan: Scan, end: nat, after: Scan, j: nat) {
    && i <= j < |src| && src[i] != '{' && j == (if scan.role == LineStart then SkipBlankInline(src, i) else i)
    && var t := TextAt(src, j);
       t.Ok? && end == t.pos && after == AddSlice(scan, i, j - i, t.value)
  }

  /** One of the two is what a round of the element loop does. */
  ghost predicate Added(src: string, i: nat, scan: Scan, end: nat, after: Scan) {
    || (exists e :: AddsHole(src, i, scan, end, after, e))
    || exists j: nat :: AddsText(src, i, scan, end, after, j)
  }

  lemma {:induction false} Adds(src: string, i: nat, scan: Scan, end: nat, after: Scan)
    requires i < |src| && scan.Valid() && NextElement(src, i, scan) == Ok(Go(after), end)
    ensures Added(src, i, scan, end, after)
  {
    if src[i] == '{' {
      PlaceableWf(src, i + 1);
      PlaceableCloses(src, i + 1);
      assert AddsHole(src, i, scan, end, after, PlaceableAt(src, i + 1).value);
    } else {
      assert AddsText(src, i, scan, end, after, if scan.role == LineStart then SkipBlankInline(src, i) else i);
    }
  }

  lemma {:induction false} StepMeasured(src: string, i: nat, scan: Scan, end: nat, after: Scan)
    requires Measured(src, i, scan)
    requires Added(src, i, scan, end, after)
    ensures Measured(src, end, after)
  {
    if e :| AddsHole(src, i, scan, end, after, e) {
      AddHoleMeasured(src, i, scan, e, end);
    } else {
      var j: nat :| AddsText(src, i, scan, end, after, j);
      AddSliceMeasured(src, i, scan, j);
    }
  }

  lemma {:induction false} PlaceableCloses(src: string, i: nat)
    requires i <= |src| && PlaceableAt(src, i).Ok?
    ensures src[PlaceableAt(src, i).pos - 1] == '}'
  {
    var e := ExpressionAt(src, SkipBlank(src, i));
    assert Expect(src, SkipBlankInline(src, e.pos), '}').Ok?;
  }

  // ----- the pattern -----

  /** The placeholders a pattern at i was finished from. */
  ghost function ScanOf(src: string, i: nat): Res<Scan>
    requires i <= |src|
  {
    var (j, role) := PatternStart(src, i);
    PatternScan(src, j, Scan([], -1, -1, role))
  }

  /** The pattern that was read: it ends at the last non-blank element; its text
      elements are in-bounds slices in source order; each text that starts a line of
      the source has lost exactly the lesser of its indent and the common indent,
      which is the least indent of the lines starting with non-blank text, or zero
      when a placeable stands at column zero; the last text is trimmed. */
  lemma {:induction false} PatternText(src: string, i: nat, p: Pattern)
    requires i <= |src| && PatternAt(src, i).Ok? && PatternAt(src, i).value == Some(p)
    ensures ScanOf(src, i).Ok? && FinishedFrom(src, ScanOf(src, i).value, p)
  {
    var (j, role) := PatternStart(src, i);
    StartStands(src, i);
    assert Measured(src, j, Scan([], -1, -1, role));
    ScanMeasured(src, j, Scan([], -1, -1, role));
    var scan := ScanOf(src, i).value;
    var end: nat :| Measured(src, end, scan);
    FinishText(src, end, scan, p);
  }

  ghost predicate FinishedFrom(src: string, scan: Scan, p: Pattern) {
    var els, c, last := scan.elements, scan.commonIndent, scan.lastNonBlank;
    && ValidScan(src, scan)
    && AllPlaced(src, els)
    && IsLastNonBlank(src, els, last)
    && IsCommonIndent(src, els, c)
    && Disjoint(els)
    && |p.elements| == last + 1
    && AllRendered(src, scan, p.elements)
  }

  ghost predicate AllRendered(src: string, scan: Scan, out: seq<Element>)
    requires scan.Valid() && |out| == scan.lastNonBlank + 1
  {
    forall k | 0 <= k < |out| :: Rendered(src, scan.elements[k], scan.commonIndent, k == scan.lastNonBlank, out[k])
  }

  lemma {:induction false} FinishText(src: string, end: nat, scan: Scan, p: Pattern)
    requires Measured(src, end, scan) && Finish(src, scan) == Some(p)
    ensures FinishedFrom(src, scan, p)
  {
    forall k | 0 <= k <= scan.lastNonBlank
      ensures Rendered(src, scan.elements[k], scan.commonIndent, k == scan.lastNonBlank, p.elements[k])
    {
      FinishedDedented(src, scan.elements[k], scan.commonIndent, k == scan.lastNonBlank);
    }
  }

  ghost predicate Rendered(src: string, el: Placeholder, c: int, last: bool, out: Element) {
    if el.Hole? then out == Placeable(el.expr) else Dedented(src, el, c, last, out)
  }

  lemma {:induction false} FinishedDedented(src: string, el: Placeholder, c: int, last: bool)
    requires ValidPlaceholder(src, el) && Placed(src, el)
    ensures Rendered(src, el, c, last, FinishElement(src, el, c, last))
  {
  }

  /** out is the element's text after the cut; trailing white space is gone from
      the last one. */
  ghost predicate Dedented(src: string, el: Placeholder, c: int, last: bool, out: Element)
    requires el.Slice?
  {
    var cut := Cut(el, c);
    && Cutting(src, el, c, cut)
    && el.start + cut <= el.end <= |src|
    && out.Text?
    && var whole := src[el.start + cut..el.end];
       if last then Trimmed(whole, out.text) else out.text == whole
  }

  ghost predicate Trimmed(whole: string, t: string) {
    && t <= whole
    && (t != "" ==> t[|t| - 1] !in {' ', '\r', '\n'})
    && forall k | |t| <= k < |whole| :: whole[k] in {' ', '\r', '\n'}
  }

  /** How many blanks the element loses. */
  predicate Cutting(src: string, el: Placeholder, c: int, cut: nat)
    requires el.Slice?
  {
    if !OwnLine(src, el) then cut == 0
    else if c < 0 then cut == el.indent
    else cut <= el.indent && cut <= c && (cut == el.indent || cut == c)
  }

  // ----- nothing is lost -----

  lemma {:induction false} CoverMore(src: string, from: nat, i: nat, els: seq<Placeholder>, el: Placeholder, to: nat)
    requires Covered(src, from, i, els)
    requires forall k: nat | i <= k < to :: Held(src, [el], k)
    ensures Covered(src, from, to, els + [el])
  {
    var more := els + [el];
    forall k: nat | from <= k < to ensures Held(src, more, k) {
      if k < i {
        assert Held(src, els, k);
        if n :| 0 <= n < |els| && els[n].start <= k < els[n].end {
          assert more[n] == els[n];
        }
      } else {
        assert Held(src, [el], k) && more[|els|] == el;
      }
    }
  }

  /** A text takes what it passes, but for white space. */
  lemma {:induction false} TextCovers(src: string, i: nat, j: nat, role: Role)
    requires i <= j < |src| && (forall k | i <= k < j :: src[k] == ' ') && TextAt(src, j).Ok?
    ensures
      var t := TextAt(src, j);
      forall k: nat | i <= k < t.pos :: k < t.value.end || IsWhite(src, k)
    ensures
      var t := TextAt(src, j);
      t.value.blank || t.value.end == j ==> forall k: nat | i <= k < t.pos :: IsWhite(src, k)
  {
    var t, stop := TextAt(src, j).value, TextStop(src, j);
    if t.blank {
      var last := if t.term == ByLineFeed then t.end - 1 else t.end;
      forall k: nat | j <= k < last ensures src[k] == ' ' {
        assert src[j..last][k - j] == ' ';
      }
    }
  }

  lemma {:induction false} TextStepCovers(src: string, from: nat, i: nat, scan: Scan)
    requires i < |src| && src[i] != '{' && scan.Valid() && Covered(src, from, i, scan.elements)
    ensures
      var step := TextStep(src, i, scan);
      step.Ok? ==> Covered(src, from, step.pos, if step.value.Go? then step.value.scan.elements else scan.elements)
  {
    var step := TextStep(src, i, scan);
    var j := if scan.role == LineStart then SkipBlankInline(src, i) else i;
    if step.Ok? && step.value.Go? {
      var t := TextAt(src, j);
      TextCovers(src, i, j, scan.role);
      var el := Slice(i, t.value.end, j - i, scan.role);
      if step.value.scan.elements == scan.elements {
        PassedCovers(src, from, i, scan.elements, step.pos);
      } else {
        assert step.value.scan.elements == scan.elements + [el];
        forall k: nat | i <= k < t.pos ensures Held(src, [el], k) {
          assert [el][0].start <= k;
        }
        CoverMore(src, from, i, scan.elements, el, step.pos);
      }
    } else if step.Ok? {
      PassedCovers(src, from, i, scan.elements, step.pos);
    }
  }

  lemma {:induction false} PassedCovers(src: string, from: nat, i: nat, els: seq<Placeholder>, to: nat)
    requires Covered(src, from, i, els) && forall k: nat | i <= k < to :: IsWhite(src, k)
    ensures Covered(src, from, to, els)
  {
    forall k: nat | from <= k < to ensures Held(src, els, k) {
      if k < i {
        assert Held(src, els, k);
      } else {
        assert IsWhite(src, k);
      }
    }
  }

  lemma {:induction false} ScanCovers(src: string, from: nat, i: nat, scan: Scan)
    requires i <= |src| && scan.Valid() && Covered(src, from, i, scan.elements) && PatternScan(src, i, scan).Ok?
    ensures Covered(src, from, PatternScan(src, i, scan).pos, PatternScan(src, i, scan).value.elements)
    decreases |src| - i
  {
    if i < |src| {
      var step := NextElement(src, i, scan);
      if src[i] == '{' {
        var el := Hole(i, step.pos, PlaceableAt(src, i + 1).value, scan.role);
        forall k: nat | i <= k < step.pos ensures Held(src, [el], k) {
          assert [el][0].start <= k < [el][0].end;
        }
        CoverMore(src, from, i, scan.elements, el, step.pos);
      } else {
        TextStepCovers(src, from, i, scan);
      }
      if step.value.Go? {
        ScanCovers(src, from, step.pos, step.value.scan);
      }
    }
  }

  /** Every character between where a pattern begins and where it ends is in one of
      the texts or placeables that it was made of, or is white space. */
  lemma {:induction false} PatternCovers(src: string, i: nat, p: Pattern)
    requires i <= |src| && PatternAt(src, i).Ok? && PatternAt(src, i).value == Some(p)
    ensures ScanOf(src, i).Ok? && |p.elements| <= |ScanOf(src, i).value.elements|
    ensures Covered(src, i, PatternAt(src, i).pos, ScanOf(src, i).value.elements[..|p.elements|])
  {
    PatternText(src, i, p);
    var (j, role) := PatternStart(src, i);
    var scan, end := ScanOf(src, i).value, PatternAt(src, i).pos;
    StartCovers(src, i);
    ScanCovers(src, i, j, Scan([], -1, -1, role));
    var kept := scan.elements[..|p.elements|];
    forall k: nat | i <= k < end ensures Held(src, kept, k) {
      assert Held(src, scan.elements, k);
      if n :| 0 <= n < |scan.elements| && scan.elements[n].start <= k < scan.elements[n].end {
        if n < |p.elements| {
          assert kept[n] == scan.elements[n];
        } else {
          BlankElement(src, scan.elements[n], k);
        }
      }
    }
  }

  lemma {:induction false} StartCovers(src: string, i: nat)
    requires i <= |src|
    ensures Covered(src, i, PatternStart(src, i).0, [])
  {
  }

  lemma {:induction false} BlankElement(src: string, el: Placeholder, k: nat)
    requires ValidPlaceholder(src, el) && !NonBlank(src, el) && el.start <= k < el.end
    ensures IsWhite(src, k)
  {
  }

  // ----- relative indentation -----

  /** The blanks a text starts with. */
  function Blanks(s: string): (n: nat)
    ensures n <= |s| && (forall k | 0 <= k < n :: s[k] == ' ') && (n < |s| ==> s[n] != ' ')
  {
    if s == "" || s[0] != ' ' then 0 else 1 + Blanks(s[1..])
  }

  lemma {:induction false} BlanksAre(s: string, n: nat)
    requires n < |s| && (forall k | 0 <= k < n :: s[k] == ' ') && s[n] != ' '
    ensures Blanks(s) == n
  {
  }

  /** A text that starts a line with non-blank text keeps all of the line's indent but
      the common one, unless trimming has left nothing of it. */
  lemma {:induction false} LineBlanks(src: string, el: Placeholder, c: nat, last: bool, out: Element)
    requires ValidPlaceholder(src, el) && Placed(src, el) && NonBlankLine(src, el) && c <= el.indent
    requires Dedented(src, el, c, last, out)
    ensures Blanks(src[el.start..]) == el.indent
    ensures out.text != "" ==> Blanks(out.text) == el.indent - c
  {
    RoleIsLine(src, el);
    var from := el.start + el.indent;
    FirstNonBlank(src, el);
    assert src[el.start..][el.indent] == src[from];
    BlanksAre(src[el.start..], el.indent);
    var whole, t := src[el.start + c..el.end], out.text;
    assert whole[el.indent - c] == src[from];
    assert forall n | 0 <= n < el.indent - c :: whole[n] == ' ';
    if t != "" {
      assert t[|t| - 1] == whole[|t| - 1];
      BlanksAre(t, el.indent - c);
    }
  }

  lemma {:induction false} FirstNonBlank(src: string, el: Placeholder)
    requires ValidPlaceholder(src, el) && Placed(src, el) && NonBlankSlice(src, el) && el.role == LineStart
    ensures el.start + el.indent < el.end <= |src| && src[el.start + el.indent] != ' '
    ensures forall k | el.start <= k < el.start + el.indent :: src[k] == ' '
  {
  }

  /** Relative indentation survives: two texts of a pattern that start lines of the
      source with non-blank text, and that trimming has not emptied, differ in the
      blanks they start with just as those lines do. Unless a placeable stands at
      column zero some such text starts with no blank. */
  lemma {:induction false} RelativeIndent(src: string, i: nat, p: Pattern)
    requires i <= |src| && PatternAt(src, i).Ok? && PatternAt(src, i).value == Some(p)
    ensures ScanOf(src, i).Ok? && |p.elements| <= |ScanOf(src, i).value.elements|
    ensures
      var els := ScanOf(src, i).value.elements;
      forall j, k | 0 <= j < |p.elements| && 0 <= k < |p.elements| && KeptLine(src, els[j], p.elements[j]) &&
                    KeptLine(src, els[k], p.elements[k]) ::
        Blanks(p.elements[j].text) - Blanks(p.elements[k].text) ==
        Blanks(src[els[j].start..]) - Blanks(src[els[k].start..])
    ensures
      var els := ScanOf(src, i).value.elements;
      (exists j :: 0 <= j < |els| && NonBlankLine(src, els[j])) ==>
        || (exists j :: 0 <= j < |els| && ColumnZero(src, els[j]))
        || exists j :: 0 <= j < |p.elements| && NonBlankLine(src, els[j]) && p.elements[j].Text? &&
                       Blanks(p.elements[j].text) == 0
  {
    PatternText(src, i, p);
    var scan := ScanOf(src, i).value;
    var els, c := scan.elements, scan.commonIndent;
    forall j | 0 <= j < |p.elements| && NonBlankLine(src, els[j])
      ensures c >= 0 && p.elements[j].Text? && Blanks(src[els[j].start..]) == els[j].indent
      ensures p.elements[j].text != "" ==> Blanks(p.elements[j].text) == els[j].indent - c
    {
      assert Rendered(src, els[j], c, j == scan.lastNonBlank, p.elements[j]);
      CommonIndentBelow(src, els, c, j);
      LineBlanks(src, els[j], c, j == scan.lastNonBlank, p.elements[j]);
    }
    if (exists j :: 0 <= j < |els| && NonBlankLine(src, els[j])) &&
       !exists j :: 0 <= j < |els| && ColumnZero(src, els[j])
    {
      var m :| 0 <= m < |els| && NonBlankLine(src, els[m]) && els[m].indent == c;
      assert m <= scan.lastNonBlank;
      assert Blanks(p.elements[m].text) == 0;
    }
  }

  /** A text that starts a line of the source with non-blank text, and of which
      something is left. */
  ghost predicate KeptLine(src: string, el: Placeholder, out: Element) {
    NonBlankLine(src, el) && el.start <= |src| && out.Text? && out.text != ""
  }

  lemma {:induction false} CommonIndentBelow(src: string, els: seq<Placeholder>, c: int, j: nat)
    requires IsCommonIndent(src, els, c) && j < |els| && NonBlankLine(src, els[j])
    ensures 0 <= c <= els[j].indent
  {
  }
}
