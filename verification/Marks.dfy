/** Which placeables are set apart by isolation marks, for every bundle, cyclic ones
    included: a formatted text is the texts of its elements in a row, and the text of
    each is given by the kind of expression it holds. */
module Marks {
  import opened FluentSyntax
  import opened Options
  import opened FluentValues
  import opened ResolverSpec

  /** How a reference is spelled where the limit cut its rendering short. */
  function Spelled(e: Expression): string
    decreases e
  {
    match e
    case Select(selector, _) => SpelledInline(selector)
    case Inline(x) => SpelledInline(x)
  }

  function SpelledInline(e: InlineExpr): string
    decreases e
  {
    match e
    case MessageRef(id, attr) => if attr == "" then id else id + "." + attr
    case TermRef(id, attr, _) => "-" + if attr == "" then id else id + "." + attr
    case VariableRef(id) => "$" + id
    case FunctionRef(id, _) => id + "()"
    case NestedPlaceable(x) => Spelled(x)
    case StringLiteral(_) => ""
    case NumberLiteral(_) => ""
  }

  lemma {:induction false} SpelledIsError(e: Expression)
    ensures Spelled(e) == ErrorText(e)
    decreases e
  {
    var x := if e.Inline? then e.e else e.selector;
    if x.NestedPlaceable? {
      SpelledIsError(x.expr);
    }
  }

  /** The state when the i-th element's turn comes. */
  function StateBefore(b: Store, args: Args, p: Pattern, pid: PatternId, i: nat, st: St): (r: St)
    requires i <= |p.elements| && Counted(st) && Stack(b, st.traveled)
    ensures Counted(r) && Stack(b, r.traveled) && (st.dirty ==> r.dirty)
    decreases i
  {
    if i == 0 then st
    else
      var before := StateBefore(b, args, p, pid, i - 1, st);
      if before.dirty then before
      else
        EntryStack(b, pid);
        WriteElement(b, args, p, pid, i - 1, before).0
  }

  lemma {:induction false} EntryStack(b: Store, pid: PatternId)
    ensures Stack(b, [pid]) && Stack(b, [])
  {
  }

  /** What the element adds to the text. Past the limit of 100 nothing is added. A
      placeable adds its expression's rendering, and when the limit cut that short, its
      spelling in braces; in a pattern of several elements U+2068 and U+2069 go around
      selects, variables, numbers, calls and nested placeables, and around nothing else. */
  ghost predicate PieceOf(b: Store, args: Args, p: Pattern, pid: PatternId, i: nat, st: St, piece: string)
    requires i < |p.elements| && Counted(st) && Stack(b, st.traveled)
  {
    if st.dirty then piece == ""
    else
      match p.elements[i]
      case Text(text) => piece == text
      case Placeable(e) =>
        if st.placeables == 100 then piece == ""
        else
          EntryStack(b, pid);
          var (after, rendered) := WriteExpression(b, args, e, Entered(pid, st));
          var body := if after.dirty then rendered + "{" + Spelled(e) + "}" else rendered;
          var apart := ['\U{2068}'] + body + ['\U{2069}'];
          if |p.elements| == 1 then piece == body
          else
            match e
            case Select(_, _) => piece == apart
            case Inline(VariableRef(_)) => piece == apart
            case Inline(NumberLiteral(_)) => piece == apart
            case Inline(FunctionRef(_, _)) => piece == apart
            case Inline(NestedPlaceable(_)) => piece == apart
            case Inline(MessageRef(_, _)) => piece == body
            case Inline(TermRef(_, _, _)) => piece == body
            case Inline(StringLiteral(_)) => piece == body
  }

  lemma {:induction false} ElementAdds(b: Store, args: Args, p: Pattern, pid: PatternId, i: nat, st: St)
    requires i < |p.elements| && Counted(st) && Stack(b, st.traveled) && !st.dirty
    ensures PieceOf(b, args, p, pid, i, st, WriteElement(b, args, p, pid, i, st).1)
  {
    if p.elements[i].Placeable? && st.placeables < 100 {
      EntryStack(b, pid);
      MarkedIs(b, args, p.elements[i].expr, Entered(pid, st));
    }
  }

  lemma {:induction false} MarkedIs(b: Store, args: Args, e: Expression, st: St)
    requires Counted(st) && Stack(b, st.traveled) && st.traveled != []
    ensures
      var (after, rendered) := WriteExpression(b, args, e, st);
      WriteMarked(b, args, e, st) == (after, if after.dirty then rendered + "{" + Spelled(e) + "}" else rendered)
  {
    var (after, rendered) := WriteExpression(b, args, e, st);
    SpelledIsError(e);
    assert rendered + "" == rendered;
    assert rendered + ("{" + Spelled(e) + "}") == rendered + "{" + Spelled(e) + "}";
  }

  function Concat(pieces: seq<string>): string {
    if pieces == [] then "" else pieces[0] + Concat(pieces[1..])
  }

  /** The pieces of the elements from the i-th on. */
  ghost predicate PiecesFrom(b: Store, args: Args, p: Pattern, pid: PatternId, i: nat, st: St, pieces: seq<string>)
    requires i <= |p.elements| && Counted(st) && Stack(b, st.traveled)
  {
    && |pieces| == |p.elements| - i
    && forall k | i <= k < |p.elements| ::
         PieceOf(b, args, p, pid, k, StateBefore(b, args, p, pid, k, st), pieces[k - i])
  }

  lemma {:induction false} ElementsAdd(b: Store, args: Args, p: Pattern, pid: PatternId, i: nat, st: St)
    returns (pieces: seq<string>)
    requires i <= |p.elements| && Counted(st) && Stack(b, st.traveled)
    ensures PiecesFrom(b, args, p, pid, i, st, pieces)
    ensures Concat(pieces) == WriteElements(b, args, p, pid, i, StateBefore(b, args, p, pid, i, st)).1
    decreases |p.elements| - i
  {
    if i == |p.elements| {
      pieces := [];
    } else {
      var here := StateBefore(b, args, p, pid, i, st);
      var rest := ElementsAdd(b, args, p, pid, i + 1, st);
      var piece := if here.dirty then "" else WriteElement(b, args, p, pid, i, here).1;
      if !here.dirty {
        ElementAdds(b, args, p, pid, i, here);
      }
      pieces := [piece] + rest;
      OnePieceMore(b, args, p, pid, i, st, piece, rest);
    }
  }

  lemma {:induction false} OnePieceMore(b: Store, args: Args, p: Pattern, pid: PatternId, i: nat, st: St, piece: string,
                                        rest: seq<string>)
    requires i < |p.elements| && Counted(st) && Stack(b, st.traveled)
    requires PieceOf(b, args, p, pid, i, StateBefore(b, args, p, pid, i, st), piece)
    requires PiecesFrom(b, args, p, pid, i + 1, st, rest)
    ensures PiecesFrom(b, args, p, pid, i, st, [piece] + rest) && Concat([piece] + rest) == piece + Concat(rest)
  {
    var pieces := [piece] + rest;
    assert pieces[1..] == rest;
    forall k | i <= k < |p.elements|
      ensures PieceOf(b, args, p, pid, k, StateBefore(b, args, p, pid, k, st), pieces[k - i])
    {
      assert k > i ==> pieces[k - i] == rest[k - (i + 1)];
    }
  }

  /** A formatted text is the pieces of the pattern's elements in a row. */
  lemma {:induction false} FormatPieces(b: Bundle, args: Args, p: Pattern, pid: PatternId) returns (pieces: seq<string>)
    ensures Format(b, args, p, pid) == Concat(pieces)
    ensures PiecesFrom(StoreOf(b), args, p, pid, 0, START, pieces)
  {
    pieces := ElementsAdd(StoreOf(b), args, p, pid, 0, START);
  }

  // ----- references -----

  /** A reference to nothing, or to a pattern that is being rendered, writes its spelling
      in braces and nothing else happens; any other writes the elements of the pattern
      that it names, with that on the stack meanwhile. */
  lemma {:induction false} ReferenceWrites(b: Store, args: Args, e: InlineExpr, st: St)
    requires Counted(st) && Stack(b, st.traveled) && st.traveled != [] && (e.MessageRef? || e.TermRef?)
    ensures
      var pid, (after, out) := Target(e), WriteTarget(b, args, e, st);
      if pid !in b.patterns || pid in st.traveled then after == st && out == "{" + SpelledInline(e) + "}"
      else
        && Counted(st.(traveled := st.traveled + [pid])) && Stack(b, st.traveled + [pid])
        && var (inner, text) := WriteElements(b, args, b.patterns[pid], pid, 0, st.(traveled := st.traveled + [pid]));
           after == inner.(traveled := st.traveled) && out == text
  {
    SpelledIsError(Inline(e));
    if Target(e) in b.patterns && Target(e) !in st.traveled {
      StackIsBounded(b, st.traveled);
    }
  }

  /** A message that is one placeable, and that a reference to itself, reads as the
      reference in braces: the cycle is cut at its first turn. */
  lemma {:induction false} SelfReference(b: Bundle, args: Args, p: Pattern, id: string, attr: string)
    requires p.elements == [Placeable(Inline(MessageRef(id, attr)))]
    ensures
      Format(b, args, p, Target(MessageRef(id, attr))) == "{" + (if attr == "" then id else id + "." + attr) + "}"
  {
    var e := MessageRef(id, attr);
    var pid, s := Target(e), StoreOf(b);
    EntryStack(s, pid);
    ReferenceWrites(s, args, e, Entered(pid, START));
    assert WriteExpression(s, args, Inline(e), Entered(pid, START)).1 == "{" + SpelledInline(e) + "}";
    MarkedIs(s, args, Inline(e), Entered(pid, START));
    OneElement(s, args, p, pid);
  }

  lemma {:induction false} OneElement(s: Store, args: Args, p: Pattern, pid: PatternId)
    requires |p.elements| == 1 && Counted(START) && Stack(s, START.traveled)
    ensures WriteElements(s, args, p, pid, 0, START).1 == WriteElement(s, args, p, pid, 0, START).1
  {
    var (st, out) := WriteElement(s, args, p, pid, 0, START);
    assert WriteElements(s, args, p, pid, 1, st) == (st, "");
    assert out + "" == out;
  }
}
