/** How good a match is, by the subtags it shares with the request, and what negotiation
    returns with its default. */
module NegotiationLaws {
  import opened Options
  import opened LangIds
  import opened Negotiation
  import opened Ranking

  // ----- the six comparisons -----

  /** Every subtag of the locale is the wanted one or unset. */
  predicate Within(loc: LangID, want: LangID) {
    && (loc.language == "" || loc.language == want.language)
    && (loc.script == "" || loc.script == want.script)
    && (loc.region == "" || loc.region == want.region)
    && (loc.variants == [] || loc.variants == want.variants)
  }

  /** Every subtag is the same, or unset on one side. */
  predicate Overlaps(loc: LangID, want: LangID) {
    && (loc.language == "" || want.language == "" || loc.language == want.language)
    && (loc.script == "" || want.script == "" || loc.script == want.script)
    && (loc.region == "" || want.region == "" || loc.region == want.region)
    && (loc.variants == [] || want.variants == [] || loc.variants == want.variants)
  }

  function Likelier(id: LangID): LangID {
    match Maximized(id)
    case Some(full) => full
    case None => id
  }

  /** How close a locale comes to a request, 0 the closest and 6 not at all: the same;
      within the request; within it with likely subtags; overlapping that, variants
      aside; within the likely form for no region; overlapping that, region aside. */
  function Grade(want: LangID, loc: LangID): nat {
    if loc == want then 0
    else if Within(loc, want) then 1
    else if want.language == "" then 6
    else LooserGrade(want, loc)
  }

  function LooserGrade(want: LangID, loc: LangID): nat {
    if Maximized(want).Some? && Within(loc, Likelier(want)) then 2 else LastGrade(Likelier(want), loc)
  }

  function LastGrade(likely: LangID, loc: LangID): nat {
    var anywhere := LangID(likely.language, likely.script, "", []);
    var there := Likelier(anywhere);
    if Overlaps(loc, LangID(likely.language, likely.script, likely.region, [])) then 3
    else if Maximized(anywhere).Some? && Within(loc, there) then 4
    else if Overlaps(loc, LangID(there.language, there.script, "", there.variants)) then 5
    else 6
  }

  /** The grades that the comparisons of a request stand for, in order. */
  function Grades(want: LangID): seq<nat> {
    [0, 1] + if want.language == "" then [] else LooserGradesOf(want)
  }

  function LooserGradesOf(want: LangID): seq<nat> {
    (if Maximized(want).Some? then [2] else []) + LastGradesOf(Likelier(want))
  }

  function LastGradesOf(likely: LangID): seq<nat> {
    [3] + (if Maximized(LangID(likely.language, likely.script, "", [])).Some? then [4] else []) + [5]
  }

  lemma {:induction false} RankUnfolds(ts: seq<Test>, more: seq<Test>, loc: LangID)
    requires |ts| == 1
    ensures Rank(ts + more, loc) == if ts[0].Accepts(loc) then 0 else Rank(more, loc) + 1
  {
    assert (ts + more)[1..] == more;
  }

  lemma {:induction false} AcceptsIs(t: Test, loc: LangID)
    ensures !t.selfRange && !t.otherRange ==> (t.Accepts(loc) <==> loc == t.req)
    ensures t.selfRange && !t.otherRange ==> (t.Accepts(loc) <==> Within(loc, t.req))
    ensures t.selfRange && t.otherRange ==> (t.Accepts(loc) <==> Overlaps(loc, t.req))
  {
  }

  /** The grade that a rank stands for. */
  function GradeAt(grades: seq<nat>, rank: nat): nat { if rank < |grades| then grades[rank] else 6 }

  ghost predicate Rising(grades: seq<nat>) { forall j, k | 0 <= j < k < |grades| :: grades[j] < grades[k] }

  /** The ranking is by grade: a locale's rank among the comparisons of a request is the
      place of its grade, and a locale that none accepts has grade 6. */
  lemma {:induction false} RankIsGrade(want: LangID, loc: LangID)
    ensures |Grades(want)| == |Tests(want)| && Rising(Grades(want))
    ensures Grade(want, loc) == GradeAt(Grades(want), Rank(Tests(want), loc))
  {
    GradesRise(want);
    if want.language == "" {
      assert Tests(want) == Both(want, []) && Grades(want) == [0] + ([1] + []);
      BothGrades(want, [], [], loc);
    } else {
      LooserGrades(want, loc);
      assert Tests(want) == Both(want, LooserTests(want)) && Grades(want) == [0] + ([1] + LooserGradesOf(want));
      BothGrades(want, LooserTests(want), LooserGradesOf(want), loc);
    }
  }

  /** The two comparisons that every request goes through, and the looser ones. */
  function Both(want: LangID, looser: seq<Test>): seq<Test> {
    [Test(want, false, false)] + ([Test(want, true, false)] + looser)
  }

  lemma {:induction false} BothGrades(want: LangID, looser: seq<Test>, grades: seq<nat>, loc: LangID)
    ensures GradeAt([0] + ([1] + grades), Rank(Both(want, looser), loc)) ==
            if loc == want then 0 else if Within(loc, want) then 1 else GradeAt(grades, Rank(looser, loc))
  {
    var first, second := Test(want, false, false), Test(want, true, false);
    RankUnfolds([first], [second] + looser, loc);
    RankUnfolds([second], looser, loc);
    AcceptsIs(first, loc);
    AcceptsIs(second, loc);
    GradeAfter(1, grades, Rank(looser, loc));
    GradeAfter(0, [1] + grades, Rank([second] + looser, loc));
  }

  lemma {:induction false} LooserGrades(want: LangID, loc: LangID)
    ensures |LooserGradesOf(want)| == |LooserTests(want)|
    ensures LooserGrade(want, loc) == GradeAt(LooserGradesOf(want), Rank(LooserTests(want), loc))
  {
    var likely := Likelier(want);
    var last, grades := LastTests(likely), LastGradesOf(likely);
    assert likely == OrSelf(want);
    LastGrades(likely, loc);
    if Maximized(want).Some? {
      var t := Test(likely, true, false);
      AcceptsIs(t, loc);
      RankUnfolds([t], last, loc);
      GradeAfter(2, grades, Rank(last, loc));
      assert LooserTests(want) == [t] + last && LooserGradesOf(want) == [2] + grades;
    } else {
      assert LooserTests(want) == last && LooserGradesOf(want) == grades;
    }
  }

  lemma {:induction false} GradeAfter(first: nat, grades: seq<nat>, rank: nat)
    ensures GradeAt([first] + grades, 0) == first && GradeAt([first] + grades, rank + 1) == GradeAt(grades, rank)
  {
  }

  lemma {:induction false} GradesRise(want: LangID)
    ensures Rising(Grades(want))
  {
    var looser := if want.language == "" then [] else LooserGradesOf(want);
    LooserRise(want);
    Rises(1, looser);
    Rises(0, [1] + looser);
    assert Grades(want) == [0] + ([1] + looser);
  }

  lemma {:induction false} LooserRise(want: LangID)
    ensures Rising(LooserGradesOf(want)) && LooserGradesOf(want) != [] && LooserGradesOf(want)[0] > 1
  {
    var last := LastGradesOf(Likelier(want));
    assert Rising(last) && last[0] > 2;
    Rises(2, last);
  }

  lemma {:induction false} Rises(first: nat, grades: seq<nat>)
    requires Rising(grades) && (grades != [] ==> first < grades[0])
    ensures Rising([first] + grades)
  {
    var more := [first] + grades;
    forall j, k | 0 <= j < k < |more| ensures more[j] < more[k] {
      assert more[k] == grades[k - 1] && (j > 0 ==> more[j] == grades[j - 1]);
    }
  }

  lemma {:induction false} LastGrades(likely: LangID, loc: LangID)
    ensures |LastGradesOf(likely)| == |LastTests(likely)|
    ensures LastGrade(likely, loc) == GradeAt(LastGradesOf(likely), Rank(LastTests(likely), loc))
  {
    var plain := likely.(variants := []);
    var anywhere := plain.(region := "");
    var three, five := Test(plain, true, true), Test(OrSelf(anywhere).(region := ""), true, true);
    assert anywhere == LangID(likely.language, likely.script, "", []) && OrSelf(anywhere) == Likelier(anywhere);
    AcceptsIs(three, loc);
    AcceptsIs(five, loc);
    RankUnfolds([five], [], loc);
    assert [five] + [] == [five];
    if Maximized(anywhere).Some? {
      var four := Test(Maximized(anywhere).value, true, false);
      AcceptsIs(four, loc);
      assert LastTests(likely) == [three] + ([four] + [five]);
      RankUnfolds([three], [four] + [five], loc);
      RankUnfolds([four], [five], loc);
    } else {
      assert LastTests(likely) == [three] + [five];
      RankUnfolds([three], [five], loc);
    }
  }

  // ----- the default -----

  /** A lookup yields one identifier: the best ranked of the available ones, else the
      default. */
  lemma {:induction false} LookupYields(requested: seq<LangID>, available: seq<LangID>, def: LangID)
    ensures
      var ranked := Ranked(AllTests(requested), available, 0);
      Negotiate(requested, available, def, Lookup) == [if ranked == [] then def else ranked[0]]
  {
    LookupIsFirst(requested, available);
    FilteringIsRanking(requested, available);
  }

  /** Filtering yields the whole ranking, matching the best for each request in turn;
      the default comes last, and only when it is not there yet. */
  lemma {:induction false} OthersYield(requested: seq<LangID>, available: seq<LangID>, def: LangID)
    ensures EndsWithDefault(Ranked(AllTests(requested), available, 0), def,
                            Negotiate(requested, available, def, Filtering))
    ensures EndsWithDefault(MatchEach(requested, available), def, Negotiate(requested, available, def, Matching))
  {
    FilteringIsRanking(requested, available);
    MatchingIsEach(requested, available);
  }

  predicate EndsWithDefault(matches: seq<LangID>, def: LangID, result: seq<LangID>) {
    (def in matches && result == matches) || (def !in matches && result == matches + [def])
  }
}
