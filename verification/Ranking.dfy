/** What negotiation promises: a declarative ranking in filtering mode, and
    conservation, bounds and language agreement in every mode. */
module Ranking {
  import opened LangIds
  import opened Negotiation

  // ----- filtering is a stable ranking -----

  /** All comparisons of all requests, in order. */
  function AllTests(requested: seq<LangID>): seq<Test> {
    if requested == [] then [] else Tests(requested[0]) + AllTests(requested[1..])
  }

  /** The place of the first comparison that accepts a locale, |ts| for none. */
  function Rank(ts: seq<Test>, loc: LangID): (n: nat)
    ensures n <= |ts|
    ensures forall k | 0 <= k < n :: !ts[k].Accepts(loc)
    ensures n < |ts| ==> ts[n].Accepts(loc)
    decreases ts
  {
    if ts == [] || ts[0].Accepts(loc) then 0 else Rank(ts[1..], loc) + 1
  }

  /** The locales of a given rank, in their order. */
  function OfRank(ts: seq<Test>, locs: seq<LangID>, n: nat): seq<LangID> {
    if locs == [] then []
    else (if Rank(ts, locs[0]) == n then [locs[0]] else []) + OfRank(ts, locs[1..], n)
  }

  /** The locales of rank n and higher, lower ranks first, each rank in order. */
  function Ranked(ts: seq<Test>, locs: seq<LangID>, n: nat): seq<LangID>
    decreases |ts| - n
  {
    if n >= |ts| then [] else OfRank(ts, locs, n) + Ranked(ts, locs, n + 1)
  }

  /** The locales a comparison leaves behind are one rank closer. */
  lemma {:induction false} KeptRank(t: Test, ts: seq<Test>, locs: seq<LangID>, n: nat)
    ensures OfRank(ts, Kept(t, Filtering, locs), n) == OfRank([t] + ts, locs, n + 1)
    ensures Taken(t, Filtering, locs) == OfRank([t] + ts, locs, 0)
    decreases locs
  {
    if locs != [] {
      KeptRank(t, ts, locs[1..], n);
      assert ([t] + ts)[1..] == ts;
    }
  }

  lemma {:induction false} KeptRanked(t: Test, ts: seq<Test>, locs: seq<LangID>, n: nat)
    requires n <= |ts|
    ensures Ranked(ts, Kept(t, Filtering, locs), n) == Ranked([t] + ts, locs, n + 1)
    decreases |ts| - n
  {
    if n < |ts| {
      KeptRank(t, ts, locs, n);
      KeptRanked(t, ts, locs, n + 1);
    }
  }

  /** One comparison: what it takes comes first, then the ranking of what it keeps. */
  lemma {:induction false} RankedStep(locs: seq<LangID>, ts: seq<Test>)
    requires ts != []
    ensures Ranked(ts, locs, 0) == Taken(ts[0], Filtering, locs) + Ranked(ts[1..], Kept(ts[0], Filtering, locs), 0)
  {
    assert ts == [ts[0]] + ts[1..];
    RankedCons(ts[0], ts[1..], locs);
  }

  lemma {:induction false} RankedCons(t: Test, rest: seq<Test>, locs: seq<LangID>)
    ensures Ranked([t] + rest, locs, 0) == Taken(t, Filtering, locs) + Ranked(rest, Kept(t, Filtering, locs), 0)
  {
    KeptRank(t, rest, locs, 0);
    KeptRanked(t, rest, locs, 0);
  }

  lemma {:induction false} FilteringRanks(s: State, ts: seq<Test>)
    ensures RunTests(s, ts, Filtering).supported == s.supported + Ranked(ts, s.remaining, 0)
    ensures RunTests(s, ts, Filtering).stopped == s.stopped
    decreases ts
  {
    if ts != [] {
      FilteringRanks(Step(s, ts[0], Filtering), ts[1..]);
      RankedStep(s.remaining, ts);
    }
  }

  lemma {:induction false} TestsConcat(s: State, ts: seq<Test>, us: seq<Test>)
    ensures RunTests(RunTests(s, ts, Filtering), us, Filtering) == RunTests(s, ts + us, Filtering)
    decreases ts
  {
    if ts == [] {
      assert ts + us == us;
    } else {
      assert (ts + us)[1..] == ts[1..] + us;
      TestsConcat(Step(s, ts[0], Filtering), ts[1..], us);
    }
  }

  lemma {:induction false} RequestsAreTests(s: State, requested: seq<LangID>)
    requires !s.stopped
    ensures RunRequests(s, requested, Filtering) == RunTests(s, AllTests(requested), Filtering)
    decreases requested
  {
    if requested != [] {
      var s' := RunTests(s, Tests(requested[0]), Filtering);
      FilteringRanks(s, Tests(requested[0]));
      RequestsAreTests(s', requested[1..]);
      TestsConcat(s, Tests(requested[0]), AllTests(requested[1..]));
    }
  }

  /** In filtering mode the result is exactly the available locales that some
      comparison of some request accepts, stably ordered by the first one. */
  lemma {:induction false} FilteringIsRanking(requested: seq<LangID>, available: seq<LangID>)
    ensures FilterMatches(requested, available, Filtering) == Ranked(AllTests(requested), available, 0)
  {
    RequestsAreTests(State([], available, false), requested);
    FilteringRanks(State([], available, false), AllTests(requested));
  }

  // ----- a lookup takes the head of the ranking -----

  function First(locs: seq<LangID>): seq<LangID> { if locs == [] then [] else [locs[0]] }

  /** The list less the first occurrence of a locale. */
  function Without(locs: seq<LangID>, loc: LangID): seq<LangID> {
    if locs == [] then []
    else if locs[0] == loc then locs[1..]
    else [locs[0]] + Without(locs[1..], loc)
  }

  /** The list less what was picked from it. */
  function Left(locs: seq<LangID>, pick: seq<LangID>): seq<LangID> {
    if pick == [] then locs else Without(locs, pick[0])
  }

  lemma {:induction false} TakenFirst(t: Test, mode: Strategy, locs: seq<LangID>)
    requires mode != Filtering
    ensures Taken(t, mode, locs) == First(Taken(t, Filtering, locs))
    ensures Kept(t, mode, locs) == Left(locs, Taken(t, mode, locs))
    ensures Taken(t, Filtering, locs) == [] ==> Kept(t, Filtering, locs) == locs
    decreases locs
  {
    if locs != [] && !t.Accepts(locs[0]) {
      TakenFirst(t, mode, locs[1..]);
      assert locs == [locs[0]] + locs[1..];
      if Taken(t, mode, locs) != [] {
        TakenAccepted(t, mode, locs[1..]);
      }
    }
  }

  lemma {:induction false} TakenAccepted(t: Test, mode: Strategy, locs: seq<LangID>)
    ensures Taken(t, mode, locs) != [] ==> t.Accepts(Taken(t, mode, locs)[0])
    decreases locs
  {
    if locs != [] && !t.Accepts(locs[0]) {
      TakenAccepted(t, mode, locs[1..]);
    }
  }

  lemma {:induction false} LookupRanks(locs: seq<LangID>, ts: seq<Test>)
    ensures
      var r := RunTests(State([], locs, false), ts, Lookup);
      && r.supported == First(Ranked(ts, locs, 0))
      && (r.stopped <==> r.supported != [])
      && (!r.stopped ==> r == State([], locs, false))
    decreases ts
  {
    if ts != [] {
      var t, rest, s := ts[0], ts[1..], State([], locs, false);
      TakenFirst(t, Lookup, locs);
      RankedStep(locs, ts);
      if Taken(t, Filtering, locs) == [] {
        assert Step(s, t, Lookup) == s;
        LookupRanks(locs, rest);
      } else {
        assert Step(s, t, Lookup).supported == First(Ranked(ts, locs, 0));
      }
    }
  }

  /** Comparisons in two parts, the second reached only when the first found nothing. */
  lemma {:induction false} LookupConcat(s: State, ts: seq<Test>, us: seq<Test>)
    requires !s.stopped
    ensures
      var r := RunTests(s, ts, Lookup);
      RunTests(s, ts + us, Lookup) == if r.stopped then r else RunTests(r, us, Lookup)
    decreases ts
  {
    if ts == [] {
      assert ts + us == us;
    } else {
      assert (ts + us)[1..] == ts[1..] + us;
      var next := Step(s, ts[0], Lookup);
      if next.supported == s.supported {
        LookupConcat(next, ts[1..], us);
      }
    }
  }

  lemma {:induction false} LookupIsTests(locs: seq<LangID>, requested: seq<LangID>)
    ensures
      var s := State([], locs, false);
      RunRequests(s, requested, Lookup) == RunTests(s, AllTests(requested), Lookup)
    decreases requested
  {
    if requested != [] {
      var s := State([], locs, false);
      LookupRanks(locs, Tests(requested[0]));
      LookupConcat(s, Tests(requested[0]), AllTests(requested[1..]));
      LookupIsTests(locs, requested[1..]);
    }
  }

  /** A lookup finds the first of what filtering finds, or nothing when that is
      nothing. */
  lemma {:induction false} LookupIsFirst(requested: seq<LangID>, available: seq<LangID>)
    ensures FilterMatches(requested, available, Lookup) == First(FilterMatches(requested, available, Filtering))
  {
    FilteringIsRanking(requested, available);
    LookupIsTests(available, requested);
    LookupRanks(available, AllTests(requested));
  }

  // ----- matching takes the head of each request's own ranking -----

  lemma {:induction false} MatchingRanks(s: State, ts: seq<Test>)
    requires !s.stopped
    ensures
      var pick := First(Ranked(ts, s.remaining, 0));
      RunTests(s, ts, Matching) == State(s.supported + pick, Left(s.remaining, pick), false)
    decreases ts
  {
    if ts != [] {
      var t, locs := ts[0], s.remaining;
      TakenFirst(t, Matching, locs);
      RankedStep(locs, ts);
      if Taken(t, Filtering, locs) == [] {
        assert Step(s, t, Matching) == s;
        MatchingRanks(s, ts[1..]);
      } else {
        assert First(Ranked(ts, locs, 0)) == Taken(t, Matching, locs);
      }
    }
  }

  /** Each request in turn gets the best ranked of the locales still there, and takes
      it away. */
  function MatchEach(requested: seq<LangID>, locs: seq<LangID>): seq<LangID>
    decreases requested
  {
    if requested == [] then []
    else
      var pick := First(Ranked(Tests(requested[0]), locs, 0));
      pick + MatchEach(requested[1..], Left(locs, pick))
  }

  lemma {:induction false} RequestsMatchEach(s: State, requested: seq<LangID>)
    requires !s.stopped
    ensures RunRequests(s, requested, Matching).supported == s.supported + MatchEach(requested, s.remaining)
    decreases requested
  {
    if requested != [] {
      MatchingRanks(s, Tests(requested[0]));
      RequestsMatchEach(RunTests(s, Tests(requested[0]), Matching), requested[1..]);
    }
  }

  /** Matching gives each request the head of its own ranking of what the requests
      before it have left. */
  lemma {:induction false} MatchingIsEach(requested: seq<LangID>, available: seq<LangID>)
    ensures FilterMatches(requested, available, Matching) == MatchEach(requested, available)
  {
    RequestsMatchEach(State([], available, false), requested);
  }

  // ----- membership -----

  lemma {:induction false} OfRankMembers(ts: seq<Test>, locs: seq<LangID>, n: nat, loc: LangID)
    ensures loc in OfRank(ts, locs, n) <==> loc in locs && Rank(ts, loc) == n
    decreases locs
  {
    if locs != [] {
      OfRankMembers(ts, locs[1..], n, loc);
    }
  }

  lemma {:induction false} RankedMembers(ts: seq<Test>, locs: seq<LangID>, n: nat, loc: LangID)
    ensures loc in Ranked(ts, locs, n) <==> loc in locs && n <= Rank(ts, loc) < |ts|
    decreases |ts| - n
  {
    if n < |ts| {
      OfRankMembers(ts, locs, n, loc);
      RankedMembers(ts, locs, n + 1, loc);
      assert Ranked(ts, locs, n) == OfRank(ts, locs, n) + Ranked(ts, locs, n + 1);
    }
  }

  /** Membership: a locale is in the result if and only if it is available and
      some request accepts it. */
  lemma {:induction false} FilteringMembers(requested: seq<LangID>, available: seq<LangID>, loc: LangID)
    ensures loc in FilterMatches(requested, available, Filtering) <==>
            loc in available && exists r, t :: r in requested && t in Tests(r) && t.Accepts(loc)
  {
    var ts := AllTests(requested);
    FilteringIsRanking(requested, available);
    RankedMembers(ts, available, 0, loc);
    AllTestsMembers(requested);
    if Rank(ts, loc) < |ts| {
      assert ts[Rank(ts, loc)] in ts;
    }
    if r, t :| r in requested && t in Tests(r) && t.Accepts(loc) {
      assert t in ts;
    }
  }

  lemma {:induction false} AllTestsMembers(requested: seq<LangID>)
    ensures forall t :: t in AllTests(requested) <==> exists r :: r in requested && t in Tests(r)
    decreases requested
  {
    if requested != [] {
      AllTestsMembers(requested[1..]);
      assert forall r :: r in requested <==> r == requested[0] || r in requested[1..];
    }
  }

  // ----- every mode -----

  lemma {:induction false} TakenKept(t: Test, mode: Strategy, locs: seq<LangID>)
    ensures multiset(Taken(t, mode, locs)) + multiset(Kept(t, mode, locs)) == multiset(locs)
    ensures mode != Filtering ==> |Taken(t, mode, locs)| <= 1
    ensures forall loc | loc in Taken(t, mode, locs) :: loc in locs && t.Accepts(loc)
    decreases locs
  {
    if locs != [] {
      TakenKept(t, mode, locs[1..]);
      assert locs == [locs[0]] + locs[1..];
    }
  }

  lemma {:induction false} TestsConserve(s: State, ts: seq<Test>, mode: Strategy)
    ensures
      var s' := RunTests(s, ts, mode);
      && multiset(s'.supported) + multiset(s'.remaining) == multiset(s.supported) + multiset(s.remaining)
      && |s.supported| <= |s'.supported|
      && (mode != Filtering ==> |s'.supported| <= |s.supported| + 1)
      && (mode == Lookup && !s.stopped ==> (s'.stopped <==> |s'.supported| > |s.supported|))
      && (mode == Matching && !s.stopped ==> !s'.stopped)
    decreases ts
  {
    if ts != [] {
      TakenKept(ts[0], mode, s.remaining);
      TestsConserve(Step(s, ts[0], mode), ts[1..], mode);
    }
  }

  /** Result and remainder together are the available locales; a lookup keeps at
      most one, matching at most one a request. */
  lemma {:induction false} RequestsConserve(s: State, requested: seq<LangID>, mode: Strategy)
    requires s.stopped ==> mode == Lookup
    ensures
      var s' := RunRequests(s, requested, mode);
      && multiset(s'.supported) + multiset(s'.remaining) == multiset(s.supported) + multiset(s.remaining)
      && (mode == Matching ==> |s'.supported| <= |s.supported| + |requested|)
      && (mode == Lookup ==> |s'.supported| <= |s.supported| + if s.stopped then 0 else 1)
    decreases requested
  {
    if requested != [] && !s.stopped {
      TestsConserve(s, Tests(requested[0]), mode);
      var s' := RunTests(s, Tests(requested[0]), mode);
      FilteringNeverStops(s, Tests(requested[0]), mode);
      RequestsConserve(s', requested[1..], mode);
    }
  }

  lemma {:induction false} FilteringNeverStops(s: State, ts: seq<Test>, mode: Strategy)
    requires !s.stopped
    ensures mode == Filtering ==> !RunTests(s, ts, mode).stopped
    decreases ts
  {
    if ts != [] && mode == Filtering {
      FilteringNeverStops(Step(s, ts[0], mode), ts[1..], mode);
    }
  }

  lemma {:induction false} Conserved(requested: seq<LangID>, available: seq<LangID>, mode: Strategy)
    ensures
      var s := RunRequests(State([], available, false), requested, mode);
      && FilterMatches(requested, available, mode) == s.supported
      && multiset(s.supported) + multiset(s.remaining) == multiset(available)
      && (mode == Lookup ==> |s.supported| <= 1)
      && (mode == Matching ==> |s.supported| <= |requested|)
  {
    RequestsConserve(State([], available, false), requested, mode);
  }

  // ----- languages -----

  lemma {:induction false} MaximizedKeepsLanguage(id: LangID)
    requires Maximized(id).Some? && Solid(id.language)
    ensures Maximized(id).value.language == id.language
  {
    if Likely(TextOf(id)).Some? {
      FirstSubtag(id);
    }
  }

  /** The text of an identifier begins with its language. */
  lemma {:induction false} FirstSubtag(id: LangID)
    requires Likely(TextOf(id)).Some? && Solid(id.language)
    ensures id.language == Likely(TextOf(id)).value.0
  {
    var t, lang := TextOf(id), Language(id);
    TextStart(id);
    assert |t| == 2 || (|t| == 5 && t[2] == '-' && t[0] != '-' && t[1] != '-' && t[3] != '-' && t[4] != '-');
    assert lang == t[..|lang|];
    assert |lang| != 0;
    assert forall k | 0 <= k < |lang| :: lang[k] == t[k] && !IsSeparator(lang[k]);
    assert |lang| == 2 && lang[0] == t[0] && lang[1] == t[1];
  }

  lemma {:induction false} TextStart(id: LangID)
    ensures Language(id) <= TextOf(id)
    ensures |TextOf(id)| > |Language(id)| ==> TextOf(id)[|Language(id)|] == '-'
  {
  }

  /** A comparison with a request that names a language only accepts that language,
      or a locale that names none. */
  lemma {:induction false} AcceptedLanguage(want: LangID, t: Test, loc: LangID)
    requires t in Tests(want) && t.Accepts(loc) && loc.language != "" && Solid(want.language)
    ensures loc.language == want.language
  {
    if Maximized(want).Some? {
      MaximizedKeepsLanguage(want);
    }
    var noRegion := OrSelf(want).(variants := [], region := "");
    if Maximized(noRegion).Some? {
      MaximizedKeepsLanguage(noRegion);
    }
  }

  lemma {:induction false} TestsLanguages(s: State, want: LangID, ts: seq<Test>, mode: Strategy, allowed: set<string>)
    requires forall t | t in ts :: t in Tests(want)
    requires want.language in allowed && Solid(want.language)
    requires forall loc | loc in s.remaining :: loc.language != ""
    requires forall loc | loc in s.supported :: loc.language in allowed
    ensures
      var s' := RunTests(s, ts, mode);
      && (forall loc | loc in s'.remaining :: loc.language != "")
      && (forall loc | loc in s'.supported :: loc.language in allowed)
    decreases ts
  {
    if ts != [] {
      var s' := Step(s, ts[0], mode);
      TakenKept(ts[0], mode, s.remaining);
      KeptMembers(ts[0], mode, s.remaining);
      forall loc | loc in Taken(ts[0], mode, s.remaining) ensures loc.language in allowed {
        AcceptedLanguage(want, ts[0], loc);
      }
      TestsLanguages(s', want, ts[1..], mode, allowed);
    }
  }

  lemma {:induction false} KeptMembers(t: Test, mode: Strategy, locs: seq<LangID>)
    ensures forall loc | loc in Kept(t, mode, locs) :: loc in locs
    decreases locs
  {
    if locs != [] {
      KeptMembers(t, mode, locs[1..]);
    }
  }

  lemma {:induction false} RequestsLanguages(s: State, requested: seq<LangID>, mode: Strategy, allowed: set<string>)
    requires forall r | r in requested :: r.language in allowed && Solid(r.language)
    requires forall loc | loc in s.remaining :: loc.language != ""
    requires forall loc | loc in s.supported :: loc.language in allowed
    ensures forall loc | loc in RunRequests(s, requested, mode).supported :: loc.language in allowed
    decreases requested
  {
    if requested != [] && !s.stopped {
      TestsLanguages(s, requested[0], Tests(requested[0]), mode, allowed);
      RequestsLanguages(RunTests(s, Tests(requested[0]), mode), requested[1..], mode, allowed);
    }
  }

  lemma {:induction false} ParsedLanguageSolid(s: string)
    requires Parse(s).Some?
    ensures Solid(Parse(s).value.language)
  {
    ParsedCanonical(s);
  }

  /** When every available locale names a language, no match has one that was not
      requested. A parsed request's language holds no separator. */
  lemma {:induction false} MatchedLanguages(requested: seq<LangID>, available: seq<LangID>, mode: Strategy, loc: LangID)
    requires forall a | a in available :: a.language != ""
    requires forall r | r in requested :: Solid(r.language)
    requires loc in FilterMatches(requested, available, mode)
    ensures exists r :: r in requested && r.language == loc.language
  {
    RequestsLanguages(State([], available, false), requested, mode, set r | r in requested :: r.language);
  }
}
