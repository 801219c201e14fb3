/** Locale negotiation. Each requested identifier is tried through a list of ever
    looser comparisons, and matched locales move from the candidates to the
    result. In filtering mode that amounts to a short declarative ranking. */
module Negotiation {
  import opened Options
  import opened LangIds

  datatype Strategy = Filtering | Matching | Lookup

  // ----- one comparison -----

  predicate SubtagMatches(a: string, b: string, selfRange: bool, otherRange: bool) {
    (selfRange && a == "") || (otherRange && b == "") || a == b
  }

  /** Each subtag is equal, or left unset by a side that is taken as a range. */
  predicate Matches(id: LangID, other: LangID, selfRange: bool, otherRange: bool) {
    && SubtagMatches(id.language, other.language, selfRange, otherRange)
    && SubtagMatches(id.script, other.script, selfRange, otherRange)
    && SubtagMatches(id.region, other.region, selfRange, otherRange)
    && ((selfRange && id.variants == []) || (otherRange && other.variants == []) || id.variants == other.variants)
  }

  /** A requested form and how loosely it is compared. */
  datatype Test = Test(req: LangID, selfRange: bool, otherRange: bool) {
    predicate Accepts(loc: LangID) { Matches(loc, req, selfRange, otherRange) }
  }

  const REGION_LANGUAGES: set<string> :=
    {"az", "bg", "cs", "de", "es", "fi", "fr", "hu", "it", "lt", "lv", "nl", "pl", "ro", "ru"}

  /** The likely script and region of the identifiers the table lists by their text. */
  function Likely(text: string): Option<(string, string, string)> {
    if text == "en" then Some(("en", "Latn", "US"))
    else if text == "fr" then Some(("fr", "Latn", "FR"))
    else if text == "sr" then Some(("sr", "Cyrl", "SR"))
    else if text == "sr-RU" then Some(("sr", "Latn", "SR"))
    else if text == "az-IR" then Some(("az", "Arab", "IR"))
    else if text == "zh-GB" then Some(("zh", "Hant", "GB"))
    else if text == "zh-US" then Some(("zh", "Hant", "US"))
    else None
  }

  /** The identifier with likely subtags, None when there are none to add. */
  function Maximized(id: LangID): Option<LangID> {
    var full := Likely(TextOf(id));
    if full.Some? then Some(LangID(full.value.0, full.value.1, full.value.2, id.variants))
    else if id.language in REGION_LANGUAGES then Some(id.(region := Upper(id.language)))
    else None
  }

  function OrSelf(id: LangID): LangID { if Maximized(id).Some? then Maximized(id).value else id }

  /** The comparisons a request goes through, strictest first. */
  function Tests(want: LangID): seq<Test> {
    [Test(want, false, false), Test(want, true, false)] + if want.language == "" then [] else LooserTests(want)
  }

  /** With likely subtags; then without variants; then without region, with likely
      subtags and without. */
  function LooserTests(want: LangID): seq<Test> {
    (if Maximized(want).Some? then [Test(OrSelf(want), true, false)] else []) + LastTests(OrSelf(want))
  }

  function LastTests(likely: LangID): seq<Test> {
    var plain := likely.(variants := []);
    var noRegion := plain.(region := "");
    [Test(plain, true, true)] +
    (if Maximized(noRegion).Some? then [Test(Maximized(noRegion).value, true, false)] else []) +
    [Test(OrSelf(noRegion).(region := ""), true, true)]
  }

  // ----- the shrinking candidate list -----

  /** The candidates a comparison takes: all that it accepts, or only the first. */
  function Taken(t: Test, mode: Strategy, locs: seq<LangID>): seq<LangID> {
    if locs == [] then []
    else if t.Accepts(locs[0]) then [locs[0]] + if mode == Filtering then Taken(t, mode, locs[1..]) else []
    else Taken(t, mode, locs[1..])
  }

  function Kept(t: Test, mode: Strategy, locs: seq<LangID>): seq<LangID> {
    if locs == [] then []
    else if t.Accepts(locs[0]) then if mode == Filtering then Kept(t, mode, locs[1..]) else locs[1..]
    else [locs[0]] + Kept(t, mode, locs[1..])
  }

  /** One more candidate at the end. */
  lemma {:induction false} AddCandidate(t: Test, mode: Strategy, locs: seq<LangID>, loc: LangID)
    ensures Taken(t, mode, locs + [loc]) == Taken(t, mode, locs) + (if Takes(t, mode, locs, loc) then [loc] else [])
    ensures Kept(t, mode, locs + [loc]) == Kept(t, mode, locs) + (if Takes(t, mode, locs, loc) then [] else [loc])
    decreases locs
  {
    if locs == [] {
      assert [] + [loc] == [loc] && [loc][1..] == [];
    } else {
      assert (locs + [loc])[1..] == locs[1..] + [loc];
      if !t.Accepts(locs[0]) {
        AddCandidate(t, mode, locs[1..], loc);
      } else if mode == Filtering {
        AddCandidate(t, mode, locs[1..], loc);
        assert Takes(t, mode, locs, loc) == Takes(t, mode, locs[1..], loc);
      }
    }
  }

  /** The comparison takes loc after having been through locs. */
  predicate Takes(t: Test, mode: Strategy, locs: seq<LangID>, loc: LangID) {
    t.Accepts(loc) && (mode == Filtering || Taken(t, mode, locs) == [])
  }

  /** The result so far, the candidates left, and whether the search is over. */
  datatype State = State(supported: seq<LangID>, remaining: seq<LangID>, stopped: bool)

  function Step(s: State, t: Test, mode: Strategy): State {
    State(s.supported + Taken(t, mode, s.remaining), Kept(t, mode, s.remaining), s.stopped)
  }

  /** A request's comparisons in order; outside filtering the first that matches
      ends the request, and for a lookup the search. */
  function RunTests(s: State, ts: seq<Test>, mode: Strategy): State
    decreases ts
  {
    if ts == [] then s
    else
      var s' := Step(s, ts[0], mode);
      if mode != Filtering && s'.supported != s.supported then s'.(stopped := mode == Lookup)
      else RunTests(s', ts[1..], mode)
  }

  function RunRequests(s: State, requested: seq<LangID>, mode: Strategy): State
    decreases requested
  {
    if requested == [] || s.stopped then s
    else RunRequests(RunTests(s, Tests(requested[0]), mode), requested[1..], mode)
  }

  function FilterMatches(requested: seq<LangID>, available: seq<LangID>, mode: Strategy): seq<LangID> {
    RunRequests(State([], available, false), requested, mode).supported
  }

  /** The default is appended when absent, and for a lookup when nothing matched. */
  function Negotiate(requested: seq<LangID>, available: seq<LangID>, def: LangID, mode: Strategy): seq<LangID> {
    var supported := FilterMatches(requested, available, mode);
    if (if mode == Lookup then supported == [] else def !in supported) then supported + [def] else supported
  }

  // ----- as the program runs it -----

  datatype Control = Proceed | NextRequest | StopAll

  class Filter {
    const mode: Strategy
    var supported: seq<LangID>
    var remaining: seq<LangID>
    var req: LangID

    constructor (mode: Strategy, available: seq<LangID>)
      ensures this.mode == mode && supported == [] && remaining == available
    {
      this.mode, supported, remaining, req := mode, [], available, EMPTY;
    }

    /** One comparison of the current form against every candidate. */
    method Try(selfRange: bool, otherRange: bool) returns (c: Control)
      modifies this
      ensures req == old(req)
      ensures var t := Test(req, selfRange, otherRange);
              supported == old(supported) + Taken(t, mode, old(remaining)) && remaining == Kept(t, mode, old(remaining))
      ensures c == if mode == Filtering || supported == old(supported) then Proceed
                   else if mode == Matching then NextRequest else StopAll
    {
      var found := false;
      var kept: seq<LangID> := [];
      var locs := remaining;
      ghost var t := Test(req, selfRange, otherRange);
      for k := 0 to |locs|
        invariant remaining == locs && req == old(req)
        invariant supported == old(supported) + Taken(t, mode, locs[..k])
        invariant kept == Kept(t, mode, locs[..k])
        invariant found <==> Taken(t, mode, locs[..k]) != []
      {
        var loc := locs[k];
        AddCandidate(t, mode, locs[..k], loc);
        assert locs[..k + 1] == locs[..k] + [loc];
        if mode != Filtering && found {
          kept := kept + [loc];
          continue;
        }
        if Matches(loc, req, selfRange, otherRange) {
          found := true;
          supported := supported + [loc];
          continue;
        }
        kept := kept + [loc];
      }
      assert locs[..|locs|] == locs;
      remaining := kept;
      if !found || mode == Filtering {
        return Proceed;
      }
      return if mode == Matching then NextRequest else StopAll;
    }

    method Maximize() returns (changed: bool)
      modifies this
      ensures supported == old(supported) && remaining == old(remaining)
      ensures changed == Maximized(old(req)).Some? && req == OrSelf(old(req))
    {
      var full := Likely(TextOf(req));
      if full.None? {
        if req.language in REGION_LANGUAGES {
          req := req.(region := Upper(req.language));
          return true;
        }
        return false;
      }
      req := LangID(full.value.0, full.value.1, full.value.2, req.variants);
      return true;
    }

    ghost function Now(stopped: bool): State
      reads this
    {
      State(supported, remaining, stopped)
    }

    /** One request, through its comparisons. */
    method Request(want: LangID) returns (c: Control)
      modifies this
      ensures Now(c == StopAll) == RunTests(old(Now(false)), Tests(want), mode)
    {
      req := want;
      ghost var ts, start := Tests(want), Now(false);
      c := Try(false, false);
      Unroll(start, ts, mode);
      if c != Proceed {
        return;
      }
      ghost var s1 := Now(false);
      c := Try(true, false);
      Unroll(s1, ts[1..], mode);
      if c != Proceed {
        return;
      }
      ghost var s2 := Now(false);
      if req.language == "" {
        assert ts[1..][1..] == [];
        return NextRequest;
      }
      c := Looser(want);
      assert ts[1..][1..] == LooserTests(want);
    }

    /** The comparisons with likely subtags, without variants, and without region. */
    method Looser(want: LangID) returns (c: Control)
      requires req == want && want.language != ""
      modifies this
      ensures Now(c == StopAll) == RunTests(old(Now(false)), LooserTests(want), mode)
    {
      ghost var s, ts := Now(false), LooserTests(want);
      var likely := Maximize();
      if likely {
        c := Try(true, false);
        Unroll(s, ts, mode);
        if c != Proceed {
          return;
        }
        s, ts := Now(false), ts[1..];
      }
      assert ts == LastTests(OrSelf(want));
      req := req.(variants := []);
      c := Try(true, true);
      Unroll(s, ts, mode);
      if c != Proceed {
        return;
      }
      s, ts := Now(false), ts[1..];
      req := req.(region := "");
      likely := Maximize();
      if likely {
        c := Try(true, false);
        Unroll(s, ts, mode);
        if c != Proceed {
          return;
        }
        s, ts := Now(false), ts[1..];
      }
      req := req.(region := "");
      c := Try(true, true);
      Unroll(s, ts, mode);
      assert ts[1..] == [];
    }
  }

  lemma {:induction false} Unroll(s: State, ts: seq<Test>, mode: Strategy)
    requires ts != []
    ensures RunTests(s, ts, mode) ==
            var s' := Step(s, ts[0], mode);
            if mode != Filtering && s'.supported != s.supported then s'.(stopped := mode == Lookup)
            else RunTests(s', ts[1..], mode)
  {
  }

  lemma {:induction false} UnrollRequests(s: State, requested: seq<LangID>, k: nat, mode: Strategy)
    requires k < |requested| && !s.stopped
    ensures
      var s' := RunTests(s, Tests(requested[k]), mode);
      RunRequests(s, requested[k..], mode) == if s'.stopped then s' else RunRequests(s', requested[k + 1..], mode)
  {
    assert requested[k..][0] == requested[k] && requested[k..][1..] == requested[k + 1..];
  }

  method FilterLoop(requested: seq<LangID>, available: seq<LangID>, mode: Strategy) returns (supported: seq<LangID>)
    ensures supported == FilterMatches(requested, available, mode)
  {
    var f := new Filter(mode, available);
    ghost var all := RunRequests(f.Now(false), requested, mode);
    assert requested[0..] == requested;
    var k := 0;
    while k < |requested|
      invariant 0 <= k <= |requested| && f.mode == mode
      invariant RunRequests(f.Now(false), requested[k..], mode).supported == all.supported
    {
      ghost var next := RunTests(f.Now(false), Tests(requested[k]), mode);
      UnrollRequests(f.Now(false), requested, k, mode);
      var c := f.Request(requested[k]);
      assert f.Now(c == StopAll) == next;
      if c == StopAll {
        assert all.supported == next.supported;
        break;
      }
      k := k + 1;
    }
    supported := f.supported;
  }

  method NegotiateLanguages(requested: seq<LangID>, available: seq<LangID>, def: LangID, mode: Strategy)
    returns (supported: seq<LangID>)
    ensures supported == Negotiate(requested, available, def, mode)
  {
    supported := FilterLoop(requested, available, mode);
    if mode == Lookup {
      if |supported| == 0 {
        supported := supported + [def];
      }
      return;
    }
    if def !in supported {
      supported := supported + [def];
    }
  }
}
