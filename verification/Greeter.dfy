/** The greeter's login conversation. Events come late and from conversations long
    over; the guard on the generation is what keeps them out. */
module Greeter {
  import opened Options

  datatype Event = Prompt(input: bool) | Success | Failure

  /** What happened, in order; a conversation is known by the generation it was
      started with. */
  datatype Entry =
    | Started(gen: nat, password: string)
    | Prompted(gen: nat)
    | Answered(gen: nat, text: string, typed: bool)
    | Ended(gen: nat)

  /** The screen's fields: the live conversation, the generation, whether a prompt
      waits for the entry, and the password typed and not yet answered. The log is
      what the theorems speak of. */
  datatype State = State(
    auth: Option<nat>,
    authGen: nat,
    awaiting: bool,
    pending: Option<string>,
    log: seq<Entry>)

  const START: State := State(None, 0, false, None, [])

  function Answer(st: State, text: string, typed: bool): State {
    if st.auth.None? then st else st.(log := st.log + [Answered(st.auth.value, text, typed)])
  }

  predicate IsSpace(c: char) {
    '\t' <= c <= '\r' || c == ' ' || c == '\U{85}' || c == '\U{A0}' || c == '\U{1680}' ||
    '\U{2000}' <= c <= '\U{200A}' || c == '\U{2028}' || c == '\U{2029}' || c == '\U{202F}' ||
    c == '\U{205F}' || c == '\U{3000}'
  }

  /** Nothing is left when space is trimmed off. */
  predicate Blank(name: string) { forall c | c in name :: IsSpace(c) }

  /** Enter in the password entry; connects says whether greetd can be reached. */
  function Submit(st: State, value: string, username: string, connects: bool): State {
    if st.awaiting then Answer(st.(awaiting := false), value, false)
    else if st.auth.Some? || Blank(username) || !connects then st
    else
      var gen := st.authGen + 1;
      st.(pending := Some(value), authGen := gen, auth := Some(gen), log := st.log + [Started(gen, value)])
  }

  /** An event of the conversation started as gen, handled at last. */
  function Deliver(st: State, gen: nat, ev: Event): State {
    if gen != st.authGen then st
    else
      match ev
      case Prompt(input) => if input then OnPrompt(st, gen) else st
      case Success => st
      case Failure =>
        State(None, st.authGen + 1, false, None, st.log + [Ended(gen)])
  }

  /** The typed password answers the first input prompt; later ones wait. */
  function OnPrompt(st: State, gen: nat): State {
    var seen := st.(log := st.log + [Prompted(gen)]);
    match st.pending
    case Some(password) => Answer(seen.(pending := None), password, true)
    case None => seen.(awaiting := true)
  }

  // ----- runs -----

  datatype Op = SubmitOp(value: string, username: string, connects: bool) | DeliverOp(gen: nat, ev: Event)

  /** Events come only from conversations that were started. */
  function Step(st: State, op: Op): State {
    match op
    case SubmitOp(value, username, connects) => Submit(st, value, username, connects)
    case DeliverOp(gen, ev) => if WasStarted(st.log, gen) then Deliver(st, gen, ev) else st
  }

  function After(st: State, ops: seq<Op>): State
    decreases ops
  {
    if ops == [] then st else After(Step(st, ops[0]), ops[1..])
  }

  // ----- what a log says -----

  predicate WasStarted(log: seq<Entry>, gen: nat) { exists i :: 0 <= i < |log| && log[i].Started? && log[i].gen == gen }

  datatype Kind = Starts | Ends | Prompts | Answers | TypedAnswers

  predicate Is(e: Entry, what: Kind, gen: nat) {
    e.gen == gen &&
    match what
    case Starts => e.Started?
    case Ends => e.Ended?
    case Prompts => e.Prompted?
    case Answers => e.Answered?
    case TypedAnswers => e.Answered? && e.typed
  }

  function Count(log: seq<Entry>, what: Kind, gen: nat): nat {
    if log == [] then 0
    else Count(log[..|log| - 1], what, gen) + if Is(log[|log| - 1], what, gen) then 1 else 0
  }

  lemma {:induction false} CountMore(log: seq<Entry>, e: Entry, what: Kind, gen: nat)
    ensures Count(log + [e], what, gen) == Count(log, what, gen) + if Is(e, what, gen) then 1 else 0
  {
    assert (log + [e])[..|log|] == log;
  }

  /** Started and not ended. */
  predicate Live(log: seq<Entry>, gen: nat) { Count(log, Starts, gen) > Count(log, Ends, gen) }

  /** The password typed for a conversation is what its typed answer carries. */
  ghost predicate OwnPassword(log: seq<Entry>) {
    forall i | 0 <= i < |log| && log[i].Answered? && log[i].typed ::
      exists j :: 0 <= j < i && log[j] == Started(log[i].gen, log[i].text)
  }

  // ----- the invariant -----

  ghost predicate Inv(st: State) {
    && (st.auth.Some? ==> st.auth.value == st.authGen)
    && (st.awaiting || st.pending.Some? ==> st.auth.Some?)
    && !(st.awaiting && st.pending.Some?)
    && (forall g: nat :: Counted(st, g))
    && (st.pending.Some? ==> Started(st.authGen, st.pending.value) in st.log)
    && OwnPassword(st.log)
  }

  /** The counts of one conversation. */
  ghost predicate Counted(st: State, g: nat) {
    var live := st.auth == Some(g);
    && Count(st.log, Starts, g) <= 1
    && Count(st.log, Ends, g) + (if live then 1 else 0) == Count(st.log, Starts, g)
    && (g >= st.authGen && !live ==> Count(st.log, Starts, g) == 0)
    && Count(st.log, Answers, g) + (if live && st.awaiting then 1 else 0) <= Count(st.log, Prompts, g)
    && Count(st.log, TypedAnswers, g) + (if live && st.pending.Some? then 1 else 0) <= Count(st.log, Starts, g)
  }

  function More(log: seq<Entry>, e: Entry, what: Kind, g: nat): nat {
    Count(log, what, g) + if Is(e, what, g) then 1 else 0
  }

  lemma {:induction false} CountsMore(log: seq<Entry>, e: Entry, g: nat)
    ensures Count(log + [e], Starts, g) == More(log, e, Starts, g)
    ensures Count(log + [e], Ends, g) == More(log, e, Ends, g)
    ensures Count(log + [e], Prompts, g) == More(log, e, Prompts, g)
    ensures Count(log + [e], Answers, g) == More(log, e, Answers, g)
    ensures Count(log + [e], TypedAnswers, g) == More(log, e, TypedAnswers, g)
  {
    CountMore(log, e, Starts, g);
    CountMore(log, e, Ends, g);
    CountMore(log, e, Prompts, g);
    CountMore(log, e, Answers, g);
    CountMore(log, e, TypedAnswers, g);
  }

  lemma {:induction false} StartedCounts(log: seq<Entry>, gen: nat)
    ensures WasStarted(log, gen) <==> Count(log, Starts, gen) > 0
    decreases log
  {
    if log != [] {
      var rest, last := log[..|log| - 1], log[|log| - 1];
      StartedCounts(rest, gen);
      assert Is(last, Starts, gen) ==> log[|log| - 1].Started? && log[|log| - 1].gen == gen;
      if WasStarted(log, gen) && !Is(last, Starts, gen) {
        var i :| 0 <= i < |log| && log[i].Started? && log[i].gen == gen;
        assert rest[i] == log[i];
      }
      if WasStarted(rest, gen) {
        var i :| 0 <= i < |rest| && rest[i].Started? && rest[i].gen == gen;
        assert log[i] == rest[i];
      }
    }
  }

  lemma {:induction false} OwnMore(log: seq<Entry>, e: Entry)
    requires OwnPassword(log) && (e.Answered? && e.typed ==> Started(e.gen, e.text) in log)
    ensures OwnPassword(log + [e])
  {
    var more := log + [e];
    forall i | 0 <= i < |more| && more[i].Answered? && more[i].typed
      ensures exists j :: 0 <= j < i && more[j] == Started(more[i].gen, more[i].text)
    {
      if i < |log| {
        var j :| 0 <= j < i && log[j] == Started(log[i].gen, log[i].text);
        assert more[j] == log[j];
      } else {
        var j :| 0 <= j < |log| && log[j] == Started(e.gen, e.text);
        assert more[j] == log[j];
      }
    }
  }

  lemma {:induction false} SubmitInv(st: State, value: string, username: string, connects: bool)
    requires Inv(st)
    ensures Inv(Submit(st, value, username, connects))
  {
    var after := Submit(st, value, username, connects);
    if after.log != st.log {
      var e := after.log[|st.log|];
      OwnMore(st.log, e);
      forall g: nat ensures Counted(after, g) {
        assert Counted(st, g);
        CountsMore(st.log, e, g);
      }
    }
  }

  /** Only the live conversation gets past the guard. */
  lemma {:induction false} Guarded(st: State, gen: nat)
    requires Inv(st) && WasStarted(st.log, gen)
    ensures gen == st.authGen <==> st.auth == Some(gen)
  {
    StartedCounts(st.log, gen);
    assert Counted(st, gen);
  }

  lemma {:induction false} FailureInv(st: State, gen: nat)
    requires Inv(st) && st.auth == Some(gen)
    ensures Inv(Deliver(st, gen, Failure))
  {
    var after := Deliver(st, gen, Failure);
    OwnMore(st.log, Ended(gen));
    forall g: nat ensures Counted(after, g) {
      assert Counted(st, g);
      CountsMore(st.log, Ended(gen), g);
    }
  }

  lemma {:induction false} PromptInv(st: State, gen: nat)
    requires Inv(st) && st.auth == Some(gen)
    ensures Inv(OnPrompt(st, gen))
  {
    var after := OnPrompt(st, gen);
    var seen := st.log + [Prompted(gen)];
    OwnMore(st.log, Prompted(gen));
    if st.pending.Some? {
      OwnMore(seen, Answered(gen, st.pending.value, true));
    }
    forall g: nat ensures Counted(after, g) {
      PromptCounted(st, gen, g);
    }
  }

  lemma {:induction false} PromptCounted(st: State, gen: nat, g: nat)
    requires Inv(st) && st.auth == Some(gen)
    ensures Counted(OnPrompt(st, gen), g)
  {
    assert Counted(st, g);
    CountsMore(st.log, Prompted(gen), g);
    if st.pending.Some? {
      CountsMore(st.log + [Prompted(gen)], Answered(gen, st.pending.value, true), g);
    }
  }

  lemma {:induction false} StepInv(st: State, op: Op)
    requires Inv(st)
    ensures Inv(Step(st, op))
  {
    match op
    case SubmitOp(value, username, connects) => SubmitInv(st, value, username, connects);
    case DeliverOp(gen, ev) =>
      if WasStarted(st.log, gen) && gen == st.authGen {
        Guarded(st, gen);
        match ev
        case Prompt(input) => if input { PromptInv(st, gen); }
        case Success =>
        case Failure => FailureInv(st, gen);
      }
  }

  lemma {:induction false} AfterInv(st: State, ops: seq<Op>)
    requires Inv(st)
    ensures Inv(After(st, ops))
    decreases ops
  {
    if ops != [] {
      StepInv(st, ops[0]);
      AfterInv(Step(st, ops[0]), ops[1..]);
    }
  }

  // ----- what every run keeps -----

  /** At most one conversation is live, each typed password is answered at most once
      and only in its own conversation, and no conversation is answered more often
      than it asked. */
  lemma {:induction false} EveryRun(ops: seq<Op>)
    ensures
      var log := After(START, ops).log;
      && (forall g: nat, h: nat | Live(log, g) && Live(log, h) :: g == h)
      && (forall g: nat :: Count(log, TypedAnswers, g) <= 1)
      && OwnPassword(log)
      && (forall g: nat :: Count(log, Answers, g) <= Count(log, Prompts, g))
  {
    AfterInv(START, ops);
    var st := After(START, ops);
    forall g: nat
      ensures Live(st.log, g) ==> st.auth == Some(g)
      ensures Count(st.log, TypedAnswers, g) <= 1 && Count(st.log, Answers, g) <= Count(st.log, Prompts, g)
    {
      assert Counted(st, g);
    }
  }

  /** An event is acted on exactly when its conversation is still live: a late event
      of an earlier one changes nothing, and the live one is not shut out. */
  lemma {:induction false} LateEvents(ops: seq<Op>, gen: nat, ev: Event)
    requires WasStarted(After(START, ops).log, gen)
    ensures
      var st := After(START, ops);
      if Live(st.log, gen) then gen == st.authGen && st.auth == Some(gen)
      else Step(st, DeliverOp(gen, ev)) == st
  {
    AfterInv(START, ops);
    var st := After(START, ops);
    Guarded(st, gen);
    assert Counted(st, gen);
  }

  // ----- as the program runs it -----

  class Screen {
    var auth: Option<nat>
    var authGen: nat
    var awaiting: bool
    var pending: Option<string>
    ghost var log: seq<Entry>

    ghost function Now(): State
      reads this
    {
      State(auth, authGen, awaiting, pending, log)
    }

    constructor ()
      ensures Now() == START
    {
      auth, authGen, awaiting, pending := None, 0, false, None;
      log := [];
    }

    /** Enter in the password entry: an answer to the prompt on screen, or a login. */
    method EnterPassword(value: string, username: string, connects: bool)
      modifies this
      ensures Now() == Submit(old(Now()), value, username, connects)
    {
      if awaiting {
        awaiting := false;
        if auth.Some? {
          log := log + [Answered(auth.value, value, false)];
        }
        return;
      }
      if auth.Some? || Blank(username) {
        return;
      }
      StartConversation(value, connects);
    }

    method StartConversation(password: string, connects: bool)
      modifies this
      ensures
        var st := old(Now());
        Now() == if !connects then st
                 else st.(pending := Some(password), authGen := st.authGen + 1, auth := Some(st.authGen + 1),
                          log := st.log + [Started(st.authGen + 1, password)])
    {
      if !connects {
        return;
      }
      pending := Some(password);
      authGen := authGen + 1;
      auth := Some(authGen);
      log := log + [Started(authGen, password)];
    }

    /** What the callback given to conversation gen does on the screen's loop. */
    method HandleEvent(gen: nat, ev: Event)
      modifies this
      ensures Now() == Deliver(old(Now()), gen, ev)
    {
      if gen != authGen {
        return;
      }
      match ev {
        case Prompt(input) => HandlePrompt(input);
        case Success =>
        case Failure =>
          auth, awaiting, pending := None, false, None;
          authGen := authGen + 1;
          log := log + [Ended(gen)];
      }
    }

    method HandlePrompt(input: bool)
      modifies this
      ensures Now() == if input then OnPrompt(old(Now()), old(authGen)) else old(Now())
    {
      if !input {
        return;
      }
      log := log + [Prompted(authGen)];
      if pending.Some? {
        var answer := pending.value;
        pending := None;
        if auth.Some? {
          log := log + [Answered(auth.value, answer, true)];
        }
        return;
      }
      awaiting := true;
    }
  }
}
