/** What each keystroke and each event adds to the log, told from the log alone: a
    prompt on the screen is answered with what is typed next, and the password typed
    for a conversation answers its first prompt. */
module GreeterLaws {
  import opened Options
  import opened Greeter

  /** The conversation has asked, and nobody has answered since. */
  ghost predicate Asked(log: seq<Entry>, g: nat) { exists i :: AskedAt(log, g, i) }

  ghost predicate AskedAt(log: seq<Entry>, g: nat, i: int) {
    && 0 <= i < |log| && log[i] == Prompted(g)
    && forall j | i < j < |log| :: !Is(log[j], Answers, g)
  }

  lemma {:induction false} AskedMore(log: seq<Entry>, e: Entry, g: nat)
    ensures Asked(log + [e], g) <==> e == Prompted(g) || (Asked(log, g) && !Is(e, Answers, g))
  {
    var more := log + [e];
    if i :| AskedAt(log, g, i) {
      assert !Is(e, Answers, g) ==> AskedAt(more, g, i);
    }
    if e == Prompted(g) {
      assert AskedAt(more, g, |log|);
    }
    if i :| AskedAt(more, g, i) {
      if i < |log| {
        assert more[|log|] == e && more[i] == log[i];
        assert forall j | i < j < |log| :: log[j] == more[j];
        assert AskedAt(log, g, i);
      }
    }
  }

  /** What the fields say of the live conversation, the log says too; and only
      conversations that were started ask. */
  ghost predicate Told(st: State) {
    && AskersStarted(st.log)
    && (st.auth.Some? ==>
          var g := st.auth.value;
          && (st.awaiting <==> Asked(st.log, g))
          && Count(st.log, TypedAnswers, g) + (if st.pending.Some? then 1 else 0) == 1)
  }

  ghost predicate AskersStarted(log: seq<Entry>) {
    forall i | 0 <= i < |log| && log[i].Prompted? :: WasStarted(log, log[i].gen)
  }

  lemma {:induction false} AskersMore(log: seq<Entry>, e: Entry)
    requires AskersStarted(log) && (e.Prompted? ==> WasStarted(log, e.gen))
    ensures AskersStarted(log + [e])
  {
    var more := log + [e];
    forall i | 0 <= i < |more| && more[i].Prompted? ensures WasStarted(more, more[i].gen) {
      assert i < |log| ==> log[i] == more[i];
      assert WasStarted(log, more[i].gen);
      var j :| 0 <= j < |log| && log[j].Started? && log[j].gen == more[i].gen;
      assert more[j] == log[j];
    }
  }

  lemma {:induction false} SubmitTold(st: State, value: string, username: string, connects: bool)
    requires Inv(st) && Told(st)
    ensures Told(Submit(st, value, username, connects))
  {
    var after := Submit(st, value, username, connects);
    if after.log != st.log {
      var e, g := after.log[|st.log|], after.auth.value;
      AskersMore(st.log, e);
      AskedMore(st.log, e, g);
      CountMore(st.log, e, TypedAnswers, g);
      assert Counted(st, g);
      if e.Started? {
        NotStartedYet(st, g);
      }
    }
  }

  /** A conversation that has not been started has neither asked nor been answered. */
  lemma {:induction false} NotStartedYet(st: State, g: nat)
    requires Inv(st) && Told(st) && g > st.authGen
    ensures !WasStarted(st.log, g) && !Asked(st.log, g) && Count(st.log, TypedAnswers, g) == 0
  {
    assert Counted(st, g);
    StartedCounts(st.log, g);
    AskedStarted(st.log, g);
  }

  lemma {:induction false} AskedStarted(log: seq<Entry>, g: nat)
    requires AskersStarted(log)
    ensures Asked(log, g) ==> WasStarted(log, g)
  {
  }

  lemma {:induction false} PromptTold(st: State, gen: nat)
    requires Inv(st) && Told(st) && st.auth == Some(gen)
    ensures Told(OnPrompt(st, gen))
  {
    var seen := st.log + [Prompted(gen)];
    StartedCounts(st.log, gen);
    assert Counted(st, gen);
    AskersMore(st.log, Prompted(gen));
    AskedMore(st.log, Prompted(gen), gen);
    CountMore(st.log, Prompted(gen), TypedAnswers, gen);
    if st.pending.Some? {
      AskersMore(seen, Answered(gen, st.pending.value, true));
      AskedMore(seen, Answered(gen, st.pending.value, true), gen);
      CountMore(seen, Answered(gen, st.pending.value, true), TypedAnswers, gen);
    }
  }

  lemma {:induction false} StepTold(st: State, op: Op)
    requires Inv(st) && Told(st)
    ensures Told(Step(st, op))
  {
    match op
    case SubmitOp(value, username, connects) => SubmitTold(st, value, username, connects);
    case DeliverOp(gen, ev) =>
      if WasStarted(st.log, gen) && gen == st.authGen {
        Guarded(st, gen);
        if ev == Prompt(true) {
          PromptTold(st, gen);
        } else if ev == Failure {
          AskersMore(st.log, Ended(gen));
        }
      }
  }

  lemma {:induction false} AfterTold(st: State, ops: seq<Op>)
    requires Inv(st) && Told(st)
    ensures Inv(After(st, ops)) && Told(After(st, ops))
    decreases ops
  {
    if ops != [] {
      StepInv(st, ops[0]);
      StepTold(st, ops[0]);
      AfterTold(Step(st, ops[0]), ops[1..]);
    }
  }

  /** The text entered answers the prompt on the screen, in the live conversation and
      as it was typed; while one is live without asking it goes nowhere; and with none
      live it is the password of a new conversation, if a user is named and greetd
      can be reached. */
  lemma {:induction false} SubmitEffect(ops: seq<Op>, value: string, username: string, connects: bool)
    ensures
      var log := After(START, ops).log;
      var after := Submit(After(START, ops), value, username, connects).log;
      && (forall g: nat | Live(log, g) ::
            after == if Asked(log, g) then log + [Answered(g, value, false)] else log)
      && ((forall g: nat :: !Live(log, g)) ==>
            if connects && exists c :: c in username && !IsSpace(c) then NewConversation(log, after, value)
            else after == log)
  {
    AfterTold(START, ops);
    var st := After(START, ops);
    forall g: nat ensures Live(st.log, g) <==> st.auth == Some(g) {
      assert Counted(st, g);
    }
    if st.auth.None? {
      NotStartedYet(st, st.authGen + 1);
      assert !Live(st.log, st.authGen + 1);
      assert Submit(st, value, username, connects).log != st.log ==>
             Submit(st, value, username, connects).log == st.log + [Started(st.authGen + 1, value)];
      if connects && exists c :: c in username && !IsSpace(c) {
        assert BeginsAs(st.log, Submit(st, value, username, connects).log, value, st.authGen + 1);
      }
    }
  }

  ghost predicate NewConversation(log: seq<Entry>, after: seq<Entry>, password: string) {
    exists g :: BeginsAs(log, after, password, g)
  }

  ghost predicate BeginsAs(log: seq<Entry>, after: seq<Entry>, password: string, g: nat) {
    !WasStarted(log, g) && after == log + [Started(g, password)]
  }

  /** An event of the live conversation: a prompt for input is noted and, when it is the
      first, answered with the password typed for this conversation; a failure ends it;
      anything else, and any event of another conversation, adds nothing. */
  lemma {:induction false} EventEffect(ops: seq<Op>, gen: nat, ev: Event)
    requires WasStarted(After(START, ops).log, gen)
    ensures
      var log := After(START, ops).log;
      var after := Step(After(START, ops), DeliverOp(gen, ev)).log;
      if !Live(log, gen) then after == log
      else
        match ev
        case Prompt(input) =>
          if !input then after == log
          else if Count(log, TypedAnswers, gen) > 0 then after == log + [Prompted(gen)]
          else AnsweredWithPassword(log, after, gen)
        case Success => after == log
        case Failure => after == log + [Ended(gen)]
  {
    AfterTold(START, ops);
    LateEvents(ops, gen, ev);
    var st := After(START, ops);
    if Live(st.log, gen) && ev == Prompt(true) && st.pending.Some? {
      var password := st.pending.value;
      assert st.log + [Prompted(gen)] + [Answered(gen, password, true)] ==
             st.log + [Prompted(gen), Answered(gen, password, true)];
    }
  }

  ghost predicate AnsweredWithPassword(log: seq<Entry>, after: seq<Entry>, gen: nat) {
    exists password :: Started(gen, password) in log && after == log + [Prompted(gen), Answered(gen, password, true)]
  }
}
