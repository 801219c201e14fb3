/** What each call does to the pipes waiting for a session, and who ends them: a
    selection that is not our own, and nothing that is. */
module ClipboardLaws {
  import opened Options
  import opened Clipboard

  // ----- whole methods -----

  /** Every pending pipe has been closed, and nothing else. */
  ghost predicate AllClosed(st: State, after: State) {
    && after.transfers == map[]
    && (forall p :: p in after.closed <==> p in st.closed || IsPending(st, p))
    && after.filed == st.filed && after.handed == st.handed && after.serial == st.serial
  }

  /** Nothing has become of any pipe. */
  predicate NoneMoved(st: State, after: State) {
    && after.transfers == st.transfers && after.closed == st.closed
    && after.filed == st.filed && after.handed == st.handed && after.serial == st.serial
  }

  /** The call ends the pending transfers: a selection of another client's, the closing
      of the claimer's session, the end of the compositor's connection, or a selection
      that a session may make. */
  predicate EndsTransfers(st: State, call: Whole) {
    match call.t
    case Changing(own) => !own
    case Closing(path) => path == st.claimer
    case Ending => true
    case Selecting(_) => call.usable && st.dev
    case _ => false
  }

  /** What a method does when no other comes between: to the pipes, to the device, and
      to the claim. */
  lemma {:induction false} WholeEffect(st: State, call: Whole)
    requires Starts(call.t)
    ensures Does(st, call, Finish(st, call.t, call.usable, call.works))
  {
    match call.t
    case Selecting(_) => SelectingDoes(st, call);
    case Changing(_) => EndingDoes(st, call);
    case Closing(_) => EndingDoes(st, call);
    case Ending => EndingDoes(st, call);
    case _ => OneStepDoes(st, call);
  }

  lemma {:induction false} SelectingDoes(st: State, call: Whole)
    requires call.t.Selecting?
    ensures Does(st, call, Finish(st, call.t, call.usable, call.works))
  {
    FinishStep(st, call.t, call.usable, call.works);
    if call.usable && st.dev {
      FinishSelecting(st, call.t.session, call.works);
      DropPending(st);
    }
  }

  lemma {:induction false} EndingDoes(st: State, call: Whole)
    requires call.t.Changing? || call.t.Closing? || call.t.Ending?
    ensures Does(st, call, Finish(st, call.t, call.usable, call.works))
  {
    var r := Advance(st, call.t, call.usable);
    FinishStep(st, call.t, call.usable, call.works);
    if r.1.Dropping? {
      DropStep(r.0, call.usable, call.works);
      assert AllClosed(r.0, Drop(r.0));
      DropPending(st);
      DropPending(r.0);
    }
  }

  lemma {:induction false} OneStepDoes(st: State, call: Whole)
    requires call.t.Requesting? || call.t.Transferring? || call.t.Writing?
    ensures Does(st, call, Finish(st, call.t, call.usable, call.works))
  {
    FinishStep(st, call.t, call.usable, call.works);
    if call.t.Transferring? && st.claimer == "" {
      FinishStep(st, Refusing(call.t.pipe), call.usable, call.works);
    }
  }

  ghost predicate Does(st: State, call: Whole, after: State) {
    match call.t
    case Changing(_) => PipesEnd(st, after, call) && after.dev == st.dev && after.claimer == st.claimer
    case Closing(path) =>
      && PipesEnd(st, after, call) && after.dev == st.dev
      && after.claimer == if path == st.claimer then "" else st.claimer
    case Ending => PipesEnd(st, after, call) && !after.dev && after.claimer == ""
    case Selecting(s) =>
      && PipesEnd(st, after, call) && after.dev == st.dev
      && after.claimer == if call.usable && st.dev && call.works then s else st.claimer
    case Requesting => NoneMoved(st, after) && after.claimer == st.claimer && (after.dev <==> st.dev || call.usable)
    case Transferring(p) => after.dev == st.dev && after.claimer == st.claimer && FiledOrClosed(st, after, p)
    case Writing(s, serial) =>
      && after.dev == st.dev && after.claimer == st.claimer
      && if call.usable && serial in st.transfers && st.transfers[serial].session == s
         then HandedOver(st, after, serial) else NoneMoved(st, after)
    case _ => true
  }

  lemma {:induction false} FinishStep(st: State, t: Thread, usable: bool, works: bool)
    requires !t.Returned?
    ensures
      var r := Advance(st, t, if t.Owning? then works else usable);
      Finish(st, t, usable, works) == if r.1.Returned? then r.0 else Finish(r.0, r.1, usable, works)
  {
  }

  lemma {:induction false} DropStep(st: State, usable: bool, works: bool)
    ensures Finish(st, Dropping, usable, works) == Drop(st) && AllClosed(st, Drop(st))
  {
    FinishStep(st, Dropping, usable, works);
    DropPending(st);
  }

  ghost predicate PipesEnd(st: State, after: State, call: Whole) {
    if EndsTransfers(st, call) then AllClosed(st, after) else NoneMoved(st, after)
  }

  /** A receiver's pipe waits for the claimer under the next serial; without a claimer
      it is closed. */
  predicate FiledOrClosed(st: State, after: State, p: Pipe) {
    if st.claimer == "" then
      && after.closed == st.closed + {p} && after.transfers == st.transfers
      && after.filed == st.filed && after.handed == st.handed && after.serial == st.serial
    else
      && after.transfers == st.transfers[st.serial + 1 := Transfer(st.claimer, p)] && after.serial == st.serial + 1
      && after.filed == st.filed[p := st.claimer] && after.closed == st.closed && after.handed == st.handed
  }

  /** The pipe is its session's now. */
  predicate HandedOver(st: State, after: State, serial: nat)
    requires serial in st.transfers
  {
    var t := st.transfers[serial];
    && after.transfers == st.transfers - {serial} && after.handed == st.handed[t.pipe := t.session]
    && after.closed == st.closed && after.filed == st.filed && after.serial == st.serial
  }

  // ----- under every interleaving -----

  /** The echo of our own claim changes nothing, whatever comes between. */
  lemma {:induction false} OwnEcho(w: World, i: nat, yes: bool)
    requires i < |w.threads| && w.threads[i] == Changing(true)
    ensures Act(w, Move(i, yes)) == World(w.st, w.threads[i := Returned], w.given)
  {
  }

  /** No transfer with a serial up to n is pending. */
  predicate NonePending(st: State, n: nat) { forall s | s in st.transfers :: s > n }

  /** The thread is on its way to dropping the transfers up to n, or they are gone. */
  predicate Dropper(w: World, i: nat, n: nat) {
    && i < |w.threads| && n <= w.st.serial
    && (w.threads[i] in {Changing(false), Dropping} || (w.threads[i] == Returned && NonePending(w.st, n)))
  }

  lemma {:induction false} DropperStays(w: World, a: Action, i: nat, n: nat)
    requires Dropper(w, i, n)
    ensures Dropper(Act(w, a), i, n)
  {
  }

  /** Once another client's selection has been dealt with, no transfer that was pending
      when it came is pending still, whatever other methods did meanwhile. */
  lemma {:induction false} ForeignSelection(w: World, acts: seq<Action>, i: nat)
    requires Inv(w) && i < |w.threads| && w.threads[i] == Changing(false)
    ensures
      var v := Reached(w, acts);
      i < |v.threads| && (v.threads[i] == Returned ==> forall s | s in w.st.transfers :: s !in v.st.transfers)
  {
    DropperRuns(w, acts, i, w.st.serial);
  }

  lemma {:induction false} DropperRuns(w: World, acts: seq<Action>, i: nat, n: nat)
    requires Dropper(w, i, n)
    ensures Dropper(Reached(w, acts), i, n)
    decreases acts
  {
    if acts != [] {
      DropperStays(w, acts[0], i, n);
      DropperRuns(Act(w, acts[0]), acts[1..], i, n);
    }
  }
}
