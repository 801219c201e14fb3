/** The clipboard bridge. Its methods take the lock step by step, so any steps of
    any methods may come between; the pipes it is given are accounted for whatever
    the interleaving. */
module Clipboard {
  import opened Options

  type Session = string
  type Pipe = nat

  datatype Transfer = Transfer(session: Session, pipe: Pipe)

  /** The state under the lock, and what has become of pipes: which were closed, and
      to whom the others were filed and handed over. */
  datatype State = State(
    dev: bool,
    claimer: Session,
    serial: nat,
    transfers: map<nat, Transfer>,
    closed: set<Pipe>,
    filed: map<Pipe, Session>,
    handed: map<Pipe, Session>)

  const START: State := State(false, "", 0, map[], {}, map[], map[])

  /** A method in progress, at the lock-held step it takes next. */
  datatype Thread =
    | Transferring(pipe: Pipe)
    | Refusing(pipe: Pipe)
    | Changing(own: bool)
    | Dropping
    | Closing(path: Session)
    | Ending
    | Requesting
    | Selecting(session: Session)
    | Clearing(session: Session)
    | Claiming(session: Session)
    | Owning(session: Session, previous: Session)
    | Writing(session: Session, serial: nat)
    | Returned

  // ----- the lock-held steps -----

  function Pending(st: State): set<Pipe> {
    set n | n in st.transfers :: st.transfers[n].pipe
  }

  function File(st: State, pipe: Pipe): State {
    st.(serial := st.serial + 1,
        transfers := st.transfers[st.serial + 1 := Transfer(st.claimer, pipe)],
        filed := st.filed[pipe := st.claimer])
  }

  function Drop(st: State): State {
    st.(transfers := map[], closed := st.closed + Pending(st))
  }

  function Take(st: State, session: Session, serial: nat): State {
    if Takes(st, session, serial) then
      st.(transfers := st.transfers - {serial}, handed := st.handed[st.transfers[serial].pipe := session])
    else st
  }

  /** One step of a thread; yes says how what lies outside the bridge turns out: that
      the session may use the clipboard, that the device comes up, that the claim
      succeeds. */
  function Advance(st: State, t: Thread, yes: bool): (State, Thread) {
    match t
    case Transferring(p) => if st.claimer == "" then (st, Refusing(p)) else (File(st, p), Returned)
    case Refusing(p) => (st.(closed := st.closed + {p}), Returned)
    case Changing(own) => (st, if own then Returned else Dropping)
    case Dropping => (Drop(st), Returned)
    case Closing(path) => if st.claimer == path then (st.(claimer := ""), Dropping) else (st, Returned)
    case Ending => (st.(dev := false, claimer := ""), Dropping)
    case Requesting => (st.(dev := st.dev || yes), Returned)
    case Selecting(s) => (st, if yes && st.dev then Clearing(s) else Returned)
    case Clearing(s) => (Drop(st), Claiming(s))
    case Claiming(s) => (st.(claimer := s), Owning(s, st.claimer))
    case Owning(s, previous) => (if yes || st.claimer != s then st else st.(claimer := previous), Returned)
    case Writing(s, serial) => (if yes then Take(st, s, serial) else st, Returned)
    case Returned => (st, Returned)
  }

  // ----- every interleaving -----

  datatype World = World(st: State, threads: seq<Thread>, given: set<Pipe>)

  /** A method is called, or one in progress takes its next step. */
  datatype Action = Call(thread: Thread) | Move(i: nat, yes: bool)

  /** Methods begin at their first step, and no pipe is given twice. */
  predicate Callable(w: World, t: Thread) {
    match t
    case Transferring(p) => p !in w.given
    case Changing(_) => true
    case Closing(path) => path != ""
    case Selecting(s) => s != ""
    case Writing(_, _) => true
    case _ => t.Ending? || t.Requesting?
  }

  predicate Enabled(w: World, a: Action) {
    match a
    case Call(t) => Callable(w, t)
    case Move(i, _) => i < |w.threads|
  }

  function Next(w: World, a: Action): World
    requires Enabled(w, a)
  {
    match a
    case Call(t) => World(w.st, w.threads + [t], if t.Transferring? then w.given + {t.pipe} else w.given)
    case Move(i, yes) =>
      var r := Advance(w.st, w.threads[i], yes);
      World(r.0, w.threads[i := r.1], w.given)
  }

  /** Actions that are not enabled pass. */
  function Act(w: World, a: Action): World { if Enabled(w, a) then Next(w, a) else w }

  /** What a run reaches. */
  function Reached(w: World, acts: seq<Action>): World
    decreases acts
  {
    if acts == [] then w else Reached(Act(w, acts[0]), acts[1..])
  }

  predicate Holds(t: Thread, p: Pipe) { (t.Transferring? || t.Refusing?) && t.pipe == p }

  /** A method in progress still holds p. */
  ghost predicate Held(w: World, p: Pipe) { exists i :: 0 <= i < |w.threads| && Holds(w.threads[i], p) }

  /** Where a pipe is. */
  ghost predicate IsPending(st: State, p: Pipe) { exists n :: n in st.transfers && st.transfers[n].pipe == p }

  /** Pending serials are in range, no pipe is pending twice, and every transfer is
      filed for its session. */
  ghost predicate Filed(st: State) {
    && (forall n | n in st.transfers :: 1 <= n <= st.serial)
    && (forall m, n | m in st.transfers && n in st.transfers && m != n :: st.transfers[m].pipe != st.transfers[n].pipe)
    && (forall n | n in st.transfers ::
          st.transfers[n].pipe in st.filed && st.filed[st.transfers[n].pipe] == st.transfers[n].session)
    && (forall p | p in st.handed :: p in st.filed && st.filed[p] == st.handed[p])
  }

  /** No pipe is held by two methods. */
  ghost predicate HeldOnce(w: World) {
    forall i, j, p | 0 <= i < |w.threads| && 0 <= j < |w.threads| && i != j && Holds(w.threads[i], p) ::
      !Holds(w.threads[j], p)
  }

  /** Every pipe given is in exactly one place, and no other pipe is in any. */
  ghost predicate Accounted(w: World) {
    && (forall p :: p in w.given <==> Held(w, p) || IsPending(w.st, p) || p in w.st.closed || p in w.st.handed)
    && (forall p | Held(w, p) :: !IsPending(w.st, p) && p !in w.st.closed && p !in w.st.handed)
    && (forall p | IsPending(w.st, p) :: p !in w.st.closed && p !in w.st.handed)
    && (forall p | p in w.st.closed :: p !in w.st.handed)
  }

  ghost predicate Inv(w: World) { Filed(w.st) && HeldOnce(w) && Accounted(w) }

  lemma {:induction false} NextInv(w: World, a: Action)
    requires Inv(w) && Enabled(w, a)
    ensures Inv(Next(w, a))
  {
    match a
    case Call(t) => CallInv(w, t);
    case Move(i, yes) => MoveInv(w, i, yes);
  }

  lemma {:induction false} CallInv(w: World, t: Thread)
    requires Inv(w) && Callable(w, t)
    ensures Inv(Next(w, Call(t)))
  {
    var v := Next(w, Call(t));
    forall p ensures Held(v, p) <==> Held(w, p) || Holds(t, p) {
      if Held(w, p) {
        var i :| 0 <= i < |w.threads| && Holds(w.threads[i], p);
        assert Holds(v.threads[i], p);
      }
      if Holds(t, p) {
        assert Holds(v.threads[|w.threads|], p);
      }
    }
  }

  lemma {:induction false} MoveInv(w: World, i: nat, yes: bool)
    requires Inv(w) && i < |w.threads|
    ensures Inv(Next(w, Move(i, yes)))
  {
    match w.threads[i]
    case Transferring(p) => FileMove(w, i, yes, p);
    case Refusing(p) => RefuseMove(w, i, yes, p);
    case Dropping => DropMove(w, i, yes);
    case Clearing(_) => DropMove(w, i, yes);
    case Writing(s, serial) => TakeMove(w, i, yes, s, serial);
    case _ => HeldAfter(w, i, yes);
  }

  lemma {:induction false} RefuseMove(w: World, i: nat, yes: bool, p: Pipe)
    requires Inv(w) && i < |w.threads| && w.threads[i] == Refusing(p)
    ensures Inv(Next(w, Move(i, yes)))
  {
    HeldAfter(w, i, yes);
    assert Holds(w.threads[i], p);
  }

  lemma {:induction false} HeldAfter(w: World, i: nat, yes: bool)
    requires HeldOnce(w) && i < |w.threads|
    ensures
      var v := Next(w, Move(i, yes));
      && HeldOnce(v)
      && forall p :: Held(v, p) <==> (Held(w, p) && !Holds(w.threads[i], p)) || Holds(v.threads[i], p)
  {
    var v := Next(w, Move(i, yes));
    forall p ensures Held(v, p) <==> (Held(w, p) && !Holds(w.threads[i], p)) || Holds(v.threads[i], p) {
      StillHeld(w, v, i, p);
    }
  }

  /** Only the thread that moved may hold something else than before. */
  lemma {:induction false} StillHeld(w: World, v: World, i: nat, p: Pipe)
    requires HeldOnce(w) && i < |w.threads| == |v.threads| && v.threads == w.threads[i := v.threads[i]]
    ensures Held(v, p) <==> (Held(w, p) && !Holds(w.threads[i], p)) || Holds(v.threads[i], p)
  {
    if Held(v, p) && !Holds(v.threads[i], p) {
      var j :| 0 <= j < |v.threads| && Holds(v.threads[j], p);
      assert Holds(w.threads[j], p);
    }
    if Held(w, p) && !Holds(w.threads[i], p) {
      var j :| 0 <= j < |w.threads| && Holds(w.threads[j], p);
      assert Holds(v.threads[j], p);
    }
  }

  lemma {:induction false} FileMove(w: World, i: nat, yes: bool, p: Pipe)
    requires Inv(w) && i < |w.threads| && w.threads[i] == Transferring(p)
    ensures Inv(Next(w, Move(i, yes)))
  {
    HeldAfter(w, i, yes);
    assert Holds(w.threads[i], p) && Held(w, p);
    if w.st.claimer != "" {
      FilePending(w.st, p);
      forall n | n in w.st.transfers ensures w.st.transfers[n].pipe != p {
        assert IsPending(w.st, w.st.transfers[n].pipe);
      }
    }
  }

  lemma {:induction false} DropMove(w: World, i: nat, yes: bool)
    requires Inv(w) && i < |w.threads| && (w.threads[i].Dropping? || w.threads[i].Clearing?)
    ensures Inv(Next(w, Move(i, yes)))
  {
    HeldAfter(w, i, yes);
    DropPending(w.st);
  }

  lemma {:induction false} TakeMove(w: World, i: nat, yes: bool, session: Session, serial: nat)
    requires Inv(w) && i < |w.threads| && w.threads[i] == Writing(session, serial)
    ensures Inv(Next(w, Move(i, yes)))
  {
    HeldAfter(w, i, yes);
    TakePending(w.st, session, serial);
  }

  lemma {:induction false} FilePending(st: State, pipe: Pipe)
    requires Filed(st)
    ensures forall p :: IsPending(File(st, pipe), p) <==> IsPending(st, p) || p == pipe
  {
    var after := File(st, pipe);
    forall p ensures IsPending(after, p) <==> IsPending(st, p) || p == pipe {
      if IsPending(st, p) {
        var n :| n in st.transfers && st.transfers[n].pipe == p;
        assert n in after.transfers && after.transfers[n].pipe == p;
      }
      assert st.serial + 1 in after.transfers && after.transfers[st.serial + 1].pipe == pipe;
    }
  }

  lemma {:induction false} DropPending(st: State)
    ensures forall p :: !IsPending(Drop(st), p)
    ensures forall p :: p in Drop(st).closed <==> p in st.closed || IsPending(st, p)
  {
  }

  predicate Takes(st: State, session: Session, serial: nat) {
    serial in st.transfers && st.transfers[serial].session == session
  }

  lemma {:induction false} TakePending(st: State, session: Session, serial: nat)
    requires Filed(st)
    ensures Takes(st, session, serial) ==>
      var after, pipe := Take(st, session, serial), st.transfers[serial].pipe;
      && IsPending(st, pipe)
      && forall p :: IsPending(after, p) <==> IsPending(st, p) && p != pipe
  {
    if Takes(st, session, serial) {
      var after, pipe := Take(st, session, serial), st.transfers[serial].pipe;
      forall p ensures IsPending(after, p) <==> IsPending(st, p) && p != pipe {
        if IsPending(st, p) && p != pipe {
          var n :| n in st.transfers && st.transfers[n].pipe == p;
          assert n in after.transfers && after.transfers[n].pipe == p;
        }
      }
    }
  }

  /** Whatever methods run and however their steps interleave: each pipe given is held
      by one method, or pending, or closed, or handed over, and only one of these;
      it is handed only to the session it was filed for; and pending serials lie in
      range. */
  lemma {:induction false} EveryInterleaving(acts: seq<Action>)
    ensures
      var w := Reached(World(START, [], {}), acts);
      && Inv(w)
      && (forall p | p in w.st.handed :: p in w.st.filed && w.st.handed[p] == w.st.filed[p])
      && (forall n | n in w.st.transfers :: 1 <= n <= w.st.serial)
  {
    ReachedInv(World(START, [], {}), acts);
  }

  lemma {:induction false} ReachedInv(w: World, acts: seq<Action>)
    requires Inv(w)
    ensures Inv(Reached(w, acts))
    decreases acts
  {
    if acts != [] {
      if Enabled(w, acts[0]) {
        NextInv(w, acts[0]);
      }
      ReachedInv(Act(w, acts[0]), acts[1..]);
    }
  }

  // ----- whole methods -----

  function Left(t: Thread): nat {
    match t
    case Returned => 0
    case Selecting(_) => 4
    case Clearing(_) => 3
    case Transferring(_) => 2
    case Changing(_) => 2
    case Closing(_) => 2
    case Ending => 2
    case Claiming(_) => 2
    case _ => 1
  }

  /** A method run to its end with nothing in between. */
  function Finish(st: State, t: Thread, usable: bool, works: bool): State
    decreases Left(t)
  {
    if t.Returned? then st
    else
      var r := Advance(st, t, if t.Owning? then works else usable);
      Finish(r.0, r.1, usable, works)
  }

  /** Every pending transfer is the claimer's, and a claim needs a device. */
  ghost predicate Settled(st: State) {
    && (forall n | n in st.transfers :: st.transfers[n].session == st.claimer)
    && (st.claimer != "" ==> st.dev)
  }

  /** A method in progress between whose steps the bridge need not be settled: its
      transfers are about to be dropped, or there are none and the claim it stands
      in for is. */
  ghost predicate Settling(st: State, t: Thread) {
    match t
    case Dropping => st.claimer != "" ==> st.dev
    case Clearing(s) => Settled(st) && st.dev
    case Claiming(s) => Settled(st) && st.transfers == map[] && st.dev
    case Owning(s, previous) => Settled(st) && st.transfers == map[] && st.dev
    case _ => Settled(st)
  }

  /** With whole methods atomic the bridge is settled after each. */
  lemma {:induction false} FinishSettles(st: State, t: Thread, usable: bool, works: bool)
    requires Settling(st, t)
    ensures Settled(Finish(st, t, usable, works))
    decreases Left(t)
  {
    if !t.Returned? {
      var r := Advance(st, t, if t.Owning? then works else usable);
      assert Settling(r.0, r.1);
      FinishSettles(r.0, r.1, usable, works);
    }
  }

  /** A call of a method, and how what lies outside the bridge turns out. */
  datatype Whole = Whole(t: Thread, usable: bool, works: bool)

  predicate Starts(t: Thread) {
    t.Transferring? || t.Changing? || t.Closing? || t.Ending? || t.Requesting? || t.Selecting? || t.Writing?
  }

  function WholeRun(st: State, calls: seq<Whole>): State
    decreases calls
  {
    if calls == [] then st
    else WholeRun(Finish(st, calls[0].t, calls[0].usable, calls[0].works), calls[1..])
  }

  lemma {:induction false} EveryWholeRun(st: State, calls: seq<Whole>)
    requires Settled(st) && forall c | c in calls :: Starts(c.t)
    ensures Settled(WholeRun(st, calls))
    decreases calls
  {
    if calls != [] {
      FinishSettles(st, calls[0].t, calls[0].usable, calls[0].works);
      EveryWholeRun(Finish(st, calls[0].t, calls[0].usable, calls[0].works), calls[1..]);
    }
  }

  ghost predicate Reachable(w: World) { exists acts :: Reached(World(START, [], {}), acts) == w }

  lemma {:induction false} ReachedMore(w: World, acts: seq<Action>, a: Action)
    ensures Reached(w, acts + [a]) == Act(Reached(w, acts), a)
    decreases acts
  {
    if acts == [] {
      assert acts + [a] == [a];
      assert Reached(Act(w, a), [a][1..]) == Act(w, a);
    } else {
      assert (acts + [a])[1..] == acts[1..] + [a];
      ReachedMore(Act(w, acts[0]), acts[1..], a);
    }
  }

  lemma {:induction false} More(w: World, a: Action) returns (v: World)
    requires Reachable(w) && Enabled(w, a)
    ensures v == Next(w, a) && Reachable(v)
  {
    var acts :| Reached(World(START, [], {}), acts) == w;
    ReachedMore(World(START, [], {}), acts, a);
    v := Next(w, a);
  }

  /** A device is up, and selecting has come to its claim. */
  lemma {:induction false} Halfway(w: World, s: Session) returns (v: World)
    requires Reachable(w) && s != "" && w.st.dev && w.st.transfers == map[]
    ensures Reachable(v) && |v.threads| == |w.threads| + 1 && v.threads[|w.threads|] == Claiming(s)
    ensures v.st == w.st && v.given == w.given
  {
    v := More(w, Call(Selecting(s)));
    v := More(v, Move(|w.threads|, true));
    assert v.threads[|w.threads|] == Clearing(s);
    v := More(v, Move(|w.threads|, true));
    assert v.st.closed == w.st.closed;
  }

  lemma {:induction false} DeviceUp() returns (w: World)
    ensures Reachable(w) && w.st == START.(dev := true) && w.given == {}
  {
    var start := World(START, [], {});
    assert Reached(start, []) == start;
    w := More(start, Call(Requesting));
    w := More(w, Move(0, true));
  }

  // ----- exactly when step by step it is settled -----

  /** The steps that leave a settled bridge unsettled: a claim once the device is
      gone, or while another session's transfers are pending; giving a claim up
      while its transfers are; and putting a failed claim's predecessor back while
      the claimer's transfers are pending, or once the device is gone. */
  predicate Unsettles(st: State, t: Thread, yes: bool) {
    match t
    case Claiming(s) => (s != "" && !st.dev) || (st.transfers != map[] && s != st.claimer)
    case Closing(path) => st.claimer == path != "" && st.transfers != map[]
    case Ending => st.claimer != "" && st.transfers != map[]
    case Owning(s, previous) =>
      && !yes && st.claimer == s
      && ((st.transfers != map[] && previous != s) || (previous != "" && !st.dev))
    case _ => false
  }

  lemma {:induction false} StepSettles(st: State, t: Thread, yes: bool)
    requires Settled(st)
    ensures Settled(Advance(st, t, yes).0) <==> !Unsettles(st, t, yes)
  {
    var after := Advance(st, t, yes).0;
    if st.transfers != map[] {
      var n :| n in st.transfers;
      assert st.transfers[n].session == st.claimer;
      assert t.Claiming? || t.Closing? || t.Ending? || t.Owning? ==> after.transfers[n] == st.transfers[n];
    }
  }

  /** An action that takes a step of that kind. */
  predicate Breaks(w: World, a: Action) {
    a.Move? && a.i < |w.threads| && Unsettles(w.st, w.threads[a.i], a.yes)
  }

  ghost predicate SettledAfter(acts: seq<Action>, k: nat)
    requires k <= |acts|
  {
    Settled(Reached(World(START, [], {}), acts[..k]).st)
  }

  ghost predicate BreaksAt(acts: seq<Action>, k: nat)
    requires k < |acts|
  {
    Breaks(Reached(World(START, [], {}), acts[..k]), acts[k])
  }

  lemma {:induction false} ActSettles(acts: seq<Action>, k: nat)
    requires k < |acts| && SettledAfter(acts, k)
    ensures SettledAfter(acts, k + 1) <==> !BreaksAt(acts, k)
  {
    var start := World(START, [], {});
    var w, a := Reached(start, acts[..k]), acts[k];
    assert acts[..k + 1] == acts[..k] + [a];
    ReachedMore(start, acts[..k], a);
    if a.Move? && Enabled(w, a) {
      StepSettles(w.st, w.threads[a.i], a.yes);
    }
  }

  /** Under every interleaving, the bridge is settled after every step of a run if
      and only if no step of the run is one of those. */
  lemma {:induction false} SettledIffNoneBreaks(acts: seq<Action>)
    ensures (forall k | 0 <= k <= |acts| :: SettledAfter(acts, k)) <==>
            (forall k | 0 <= k < |acts| :: !BreaksAt(acts, k))
  {
    forall k | 0 <= k < |acts| && SettledAfter(acts, k)
      ensures SettledAfter(acts, k + 1) <==> !BreaksAt(acts, k)
    {
      ActSettles(acts, k);
    }
    if forall k | 0 <= k < |acts| :: !BreaksAt(acts, k) {
      SettledUpTo(acts, |acts|);
    }
    if forall k | 0 <= k <= |acts| :: SettledAfter(acts, k) {
      forall k | 0 <= k < |acts| ensures !BreaksAt(acts, k) {
        assert SettledAfter(acts, k) && SettledAfter(acts, k + 1);
      }
    }
  }

  lemma {:induction false} SettledUpTo(acts: seq<Action>, n: nat)
    requires n <= |acts| && forall k | 0 <= k < |acts| :: !BreaksAt(acts, k)
    ensures forall k | 0 <= k <= n :: SettledAfter(acts, k)
    decreases n
  {
    if n == 0 {
      assert acts[..0] == [];
    } else {
      SettledUpTo(acts, n - 1);
      ActSettles(acts, n - 1);
    }
  }

  /** Step by step it need not be settled. A transfer filed between the two halves of
      a selection is left with the session that is no longer the claimer. */
  lemma {:induction false} StaleTransfer(a: Session, b: Session)
    requires a != "" && b != "" && a != b
    ensures exists w :: Reachable(w) && 1 in w.st.transfers && w.st.transfers[1].session == a && w.st.claimer == b
  {
    var w := DeviceUp();
    var n := |w.threads|;
    w := Halfway(w, a);
    w := More(w, Move(n, true));
    var m := |w.threads|;
    w := Halfway(w, b);
    var k := |w.threads|;
    w := More(w, Call(Transferring(0)));
    w := More(w, Move(k, true));
    assert w.threads[m] == Claiming(b);
    w := More(w, Move(m, true));
  }

  /** A selection that outlives the device claims without one. */
  lemma {:induction false} ClaimWithoutDevice(a: Session)
    requires a != ""
    ensures exists w :: Reachable(w) && w.st.claimer == a && !w.st.dev
  {
    var w := DeviceUp();
    var n := |w.threads|;
    w := Halfway(w, a);
    w := More(w, Call(Ending));
    w := More(w, Move(n + 1, true));
    assert w.threads[n] == Claiming(a);
    w := More(w, Move(n, true));
  }

  lemma {:induction false} FinishLast(st: State, t: Thread, usable: bool, works: bool)
    requires !t.Returned?
    ensures
      var r := Advance(st, t, if t.Owning? then works else usable);
      r.1.Returned? ==> Finish(st, t, usable, works) == r.0
  {
  }

  lemma {:induction false} FinishSelecting(st: State, s: Session, works: bool)
    requires st.dev
    ensures Finish(st, Selecting(s), true, works) == Drop(st).(claimer := if works then s else st.claimer)
  {
    var claimed := Drop(st).(claimer := s);
    assert Finish(st, Selecting(s), true, works) == Finish(st, Clearing(s), true, works);
    assert Finish(st, Clearing(s), true, works) == Finish(Drop(st), Claiming(s), true, works);
    assert Finish(Drop(st), Claiming(s), true, works) == Finish(claimed, Owning(s, st.claimer), true, works);
    FinishLast(claimed, Owning(s, st.claimer), true, works);
  }

  // ----- as the program runs it, one method at a time -----

  class Bridge {
    var dev: bool
    var claimer: Session
    var serial: nat
    var transfers: map<nat, Transfer>
    ghost var closed: set<Pipe>
    ghost var filed: map<Pipe, Session>
    ghost var handed: map<Pipe, Session>

    ghost function Now(): State
      reads this
    {
      State(dev, claimer, serial, transfers, closed, filed, handed)
    }

    constructor ()
      ensures Now() == START
    {
      dev, claimer, serial, transfers := false, "", 0, map[];
      closed, filed, handed := {}, map[], map[];
    }

    /** Files a receiver's pipe for the claimer, or closes it. */
    method FileTransfer(pipe: Pipe)
      modifies this
      ensures Now() == Finish(old(Now()), Transferring(pipe), true, true)
    {
      if claimer == "" {
        assert Finish(Now(), Transferring(pipe), true, true) == Finish(Now(), Refusing(pipe), true, true);
        FinishLast(Now(), Refusing(pipe), true, true);
        closed := closed + {pipe};
        return;
      }
      serial := serial + 1;
      transfers := transfers[serial := Transfer(claimer, pipe)];
      filed := filed[pipe := claimer];
    }

    /** Closes every pending pipe. */
    method DropTransfers()
      modifies this`transfers, this`closed
      ensures Now() == Finish(old(Now()), Dropping, true, true)
    {
      var todo := transfers.Keys;
      ghost var were := transfers;
      while todo != {}
        invariant todo <= were.Keys && transfers == map n | n in todo :: were[n]
        invariant closed == old(closed) + set n | n in were && n !in todo :: were[n].pipe
        decreases todo
      {
        var n :| n in todo;
        closed := closed + {transfers[n].pipe};
        transfers := transfers - {n};
        todo := todo - {n};
      }
    }

    method SelectionChanged(own: bool)
      modifies this
      ensures Now() == Finish(old(Now()), Changing(own), true, true)
    {
      if !own {
        DropTransfers();
      }
    }

    method OwnerClosed(path: Session)
      modifies this
      ensures Now() == Finish(old(Now()), Closing(path), true, true)
    {
      if claimer == path {
        claimer := "";
        DropTransfers();
      }
    }

    method LoopEnded()
      modifies this
      ensures Now() == Finish(old(Now()), Ending, true, true)
    {
      dev, claimer := false, "";
      DropTransfers();
    }

    method Ensure(starts: bool) returns (ok: bool)
      modifies this
      ensures Now() == Finish(old(Now()), Requesting, starts, true)
      ensures ok == dev
    {
      if !dev {
        dev := starts;
      }
      ok := dev;
    }

    /** Makes the session the owner; works says whether the claim does. */
    method SetSelection(session: Session, usable: bool, works: bool) returns (ok: bool)
      requires session != ""
      modifies this
      ensures Now() == Finish(old(Now()), Selecting(session), usable, works)
      ensures ok == (usable && old(dev) && works) && (ok ==> claimer == session)
    {
      if !usable || !dev {
        return false;
      }
      FinishSelecting(Now(), session, works);
      DropTransfers();
      var previous := claimer;
      claimer := session;
      if !works {
        claimer := previous;
      }
      return works;
    }

    /** Hands over the pipe of a transfer pending for the session. */
    method SelectionWrite(session: Session, serial: nat, usable: bool) returns (pipe: Option<Pipe>)
      modifies this
      ensures Now() == Finish(old(Now()), Writing(session, serial), usable, true)
      ensures pipe.Some? <==> usable && Takes(old(Now()), session, serial)
      ensures pipe.Some? ==> pipe.value == old(transfers)[serial].pipe && serial !in transfers
    {
      if !usable || serial !in transfers || transfers[serial].session != session {
        return None;
      }
      pipe := Some(transfers[serial].pipe);
      transfers := transfers - {serial};
      handed := handed[pipe.value := session];
    }
  }
}
