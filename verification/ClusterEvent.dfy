/**
 * Synchronisation of cluster state change events: clstat_raise posts an event and waits until the
 * sentinel, the last handler of the event's delivery, clears BUSY; a shutdown sets FINI.  One action is
 * one critical section or one call into the event queue.
 */
module ClusterEvent {
  import opened Common

  type Id = nat

  datatype Err = Zero | ECANCELED | EBUSY | ETIMEDOUT | PostError

  /** Where a call of clstat_raise stands. */
  datatype Pc =
    | Start                       // before the first lock
    | Posting                     // BUSY set, about to post
    | PostFailed                  // about to clear BUSY again
    | Testing(timedOut: bool)     // about to test the flags under the lock
    | Asleep                      // in the timed wait
    | Done(err: Err)

  /**
   * queue, current: the event queue and its only delivery thread; an event has the number of its call.
   * isAct: the calls whose event type the sentinel listens to.  sentinel: the handler is registered.
   * History: owner is the call that set BUSY, reached holds the events the sentinel has seen, lost the
   * events delivered without it.
   */
  datatype State = State(
    pc: seq<Pc>, isAct: seq<bool>, busy: bool, fini: bool, sentinel: bool,
    queue: seq<Id>, current: Option<Id>,
    owner: Option<Id>, reached: set<Id>, lost: set<Id>)

  datatype Action =
    | Enter(i: Id)
    | Post(i: Id, ok: bool)
    | Unpost(i: Id)
    | Test(i: Id)
    | Wake(i: Id, timedOut: bool)
    | Take
    | Sentinel(woken: Option<Id>)
    | Drop
    | Fini(woken: Option<Id>)
    | RemoveHandler

  ghost predicate WellFormed(s: State) {
    && |s.pc| == |s.isAct|
    && (s.current.Some? ==> s.current.value < |s.pc|)
    && (forall x :: 0 <= x < |s.queue| ==> s.queue[x] < |s.pc|)
  }

  function Init(isAct: seq<bool>): State {
    State(seq(|isAct|, _ => Start), isAct, false, false, true, [], None, None, {}, {})
  }

  /** A signal wakes one sleeper if there is one. */
  predicate Signalled(s: State, woken: Option<Id>) {
    match woken
    case Some(i) => i < |s.pc| && s.pc[i].Asleep?
    case None => forall i :: 0 <= i < |s.pc| ==> !s.pc[i].Asleep?
  }

  ghost predicate Can(s: State, a: Action) {
    WellFormed(s) &&
    match a
    case Enter(i) => i < |s.pc| && s.pc[i].Start?
    case Post(i, _) => i < |s.pc| && s.pc[i].Posting?
    case Unpost(i) => i < |s.pc| && s.pc[i].PostFailed?
    case Test(i) => i < |s.pc| && s.pc[i].Testing?
    case Wake(i, _) => i < |s.pc| && s.pc[i].Asleep?
    case Take => s.current.None? && s.queue != []
    case Sentinel(woken) => s.current.Some? && s.sentinel && s.isAct[s.current.value] && Signalled(s, woken)
    case Drop => s.current.Some? && !(s.sentinel && s.isAct[s.current.value])
    case Fini(woken) => !s.fini && Signalled(s, woken)
    case RemoveHandler => s.fini
  }

  function Signal(pc: seq<Pc>, woken: Option<Id>): seq<Pc>
    requires woken.Some? ==> woken.value < |pc|
  {
    if woken.Some? then pc[woken.value := Testing(false)] else pc
  }

  /** What one pass of the wait loop does: leave it with a result, or sleep. */
  function Tested(s: State, timedOut: bool): Pc {
    if !s.busy then Done(Zero)
    else if s.fini then Done(ECANCELED)
    else if timedOut then Done(ETIMEDOUT)
    else Asleep
  }

  ghost function Do(s: State, a: Action): State
    requires Can(s, a)
  {
    match a
    case Enter(i) =>
      if s.fini then s.(pc := s.pc[i := Done(ECANCELED)])
      else if s.busy then s.(pc := s.pc[i := Done(EBUSY)])
      else s.(pc := s.pc[i := Posting], busy := true, owner := Some(i))
    case Post(i, ok) =>
      if ok then s.(pc := s.pc[i := Testing(false)], queue := s.queue + [i]) else s.(pc := s.pc[i := PostFailed])
    case Unpost(i) => s.(pc := s.pc[i := Done(PostError)], busy := false, owner := None)
    case Test(i) => s.(pc := s.pc[i := Tested(s, s.pc[i].timedOut)])
    case Wake(i, timedOut) => s.(pc := s.pc[i := Testing(timedOut)])
    case Take => s.(current := Some(s.queue[0]), queue := s.queue[1..])
    case Sentinel(woken) =>
      s.(pc := Signal(s.pc, woken), busy := false, current := None,
         owner := None, reached := s.reached + {s.current.value})
    case Drop => s.(current := None, lost := s.lost + {s.current.value})
    case Fini(woken) => s.(pc := Signal(s.pc, woken), fini := true)
    case RemoveHandler => s.(sentinel := false)
  }

  ghost predicate Legal(s: State, acts: seq<Action>)
    decreases acts
  {
    acts != [] ==> Can(s, acts[0]) && Legal(Do(s, acts[0]), acts[1..])
  }

  ghost function Run(s: State, acts: seq<Action>): State
    requires Legal(s, acts)
    decreases acts
  {
    if acts == [] then s else Run(Do(s, acts[0]), acts[1..])
  }

  // ------------------------------------------------------------ the invariant

  /** BUSY belongs to one call, whose event is at exactly one place. */
  predicate FlagInv(s: State)
    requires |s.pc| == |s.isAct|
  {
    && (s.busy <==> s.owner.Some?)
    && (s.owner.Some? ==> s.owner.value < |s.pc|)
    && (s.queue == [] || (s.owner.Some? && s.queue == [s.owner.value] && s.current.None?))
    && (s.current.Some? ==> s.owner == s.current)
    && (s.lost == {} || (s.owner.Some? && s.lost == {s.owner.value} && s.queue == [] && s.current.None?))
    && (s.lost != {} ==> s.fini || !s.isAct[s.owner.value])
    && (!s.sentinel ==> s.fini)
  }

  predicate CallInv(s: State, i: Id)
    requires i < |s.pc|
  {
    var p := s.pc[i];
    var sent := i in s.queue || s.current == Some(i) || i in s.lost;
    && (p.Posting? || p.PostFailed? ==> s.owner == Some(i) && !sent)
    && (s.owner == Some(i) ==> p.Posting? || p.PostFailed? || sent)
    && (s.owner == Some(i) ==> i !in s.reached)
    && (p.Start? || p.Posting? || p.PostFailed? ==> i !in s.reached)
    && (p.Start? ==> s.owner != Some(i))
    && (p.Testing? || p.Asleep? ==> i in s.reached || s.owner == Some(i))
    && (p == Done(Zero) ==> i in s.reached)
  }

  ghost predicate Inv(s: State) {
    WellFormed(s) && FlagInv(s) && forall i :: 0 <= i < |s.pc| ==> CallInv(s, i)
  }

  lemma InitInv(isAct: seq<bool>)
    ensures Inv(Init(isAct))
  {}

  lemma StepKeepsFlagInv(s: State, a: Action)
    requires Inv(s) && Can(s, a)
    ensures WellFormed(Do(s, a)) && FlagInv(Do(s, a)) && |Do(s, a).pc| == |s.pc|
  {
    if s.owner.Some? { assert CallInv(s, s.owner.value); }
    match a
    case Enter(i) => assert CallInv(s, i);
    case Post(i, ok) => assert CallInv(s, i); assert s.queue == [] && s.current.None?;
    case Unpost(i) => assert CallInv(s, i);
    case Take => assert s.queue == [s.owner.value];
    case _ =>
  }

  lemma StepKeepsCallInv(s: State, a: Action, i: Id)
    requires Inv(s) && Can(s, a) && i < |s.pc| && |Do(s, a).pc| == |s.pc|
    ensures CallInv(Do(s, a), i)
  {
    assert CallInv(s, i);
    match a
    case Enter(j) => assert CallInv(s, j);
    case Post(j, ok) => assert CallInv(s, j);
    case Unpost(j) => assert CallInv(s, j);
    case Take => assert s.queue == [s.owner.value];
    case _ =>
  }

  lemma StepKeepsInv(s: State, a: Action)
    requires Inv(s) && Can(s, a)
    ensures Inv(Do(s, a))
  {
    StepKeepsFlagInv(s, a);
    forall i | 0 <= i < |s.pc| ensures CallInv(Do(s, a), i) { StepKeepsCallInv(s, a, i); }
  }

  lemma {:induction false} RunKeepsInv(s: State, acts: seq<Action>)
    requires Inv(s) && Legal(s, acts)
    ensures Inv(Run(s, acts))
    decreases acts
  {
    if acts != [] {
      StepKeepsInv(s, acts[0]);
      RunKeepsInv(Do(s, acts[0]), acts[1..]);
    }
  }

  // ------------------------------------------------------------------ safety

  /** The event of call i is being posted, queued or delivered. */
  predicate InFlight(s: State, i: Id) {
    i < |s.pc| && (s.pc[i].Posting? || s.pc[i].PostFailed? || i in s.queue || s.current == Some(i))
  }

  /**
   * Every interleaving, with timeouts, failed posts and shutdown: at most one event is in flight, the sentinel
   * always finds BUSY set, a raise that returned 0 had its own event reach the sentinel, and BUSY is set
   * exactly while an event is in flight, unless an event was lost, which takes a shutdown or a foreign type.
   */
  lemma RaiseIsSafe(isAct: seq<bool>, acts: seq<Action>, i: Id, j: Id)
    requires Legal(Init(isAct), acts)
    ensures var s := Run(Init(isAct), acts);
            && (InFlight(s, i) && InFlight(s, j) ==> i == j)
            && (forall w :: Can(s, Sentinel(w)) ==> s.busy)
            && (i < |s.pc| && s.pc[i] == Done(Zero) ==> i in s.reached)
            && (s.busy <==> (exists k :: InFlight(s, k)) || s.lost != {})
            && (s.lost != {} ==> s.fini || exists k :: 0 <= k < |isAct| && !isAct[k])
  {
    InitInv(isAct);
    RunKeepsInv(Init(isAct), acts);
    TypesStay(Init(isAct), acts);
    var s := Run(Init(isAct), acts);
    if i < |s.pc| { assert CallInv(s, i); }
    if j < |s.pc| { assert CallInv(s, j); }
    if s.busy {
      var k := s.owner.value;
      assert CallInv(s, k);
      assert InFlight(s, k) || s.lost != {};
    }
    if k :| InFlight(s, k) { assert CallInv(s, k); }
  }

  lemma {:induction false} TypesStay(s: State, acts: seq<Action>)
    requires Legal(s, acts)
    ensures Run(s, acts).isAct == s.isAct
    decreases acts
  {
    if acts != [] { TypesStay(Do(s, acts[0]), acts[1..]); }
  }

  /** A call that has not taken the lock when FINI goes up never posts; it can only be cancelled. */
  lemma {:induction false} NothingIsPostedAfterFini(s: State, acts: seq<Action>, i: Id)
    requires Inv(s) && Legal(s, acts) && s.fini && i < |s.pc| && s.pc[i].Start?
    ensures var t := Run(s, acts);
            && t.fini && |t.pc| == |s.pc| && (t.pc[i].Start? || t.pc[i] == Done(ECANCELED))
            && !InFlight(t, i) && i !in t.reached && i !in t.lost
    decreases acts
  {
    assert CallInv(s, i);
    if acts != [] {
      StepKeepsInv(s, acts[0]);
      var t := Do(s, acts[0]);
      if t.pc[i].Start? {
        NothingIsPostedAfterFini(t, acts[1..], i);
      } else {
        CancelledStays(t, acts[1..], i);
      }
    }
  }

  lemma {:induction false} CancelledStays(s: State, acts: seq<Action>, i: Id)
    requires Inv(s) && Legal(s, acts) && i < |s.pc| && s.pc[i] == Done(ECANCELED)
    requires s.fini && s.owner != Some(i) && i !in s.reached
    ensures var t := Run(s, acts);
            && t.fini && |t.pc| == |s.pc| && t.pc[i] == Done(ECANCELED)
            && !InFlight(t, i) && i !in t.reached && i !in t.lost
    decreases acts
  {
    if acts != [] {
      StepKeepsInv(s, acts[0]);
      CancelledStays(Do(s, acts[0]), acts[1..], i);
    }
  }

  /** An event of a type the sentinel does not listen to leaves BUSY set for good: no later raise is accepted. */
  lemma {:induction false} LostEventBlocksForever(s: State, acts: seq<Action>, i: Id)
    requires Inv(s) && Legal(s, acts) && s.lost != {} && i < |s.pc| && s.pc[i].Start?
    ensures var t := Run(s, acts);
            && t.busy && t.owner == s.owner && |t.pc| == |s.pc|
            && (t.pc[i].Start? || t.pc[i] == Done(EBUSY) || t.pc[i] == Done(ECANCELED))
    decreases acts
  {
    LostStays(s, acts);
    assert CallInv(s, i);
    RefusedStays(s, acts, i);
  }

  lemma {:induction false} LostStays(s: State, acts: seq<Action>)
    requires Inv(s) && Legal(s, acts) && s.lost != {}
    ensures var t := Run(s, acts); t.lost == s.lost && t.owner == s.owner && t.busy
    decreases acts
  {
    if acts != [] {
      LostStep(s, acts[0]);
      StepKeepsInv(s, acts[0]);
      LostStays(Do(s, acts[0]), acts[1..]);
    }
  }

  lemma LostStep(s: State, a: Action)
    requires Inv(s) && Can(s, a) && s.lost != {}
    ensures Do(s, a).lost == s.lost && Do(s, a).owner == s.owner && Do(s, a).busy
  {
    assert a.Unpost? ==> CallInv(s, a.i);
  }

  predicate Refused(p: Pc) {
    p.Start? || p == Done(EBUSY) || p == Done(ECANCELED)
  }

  lemma {:induction false} RefusedStays(s: State, acts: seq<Action>, i: Id)
    requires Inv(s) && Legal(s, acts) && s.lost != {} && i < |s.pc| && Refused(s.pc[i])
    ensures |Run(s, acts).pc| == |s.pc| && Refused(Run(s, acts).pc[i])
    decreases acts
  {
    if acts != [] {
      LostStep(s, acts[0]);
      StepKeepsInv(s, acts[0]);
      RefusedStays(Do(s, acts[0]), acts[1..], i);
    }
  }

  /** Such a state is reached by raising one event of such a type, whichever call does it. */
  lemma LostEventIsReachable(isAct: seq<bool>, k: Id)
    requires k < |isAct| && !isAct[k]
    ensures exists s: State :: Reachable(isAct, s) && s.lost == {k} && !s.fini && s.busy
  {
    var s0 := Init(isAct);
    assert Legal(s0, []) && Run(s0, []) == s0;
    var s1 := s0.(pc := s0.pc[k := Posting], busy := true, owner := Some(k));
    Reach(isAct, s0, Enter(k), s1);
    var s2 := s1.(pc := s1.pc[k := Testing(false)], queue := [k]);
    Reach(isAct, s1, Post(k, true), s2);
    var s3 := s2.(queue := [], current := Some(k));
    Reach(isAct, s2, Take, s3);
    var s4 := s3.(current := None, lost := {k});
    Reach(isAct, s3, Drop, s4);
  }

  /** Short of a shutdown an event can be lost if and only if some call raises a type the sentinel does not know. */
  lemma EventCanBeLostIff(isAct: seq<bool>)
    ensures (exists s: State :: Reachable(isAct, s) && s.lost != {} && !s.fini) <==>
            exists k :: 0 <= k < |isAct| && !isAct[k]
  {
    if k :| 0 <= k < |isAct| && !isAct[k] {
      LostEventIsReachable(isAct, k);
      var s: State :| Reachable(isAct, s) && s.lost == {k} && !s.fini && s.busy;
      assert k in s.lost;
    }
    if s: State :| Reachable(isAct, s) && s.lost != {} && !s.fini {
      var acts :| Legal(Init(isAct), acts) && Run(Init(isAct), acts) == s;
      RaiseIsSafe(isAct, acts, 0, 0);
    }
  }

  // ---------------------------------------------- results and wakeups, one raise at a time

  predicate Waiting(p: Pc) { p.Testing? || p.Asleep? }

  /** No call sets BUSY while another is still in its wait loop. */
  ghost predicate OneAtATime(s: State, acts: seq<Action>)
    requires Legal(s, acts)
    decreases acts
  {
    acts != [] ==>
      && (acts[0].Enter? && !s.fini && !s.busy ==> forall i :: 0 <= i < |s.pc| ==> !Waiting(s.pc[i]))
      && OneAtATime(Do(s, acts[0]), acts[1..])
  }

  /** Only the call whose event is in flight can be asleep, and then neither flag has changed behind its back. */
  predicate SoloAt(s: State, i: Id)
    requires i < |s.pc|
  {
    && (s.pc[i].Asleep? ==> s.busy && !s.fini)
    && (Waiting(s.pc[i]) && s.busy ==> s.owner == Some(i))
    && (Waiting(s.pc[i]) ==> forall j :: 0 <= j < |s.pc| && j != i ==>
          !Waiting(s.pc[j]) && !s.pc[j].Posting? && !s.pc[j].PostFailed?)
  }

  ghost predicate Solo(s: State) {
    Inv(s) && forall i :: 0 <= i < |s.pc| ==> SoloAt(s, i)
  }

  lemma StepKeepsSoloAt(s: State, a: Action, i: Id)
    requires Solo(s) && Can(s, a) && i < |s.pc| && |Do(s, a).pc| == |s.pc|
    requires a.Enter? && !s.fini && !s.busy ==> forall k :: 0 <= k < |s.pc| ==> !Waiting(s.pc[k])
    ensures SoloAt(Do(s, a), i)
  {
    assert SoloAt(s, i) && CallInv(s, i);
    match a
    case Enter(j) => assert SoloAt(s, j);
    case Post(j, ok) =>
      assert CallInv(s, j);
      forall k | 0 <= k < |s.pc| && k != j ensures !Waiting(s.pc[k]) && !s.pc[k].Posting? && !s.pc[k].PostFailed? {
        assert SoloAt(s, k) && CallInv(s, k);
      }
    case Unpost(j) =>
    case Test(j) => assert SoloAt(s, j);
    case Wake(j, timedOut) => assert SoloAt(s, j);
    case Take =>
    case Sentinel(woken) => if woken.Some? { assert SoloAt(s, woken.value); }
    case Drop =>
    case Fini(woken) => if woken.Some? { assert SoloAt(s, woken.value); }
    case RemoveHandler =>
  }

  lemma {:induction false} RunKeepsSolo(s: State, acts: seq<Action>)
    requires Solo(s) && Legal(s, acts) && OneAtATime(s, acts)
    ensures Solo(Run(s, acts))
    decreases acts
  {
    if acts != [] {
      StepKeepsInv(s, acts[0]);
      StepKeepsFlagInv(s, acts[0]);
      forall i | 0 <= i < |s.pc| ensures SoloAt(Do(s, acts[0]), i) { StepKeepsSoloAt(s, acts[0], i); }
      RunKeepsSolo(Do(s, acts[0]), acts[1..]);
    }
  }

  /**
   * With one raise at a time no wakeup is lost, and a call that leaves its loop returns 0 if and only if
   * its event has reached the sentinel.
   */
  lemma OneAtATimeIsExact(isAct: seq<bool>, acts: seq<Action>, i: Id)
    requires Legal(Init(isAct), acts) && OneAtATime(Init(isAct), acts)
    requires i < |Run(Init(isAct), acts).pc|
    ensures var s := Run(Init(isAct), acts);
            && (s.pc[i].Asleep? ==> s.busy && !s.fini)
            && (s.pc[i].Testing? ==> (Tested(s, s.pc[i].timedOut) == Done(Zero) <==> i in s.reached))
  {
    InitInv(isAct);
    RunKeepsSolo(Init(isAct), acts);
    var s := Run(Init(isAct), acts);
    assert SoloAt(s, i) && CallInv(s, i);
  }

  // ---------------------------------------------- results and wakeups in general

  /**
   * The exact condition, on every run: the result that a call is about to compute is right, 0 if and only if its event
   * reached the sentinel, exactly if BUSY is clear or its own.
   */
  lemma ResultIsRightIff(isAct: seq<bool>, acts: seq<Action>, i: Id)
    requires Legal(Init(isAct), acts)
    requires i < |Run(Init(isAct), acts).pc| && Run(Init(isAct), acts).pc[i].Testing?
    ensures var s := Run(Init(isAct), acts);
            (Tested(s, s.pc[i].timedOut) == Done(Zero) <==> i in s.reached) <==> (s.busy ==> s.owner == Some(i))
  {
    InitInv(isAct);
    RunKeepsInv(Init(isAct), acts);
    assert CallInv(Run(Init(isAct), acts), i);
  }

  // ---------------------------------------------- how each step of a call ends, over runs

  lemma {:induction false} Prefix(s: State, acts: seq<Action>, n: nat)
    requires Legal(s, acts) && n <= |acts|
    ensures Legal(s, acts[..n])
    ensures n < |acts| ==>
              && Can(Run(s, acts[..n]), acts[n]) && Legal(s, acts[..n + 1])
              && Run(s, acts[..n + 1]) == Do(Run(s, acts[..n]), acts[n])
    decreases n
  {
    if n > 0 {
      assert acts[..n][1..] == acts[1..][..n - 1];
      Prefix(Do(s, acts[0]), acts[1..], n - 1);
      if n < |acts| { assert acts[..n + 1][1..] == acts[1..][..n]; }
    } else if acts != [] {
      assert acts[..1][1..] == [];
    }
  }

  /** A shutdown came before action n. */
  predicate ShutDownBy(acts: seq<Action>, n: nat)
    requires n <= |acts|
  {
    exists m :: 0 <= m < n && acts[m].Fini?
  }

  /** The wait that call i last came out of had timed out. */
  predicate TimedOutBy(acts: seq<Action>, n: nat, i: Id)
    requires n <= |acts|
  {
    exists w :: 0 <= w < n && acts[w] == Wake(i, true) && forall m :: w < m < n ==> acts[m] != Test(i)
  }

  lemma {:induction false} ShutDownIff(isAct: seq<bool>, acts: seq<Action>, n: nat)
    requires Legal(Init(isAct), acts) && n <= |acts|
    ensures Legal(Init(isAct), acts[..n]) && (Run(Init(isAct), acts[..n]).fini <==> ShutDownBy(acts, n))
  {
    Prefix(Init(isAct), acts, n);
    if n > 0 {
      ShutDownIff(isAct, acts, n - 1);
      Prefix(Init(isAct), acts, n - 1);
      if acts[n - 1].Fini? { assert ShutDownBy(acts, n); }
    }
  }

  lemma TimedOutStep(s: State, a: Action, i: Id)
    requires Inv(s) && Can(s, a) && i < |s.pc| && i < |Do(s, a).pc|
    ensures Do(s, a).pc[i] == Testing(true) <==> a == Wake(i, true) || (s.pc[i] == Testing(true) && a != Test(i))
  {
    assert CallInv(s, i);
  }

  lemma {:induction false} TimedOutIff(isAct: seq<bool>, acts: seq<Action>, n: nat, i: Id)
    requires Legal(Init(isAct), acts) && n <= |acts| && i < |isAct|
    ensures Legal(Init(isAct), acts[..n])
    ensures var s := Run(Init(isAct), acts[..n]);
            Inv(s) && i < |s.pc| && (s.pc[i] == Testing(true) <==> TimedOutBy(acts, n, i))
  {
    Prefix(Init(isAct), acts, n);
    InitInv(isAct);
    RunKeepsInv(Init(isAct), acts[..n]);
    if n > 0 {
      TimedOutIff(isAct, acts, n - 1, i);
      Prefix(Init(isAct), acts, n - 1);
      var a := acts[n - 1];
      StepKeepsFlagInv(Run(Init(isAct), acts[..n - 1]), a);
      TimedOutStep(Run(Init(isAct), acts[..n - 1]), a, i);
      TimedOutGoesOn(acts, n, i);
    }
  }

  lemma TimedOutGoesOn(acts: seq<Action>, n: nat, i: Id)
    requires 0 < n <= |acts|
    ensures TimedOutBy(acts, n, i) <==>
            acts[n - 1] == Wake(i, true) || (TimedOutBy(acts, n - 1, i) && acts[n - 1] != Test(i))
  {
    if TimedOutBy(acts, n - 1, i) && acts[n - 1] != Test(i) {
      var w :| 0 <= w < n - 1 && acts[w] == Wake(i, true) && forall m :: w < m < n - 1 ==> acts[m] != Test(i);
      assert forall m :: w < m < n ==> acts[m] != Test(i);
    }
    if TimedOutBy(acts, n, i) && acts[n - 1] != Wake(i, true) {
      var w :| 0 <= w < n && acts[w] == Wake(i, true) && forall m :: w < m < n ==> acts[m] != Test(i);
      assert w < n - 1;
    }
  }

  /** An event is on its way, or was lost. */
  ghost predicate Outstanding(s: State) { (exists k :: InFlight(s, k)) || s.lost != {} }

  /**
   * How a raise is received, on every run: cancelled exactly after a shutdown, refused as busy exactly if there was
   * none and an event is outstanding, and accepted otherwise.
   */
  lemma EnterIff(isAct: seq<bool>, acts: seq<Action>, n: nat, i: Id)
    requires Legal(Init(isAct), acts) && n < |acts| && acts[n] == Enter(i)
    ensures Legal(Init(isAct), acts[..n]) && Legal(Init(isAct), acts[..n + 1])
    ensures var s, t := Run(Init(isAct), acts[..n]), Run(Init(isAct), acts[..n + 1]);
            && i < |t.pc|
            && (t.pc[i] == Done(ECANCELED) <==> ShutDownBy(acts, n))
            && (t.pc[i] == Done(EBUSY) <==> !ShutDownBy(acts, n) && Outstanding(s))
            && (t.pc[i] == Posting <==> !ShutDownBy(acts, n) && !Outstanding(s))
  {
    Prefix(Init(isAct), acts, n);
    ShutDownIff(isAct, acts, n);
    RaiseIsSafe(isAct, acts[..n], i, i);
  }

  /**
   * How a pass of the wait loop ends, on every run: with 0 exactly if no event is outstanding; otherwise cancelled
   * exactly after a shutdown, timed out exactly if there was none and its wait had timed out, and asleep again if not.
   */
  lemma TestIff(isAct: seq<bool>, acts: seq<Action>, n: nat, i: Id)
    requires Legal(Init(isAct), acts) && n < |acts| && acts[n] == Test(i)
    ensures Legal(Init(isAct), acts[..n]) && Legal(Init(isAct), acts[..n + 1])
    ensures var s, t := Run(Init(isAct), acts[..n]), Run(Init(isAct), acts[..n + 1]);
            && i < |t.pc|
            && (t.pc[i] == Done(Zero) <==> !Outstanding(s))
            && (t.pc[i] == Done(ECANCELED) <==> Outstanding(s) && ShutDownBy(acts, n))
            && (t.pc[i] == Done(ETIMEDOUT) <==> Outstanding(s) && !ShutDownBy(acts, n) && TimedOutBy(acts, n, i))
            && (t.pc[i] == Asleep <==> Outstanding(s) && !ShutDownBy(acts, n) && !TimedOutBy(acts, n, i))
  {
    Prefix(Init(isAct), acts, n);
    ShutDownIff(isAct, acts, n);
    TypesStay(Init(isAct), acts[..n]);
    InitInv(isAct);
    RunKeepsInv(Init(isAct), acts[..n]);
    TimedOutIff(isAct, acts, n, i);
    RaiseIsSafe(isAct, acts[..n], i, i);
  }

  /** The sentinel is there exactly until its handler is removed, on every run. */
  lemma {:induction false} SentinelIff(isAct: seq<bool>, acts: seq<Action>)
    requires Legal(Init(isAct), acts)
    ensures Run(Init(isAct), acts).sentinel <==> RemoveHandler !in acts
    decreases |acts|
  {
    if acts != [] {
      var n := |acts| - 1;
      Prefix(Init(isAct), acts, n);
      assert acts[..n + 1] == acts && acts == acts[..n] + [acts[n]];
      SentinelIff(isAct, acts[..n]);
    }
  }

  /** After that no further event reaches it. */
  lemma {:induction false} NothingIsReachedAfterRemoval(s: State, acts: seq<Action>)
    requires Legal(s, acts) && !s.sentinel
    ensures Run(s, acts).reached == s.reached && !Run(s, acts).sentinel
    decreases acts
  {
    if acts != [] { NothingIsReachedAfterRemoval(Do(s, acts[0]), acts[1..]); }
  }

  /** A post that fails is reported as such, and only such a post: on every run. */
  lemma {:induction false} PostErrorIff(isAct: seq<bool>, acts: seq<Action>, i: Id)
    requires Legal(Init(isAct), acts) && i < |isAct|
    ensures var p := Run(Init(isAct), acts).pc;
            && |p| == |isAct|
            && (p[i].PostFailed? || p[i] == Done(PostError) <==> Post(i, false) in acts)
            && (p[i] == Done(PostError) <==> Unpost(i) in acts)
    decreases |acts|
  {
    InitInv(isAct);
    RunKeepsInv(Init(isAct), acts);
    TypesStay(Init(isAct), acts);
    if acts != [] {
      var n := |acts| - 1;
      Prefix(Init(isAct), acts, n);
      assert acts[..n + 1] == acts && acts == acts[..n] + [acts[n]];
      PostErrorIff(isAct, acts[..n], i);
      RunKeepsInv(Init(isAct), acts[..n]);
      PostErrorStep(Run(Init(isAct), acts[..n]), acts[n], i);
    }
  }

  lemma PostErrorStep(s: State, a: Action, i: Id)
    requires Inv(s) && Can(s, a) && i < |s.pc|
    ensures var p, q := s.pc[i], Do(s, a).pc;
            && |q| == |s.pc|
            && (q[i].PostFailed? || q[i] == Done(PostError) <==>
                  p.PostFailed? || p == Done(PostError) || a == Post(i, false))
            && (q[i] == Done(PostError) <==> p == Done(PostError) || a == Unpost(i))
  {
    StepKeepsFlagInv(s, a);
    assert CallInv(s, i);
  }

  /** A call that sleeps although a test of the flags would end its loop. */
  predicate Stranded(s: State, i: Id)
    requires i < |s.pc|
  {
    s.pc[i].Asleep? && (!s.busy || s.fini)
  }

  /**
   * Exactly the steps that strand a sleeping call: a sentinel or a shutdown whose signal goes to another call, and a
   * failed post of another call, which clears BUSY without a signal.
   */
  lemma StrandsIff(s: State, a: Action, i: Id)
    requires Inv(s) && Can(s, a) && i < |s.pc| && !Stranded(s, i)
    ensures i < |Do(s, a).pc|
    ensures Stranded(Do(s, a), i) <==>
            s.pc[i].Asleep? && (a.Unpost? || ((a.Sentinel? || a.Fini?) && a.woken != Some(i)))
    ensures Stranded(Do(s, a), i) ==>
            exists j: Id :: j < |s.pc| && j != i && (s.pc[j].Asleep? || s.pc[j].PostFailed?)
  {
    StepKeepsFlagInv(s, a);
    if s.pc[i].Asleep? {
      if a.Unpost? { assert s.pc[a.i].PostFailed? && a.i != i; }
      if (a.Sentinel? || a.Fini?) && a.woken.Some? { assert s.pc[a.woken.value].Asleep?; }
    }
  }

  /** A second raise gets in before the first has seen its event delivered. */
  ghost function Overtaken(): State {
    State([Asleep, Posting], [true, true], true, false, true, [], None, Some(1), {0}, {})
  }

  ghost predicate Reachable(isAct: seq<bool>, s: State) {
    exists acts: seq<Action> :: Legal(Init(isAct), acts) && Run(Init(isAct), acts) == s
  }

  lemma {:induction false} Extend(s: State, acts: seq<Action>, a: Action)
    requires Legal(s, acts) && Can(Run(s, acts), a)
    ensures Legal(s, acts + [a]) && Run(s, acts + [a]) == Do(Run(s, acts), a)
    decreases acts
  {
    if acts != [] {
      assert (acts + [a])[1..] == acts[1..] + [a];
      Extend(Do(s, acts[0]), acts[1..], a);
    }
  }

  lemma Reach(isAct: seq<bool>, s: State, a: Action, t: State)
    requires Reachable(isAct, s) && Can(s, a) && Do(s, a) == t
    ensures Reachable(isAct, t)
  {
    var acts :| Legal(Init(isAct), acts) && Run(Init(isAct), acts) == s;
    Extend(Init(isAct), acts, a);
  }

  lemma OvertakenIsReachable()
    ensures Reachable([true, true], Overtaken())
  {
    var both := [true, true];
    var s0 := State([Start, Start], both, false, false, true, [], None, None, {}, {});
    assert Legal(Init(both), []) && Run(Init(both), []) == s0;
    var s1 := s0.(pc := [Posting, Start], busy := true, owner := Some(0));
    Reach(both, s0, Enter(0), s1);
    var s2 := s1.(pc := [Testing(false), Start], queue := [0]);
    Reach(both, s1, Post(0, true), s2);
    FirstFallsAsleep(s2);
  }

  lemma FirstFallsAsleep(s2: State)
    requires s2 == State([Testing(false), Start], [true, true], true, false, true, [0], None, Some(0), {}, {})
    requires Reachable([true, true], s2)
    ensures Reachable([true, true], Overtaken())
  {
    var s3 := s2.(pc := [Asleep, Start]);
    Reach([true, true], s2, Test(0), s3);
    var s4 := s3.(queue := [], current := Some(0));
    Reach([true, true], s3, Take, s4);
    FirstIsOvertaken(s4);
  }

  lemma FirstIsOvertaken(s4: State)
    requires s4 == State([Asleep, Start], [true, true], true, false, true, [], Some(0), Some(0), {}, {})
    requires Reachable([true, true], s4)
    ensures Reachable([true, true], Overtaken())
  {
    var both := [true, true];
    var s5 := s4.(pc := [Testing(false), Start], busy := false, current := None, owner := None, reached := {0});
    Reach(both, s4, Sentinel(Some(0)), s5);
    var s6 := s5.(pc := [Testing(false), Posting], busy := true, owner := Some(1));
    Reach(both, s5, Enter(1), s6);
    Reach(both, s6, Test(0), Overtaken());
  }

  /** From there the first call times out although its event was delivered. */
  lemma DeliveredRaiseCanTimeOut()
    ensures var s := Overtaken();
            && Reachable([true, true], s) && Can(s, Wake(0, true)) && Can(Do(s, Wake(0, true)), Test(0))
            && Do(Do(s, Wake(0, true)), Test(0)).pc[0] == Done(ETIMEDOUT)
            && 0 in s.reached
  {
    OvertakenIsReachable();
  }

  /** And from there a signal can wake the first call alone, so the second sleeps with BUSY clear. */
  lemma SignalCanWakeTheWrongRaise()
    ensures exists s: State ::
              Reachable([true, true], s) && !s.busy && s.pc == [Testing(false), Asleep] && 1 in s.reached
  {
    OvertakenIsReachable();
    var both, s0 := [true, true], Overtaken();
    var s1 := s0.(pc := [Asleep, Testing(false)], queue := [1]);
    Reach(both, s0, Post(1, true), s1);
    var s2 := s1.(pc := [Asleep, Asleep]);
    Reach(both, s1, Test(1), s2);
    WrongOneWakes(s2);
  }

  lemma WrongOneWakes(s2: State)
    requires s2 == State([Asleep, Asleep], [true, true], true, false, true, [1], None, Some(1), {0}, {})
    requires Reachable([true, true], s2)
    ensures exists s: State ::
              Reachable([true, true], s) && !s.busy && s.pc == [Testing(false), Asleep] && 1 in s.reached
  {
    var both := [true, true];
    var s3 := s2.(queue := [], current := Some(1));
    Reach(both, s2, Take, s3);
    var s4 := s3.(pc := [Testing(false), Asleep], busy := false, current := None, owner := None, reached := {0, 1});
    Reach(both, s3, Sentinel(Some(0)), s4);
  }
}
