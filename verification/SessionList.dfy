/**
 * The list of cancellable IPC client sessions: clstat_sess_create links a session, clstat_sess_destroy
 * unlinks it and later broadcasts, clstat_ipclist_fini disables the list, cancels what is linked and waits
 * for the list to drain.  One action is one critical section, in any interleaving.
 */
module SessionList {

  type Id = nat

  datatype Err = Zero | ETIMEDOUT

  datatype Pc =
    | Opened      // clstat_sess_create before its critical section
    | Refused     // answered ECANCELED
    | Linked
    | Unlinked    // clstat_sess_destroy between its two critical sections
    | Destroyed

  /** The first call of clstat_ipclist_fini; later calls return ECANCELED and change nothing. */
  datatype Fini = NotCalled | Blocked | Awake(timedOut: bool) | Returned(err: Err)

  datatype State = State(pc: seq<Pc>, disabled: bool, sessions: set<Id>, cancelled: set<Id>, fini: Fini)

  datatype Action =
    | Open                          // a new session reaches clstat_sess_create
    | Link(i: Id)
    | Unlink(i: Id)
    | Broadcast(i: Id)
    | Disable
    | Wake(timedOut: bool)          // a timeout, a broadcast on the shared condition variable, a spurious wakeup
    | Test

  function Init(): State { State([], false, {}, {}, NotCalled) }

  predicate Can(s: State, a: Action) {
    match a
    case Open => true
    case Link(i) => i < |s.pc| && s.pc[i].Opened?
    case Unlink(i) => i < |s.pc| && s.pc[i].Linked?
    case Broadcast(i) => i < |s.pc| && s.pc[i].Unlinked?
    case Disable => !s.disabled
    case Wake(_) => s.fini.Blocked?
    case Test => s.fini.Awake?
  }

  /** The test of the wait loop: an empty list ends it with whatever the last wait returned. */
  function Tested(s: State, timedOut: bool): Fini {
    if s.sessions == {} then Returned(if timedOut then ETIMEDOUT else Zero)
    else if timedOut then Returned(ETIMEDOUT)
    else Blocked
  }

  function Do(s: State, a: Action): State
    requires Can(s, a)
  {
    match a
    case Open => s.(pc := s.pc + [Opened])
    case Link(i) =>
      if s.disabled then s.(pc := s.pc[i := Refused])
      else s.(pc := s.pc[i := Linked], sessions := s.sessions + {i})
    case Unlink(i) => s.(pc := s.pc[i := Unlinked], sessions := s.sessions - {i})
    case Broadcast(i) =>
      s.(pc := s.pc[i := Destroyed],
         fini := if s.disabled && s.sessions == {} && s.fini.Blocked? then Awake(false) else s.fini)
    case Disable => s.(disabled := true, cancelled := s.cancelled + s.sessions, fini := Tested(s, false))
    case Wake(timedOut) => s.(fini := Awake(timedOut))
    case Test => s.(fini := Tested(s, s.fini.timedOut))
  }

  predicate Legal(s: State, acts: seq<Action>)
    decreases acts
  {
    acts != [] ==> Can(s, acts[0]) && Legal(Do(s, acts[0]), acts[1..])
  }

  function Run(s: State, acts: seq<Action>): State
    requires Legal(s, acts)
    decreases acts
  {
    if acts == [] then s else Run(Do(s, acts[0]), acts[1..])
  }

  /** The loop that cancels every linked session, walking the list in order. */
  method CancelAll(sessions: seq<Id>, cancelled: set<Id>) returns (r: set<Id>)
    ensures r == cancelled + set i | i in sessions
  {
    r := cancelled;
    for x := 0 to |sessions|
      invariant r == cancelled + set i | i in sessions[..x]
    {
      r := r + {sessions[x]};
    }
  }

  // ------------------------------------------------------------ the invariant

  /** Some destroyer has unlinked its session and not yet broadcast. */
  predicate PendingBroadcast(s: State) {
    exists i :: 0 <= i < |s.pc| && s.pc[i].Unlinked?
  }

  ghost predicate Inv(s: State) {
    && (forall i: Id :: i in s.sessions <==> i < |s.pc| && s.pc[i].Linked?)
    && (s.disabled <==> !s.fini.NotCalled?)
    && (s.disabled ==> s.sessions <= s.cancelled)
    && (s.fini.Blocked? && s.sessions == {} ==> PendingBroadcast(s))
    && (s.fini == Returned(Zero) ==> s.sessions == {})
  }

  lemma StepKeepsInv(s: State, a: Action)
    requires Inv(s) && Can(s, a)
    ensures Inv(Do(s, a))
  {
    var t := Do(s, a);
    if a.Open? {
      forall i: Id ensures i in t.sessions <==> i < |t.pc| && t.pc[i].Linked? {}
    }
    if t.fini.Blocked? && t.sessions == {} {
      match a {
        case Unlink(i) => assert t.pc[i].Unlinked?;
        case Open =>
          var k :| 0 <= k < |s.pc| && s.pc[k].Unlinked?;
          assert t.pc[k].Unlinked?;
        case _ =>
      }
    }
  }

  lemma {:induction false} RunKeepsInv(s: State, acts: seq<Action>)
    requires Inv(s) && Legal(s, acts)
    ensures Inv(Run(s, acts))
    decreases acts
  {
    if acts != [] {
      StepKeepsInv(s, acts[0]);
      RunKeepsInv(Do(s, acts[0]), acts[1..]);
    }
  }

  // --------------------------------------------------------------- the drain

  /** Once the list is disabled nothing is linked any more, what was linked stays cancelled, the list only shrinks. */
  lemma {:induction false} DisabledListOnlyShrinks(s: State, acts: seq<Action>)
    requires Inv(s) && s.disabled && Legal(s, acts)
    ensures var t := Run(s, acts);
            t.disabled && t.sessions <= s.sessions <= t.cancelled && t.cancelled == s.cancelled
    decreases acts
  {
    if acts != [] {
      StepKeepsInv(s, acts[0]);
      DisabledListOnlyShrinks(Do(s, acts[0]), acts[1..]);
    }
  }

  /** On every run: a fini that returned 0 left the list empty, and it stays so whatever follows. */
  lemma ZeroMeansDrainedForever(acts: seq<Action>, later: seq<Action>)
    requires Legal(Init(), acts) && Run(Init(), acts).fini == Returned(Zero) && Legal(Run(Init(), acts), later)
    ensures Run(Init(), acts).sessions == {} && Run(Run(Init(), acts), later).sessions == {}
  {
    RunKeepsInv(Init(), acts);
    DisabledListOnlyShrinks(Run(Init(), acts), later);
  }

  /** Disabling cancels exactly what is linked at that moment, and sessions that arrive later are refused. */
  lemma DisableCancelsAllLinked(acts: seq<Action>, later: seq<Action>, i: Id)
    requires Legal(Init(), acts) && !Run(Init(), acts).disabled
    requires Legal(Do(Run(Init(), acts), Disable), later)
    ensures var t := Run(Do(Run(Init(), acts), Disable), later);
            && t.cancelled == Run(Init(), acts).sessions
            && (i < |t.pc| && t.pc[i].Linked? ==> i in t.cancelled)
  {
    RunKeepsInv(Init(), acts);
    var s := Run(Init(), acts);
    NotDisabledNothingCancelled(Init(), acts);
    StepKeepsInv(s, Disable);
    DisabledListOnlyShrinks(Do(s, Disable), later);
    RunKeepsInv(Do(s, Disable), later);
  }

  lemma {:induction false} NotDisabledNothingCancelled(s: State, acts: seq<Action>)
    requires Legal(s, acts) && (!s.disabled ==> s.cancelled == {})
    ensures !Run(s, acts).disabled ==> Run(s, acts).cancelled == {}
    decreases acts
  {
    if acts != [] { NotDisabledNothingCancelled(Do(s, acts[0]), acts[1..]); }
  }

  /** No wakeup is lost: when fini sleeps on an empty list a broadcast is still to come, and it wakes fini. */
  lemma NoLostWakeup(acts: seq<Action>)
    requires Legal(Init(), acts)
    requires Run(Init(), acts).fini.Blocked? && Run(Init(), acts).sessions == {}
    ensures var s := Run(Init(), acts);
            exists i :: 0 <= i < |s.pc| && Can(s, Broadcast(i)) && Do(s, Broadcast(i)).fini == Awake(false)
  {
    RunKeepsInv(Init(), acts);
    var s := Run(Init(), acts);
    var i :| 0 <= i < |s.pc| && s.pc[i].Unlinked?;
    assert Can(s, Broadcast(i)) && Do(s, Broadcast(i)).fini == Awake(false);
  }

  // ------------------------------------------------------- the result of fini, over runs

  lemma {:induction false} Prefix(s: State, acts: seq<Action>, n: nat)
    requires Legal(s, acts) && n <= |acts|
    ensures Legal(s, acts[..n])
    ensures n < |acts| ==>
              && Can(Run(s, acts[..n]), acts[n]) && Legal(s, acts[..n + 1])
              && Run(s, acts[..n + 1]) == Do(Run(s, acts[..n]), acts[n])
    decreases n
  {
    if n > 0 {
      assert acts[..n][1..] == acts[1..][..n - 1];
      Prefix(Do(s, acts[0]), acts[1..], n - 1);
      if n < |acts| { assert acts[..n + 1][1..] == acts[1..][..n]; }
    } else if acts != [] {
      assert acts[..1][1..] == [];
    }
  }

  /** The list was disabled by one of the first n actions. */
  predicate DisabledBy(acts: seq<Action>, n: nat)
    requires n <= |acts|
  {
    exists m :: 0 <= m < n && acts[m] == Disable
  }

  /** The wait that the action n follows up ended by a timeout. */
  predicate TimedOutBy(acts: seq<Action>, n: nat)
    requires n <= |acts|
  {
    exists w :: 0 <= w < n && acts[w] == Wake(true) && forall m :: w < m < n ==> acts[m] != Test
  }

  /** Action m linked session i, and it was not unlinked before action n. */
  predicate StillLinked(acts: seq<Action>, n: nat, i: Id, m: nat)
    requires n <= |acts|
  {
    m < n && acts[m] == Link(i) && !DisabledBy(acts, m) && forall u :: m < u < n ==> acts[u] != Unlink(i)
  }

  lemma {:induction false} DisabledIff(acts: seq<Action>, n: nat)
    requires Legal(Init(), acts) && n <= |acts|
    ensures Legal(Init(), acts[..n]) && (Run(Init(), acts[..n]).disabled <==> DisabledBy(acts, n))
  {
    Prefix(Init(), acts, n);
    if n > 0 {
      DisabledIff(acts, n - 1);
      Prefix(Init(), acts, n - 1);
      if acts[n - 1] == Disable { assert DisabledBy(acts, n); }
    }
  }

  lemma {:induction false} TimedOutIff(acts: seq<Action>, n: nat)
    requires Legal(Init(), acts) && n <= |acts|
    ensures Legal(Init(), acts[..n]) && (Run(Init(), acts[..n]).fini == Awake(true) <==> TimedOutBy(acts, n))
  {
    Prefix(Init(), acts, n);
    if n > 0 {
      TimedOutIff(acts, n - 1);
      Prefix(Init(), acts, n - 1);
      RunKeepsInv(Init(), acts[..n - 1]);
      var a := acts[n - 1];
      if TimedOutBy(acts, n - 1) && a != Test {
        var w :| 0 <= w < n - 1 && acts[w] == Wake(true) && forall m :: w < m < n - 1 ==> acts[m] != Test;
        assert forall m :: w < m < n ==> acts[m] != Test;
      }
      if a == Wake(true) { assert TimedOutBy(acts, n); }
      if TimedOutBy(acts, n) && a != Wake(true) {
        var w :| 0 <= w < n && acts[w] == Wake(true) && forall m :: w < m < n ==> acts[m] != Test;
        assert w < n - 1;
      }
    }
  }

  lemma {:induction false} LinkedIff(acts: seq<Action>, n: nat, i: Id)
    requires Legal(Init(), acts) && n <= |acts|
    ensures Legal(Init(), acts[..n])
    ensures i in Run(Init(), acts[..n]).sessions <==> exists m: nat :: StillLinked(acts, n, i, m)
  {
    Prefix(Init(), acts, n);
    if n > 0 {
      LinkedIff(acts, n - 1, i);
      Prefix(Init(), acts, n - 1);
      DisabledIff(acts, n - 1);
      RunKeepsInv(Init(), acts[..n - 1]);
      var a := acts[n - 1];
      var p: nat := n - 1;
      if m: nat :| StillLinked(acts, p, i, m) {
        if a != Unlink(i) { assert StillLinked(acts, n, i, m); }
      }
      if a == Link(i) && !DisabledBy(acts, n - 1) { assert StillLinked(acts, n, i, n - 1); }
      if m: nat :| StillLinked(acts, n, i, m) {
        if m < n - 1 { assert StillLinked(acts, n - 1, i, m); }
      }
    }
  }

  /** Some session that was linked before action n has not been unlinked by then. */
  ghost predicate SomeLinked(acts: seq<Action>, n: nat)
    requires n <= |acts|
  {
    exists i: Id, m: nat :: StillLinked(acts, n, i, m)
  }

  lemma SomeLinkedIff(acts: seq<Action>, n: nat)
    requires Legal(Init(), acts) && n <= |acts|
    ensures Legal(Init(), acts[..n]) && (Run(Init(), acts[..n]).sessions != {} <==> SomeLinked(acts, n))
  {
    Prefix(Init(), acts, n);
    var s := Run(Init(), acts[..n]);
    if s.sessions != {} {
      var i :| i in s.sessions;
      LinkedIff(acts, n, i);
      var m: nat :| StillLinked(acts, n, i, m);
    }
    if i: Id, m: nat :| StillLinked(acts, n, i, m) { LinkedIff(acts, n, i); }
  }

  /**
   * On every run, how a re-test ends: with ETIMEDOUT exactly if the wait before it timed out, whatever is linked; in
   * another sleep exactly if it did not and some session is still linked; with 0 otherwise.
   */
  lemma RetestIff(acts: seq<Action>, n: nat)
    requires Legal(Init(), acts) && n < |acts| && acts[n] == Test
    ensures Legal(Init(), acts[..n + 1])
    ensures var f := Run(Init(), acts[..n + 1]).fini;
            && (f == Returned(ETIMEDOUT) <==> TimedOutBy(acts, n))
            && (f == Blocked <==> !TimedOutBy(acts, n) && SomeLinked(acts, n))
            && (f == Returned(Zero) <==> !TimedOutBy(acts, n) && !SomeLinked(acts, n))
  {
    Prefix(Init(), acts, n);
    TimedOutIff(acts, n);
    SomeLinkedIff(acts, n);
  }

  /** And the first test, under the lock that disables the list: it never times out. */
  lemma FirstTestIff(acts: seq<Action>, n: nat)
    requires Legal(Init(), acts) && n < |acts| && acts[n] == Disable
    ensures Legal(Init(), acts[..n + 1])
    ensures Run(Init(), acts[..n + 1]).fini == if SomeLinked(acts, n) then Blocked else Returned(Zero)
  {
    Prefix(Init(), acts, n);
    SomeLinkedIff(acts, n);
  }

  /** A destroyer's broadcast wakes a sleeping fini exactly if no session is linked any more. */
  lemma BroadcastWakesIff(acts: seq<Action>, n: nat, i: Id)
    requires Legal(Init(), acts) && n < |acts| && acts[n] == Broadcast(i)
    ensures Legal(Init(), acts[..n]) && Legal(Init(), acts[..n + 1])
    ensures var f, g := Run(Init(), acts[..n]).fini, Run(Init(), acts[..n + 1]).fini;
            g == if f == Blocked && !SomeLinked(acts, n) then Awake(false) else f
  {
    Prefix(Init(), acts, n);
    RunKeepsInv(Init(), acts[..n]);
    SomeLinkedIff(acts, n);
  }

  /** A session is refused exactly if it reaches the list after it was disabled; otherwise it is linked. */
  lemma LinkIsRefusedIff(acts: seq<Action>, n: nat, i: Id)
    requires Legal(Init(), acts) && n < |acts| && acts[n] == Link(i)
    ensures Legal(Init(), acts[..n + 1])
    ensures var s := Run(Init(), acts[..n + 1]);
            i < |s.pc| && s.pc[i] == (if DisabledBy(acts, n) then Refused else Linked)
  {
    Prefix(Init(), acts, n);
    DisabledIff(acts, n);
  }

  /**
   * On every run, a re-test of the list makes fini report ETIMEDOUT for a drained list exactly if the wait before it
   * timed out and every session that was ever linked had been unlinked by then.
   */
  lemma DrainedTimeoutIff(acts: seq<Action>, n: nat)
    requires Legal(Init(), acts) && n < |acts| && acts[n] == Test
    ensures Legal(Init(), acts[..n]) && Legal(Init(), acts[..n + 1])
    ensures (Run(Init(), acts[..n + 1]).fini == Returned(ETIMEDOUT) && Run(Init(), acts[..n + 1]).sessions == {}) <==>
            (TimedOutBy(acts, n) && forall i: Id, m: nat :: !StillLinked(acts, n, i, m))
  {
    Prefix(Init(), acts, n);
    TimedOutIff(acts, n);
    var s := Run(Init(), acts[..n]);
    forall i: Id ensures i in s.sessions <==> exists m: nat :: StillLinked(acts, n, i, m) { LinkedIff(acts, n, i); }
    forall i: Id, m: nat | StillLinked(acts, n, i, m) ensures i in s.sessions {}
    if s.sessions != {} {
      var i :| i in s.sessions;
      var m: nat :| StillLinked(acts, n, i, m);
    }
  }

  /** Such a run exists: fini reports ETIMEDOUT for a list that has drained. */
  lemma DrainedListCanTimeOut()
    ensures exists acts: seq<Action> ::
              && Legal(Init(), acts)
              && Run(Init(), acts).fini == Returned(ETIMEDOUT) && Run(Init(), acts).sessions == {}
  {
    var s1 := Do(Init(), Open);
    var s2 := Do(s1, Link(0));
    var s3 := Do(s2, Disable);
    assert 0 in s2.sessions;
    var s4 := Do(s3, Unlink(0));
    assert s4.sessions == {};
    var s5 := Do(s4, Wake(true));
    var s6 := Do(s5, Test);
    var a6 := [Test];
    var a5 := [Wake(true)] + a6;
    var a4 := [Unlink(0)] + a5;
    var a3 := [Disable] + a4;
    var a2 := [Link(0)] + a3;
    var acts := [Open] + a2;
    assert a6[1..] == [] && a5[1..] == a6 && a4[1..] == a5 && a3[1..] == a4 && a2[1..] == a3 && acts[1..] == a2;
    assert Legal(s5, a6) && Run(s5, a6) == s6;
    assert Legal(s4, a5) && Run(s4, a5) == s6;
    assert Legal(s3, a4) && Run(s3, a4) == s6;
    assert Legal(s2, a3) && Run(s2, a3) == s6;
    assert Legal(s1, a2) && Run(s1, a2) == s6;
    assert Legal(Init(), acts) && Run(Init(), acts) == s6;
  }
}
