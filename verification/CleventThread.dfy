/**
 * CLEVENT requests from the UNC daemon: the handler stores the request in the shared context and spawns a
 * thread that raises the event, acknowledges it and detaches itself, unless finalisation is to join it.
 * The thread reads the context without the lock.  One action is one critical section or one unlocked step.
 */
module CleventThread {
  import opened Common

  type Id = nat

  datatype Request = Request(kind: nat, sysact: bool, limit: nat)

  /** Where CLEVENT i stands: first its handler, then its thread. */
  datatype Pc =
    | Arrived                                             // handler, before it has the parameters
    | Handling                                            // handler, before the lock
    | Refusing                                            // handler, about to acknowledge a failure
    | Over                                                // handler done, no thread
    | ReadKind                                            // thread, about to read cic_type
    | ReadSysact(kind: nat)
    | Raising(kind: nat, sysact: bool, limit: Option<nat>)  // in clstat_raise, which reads cic_limit by reference
    | Acking(ok: bool)
    | Exiting
    | Gone

  /** clst_ipc_fini: the drain of the session list may fail, and so may the timed join. */
  datatype Fini = NotCalled | Draining | GaveUp | Took(t: Option<Id>) | Finished(t: Option<Id>, joinedOk: bool)

  /**
   * reqs: the requests as they arrive.  kind, sysact, limit: the fields of the shared context.
   * History: acks lists the acknowledgements attempted for each CLEVENT, zero the ones whose raise returned 0.
   */
  datatype State = State(
    onUncd: bool, reqs: seq<Request>, pc: seq<Pc>,
    disabled: bool, thread: Option<Id>, req: Request, fini: Fini,
    detached: set<Id>, joined: set<Id>, acks: seq<seq<bool>>, zero: set<Id>)

  datatype Action =
    | Fetch(i: Id, ok: bool)
    | Spawn(i: Id, created: bool)
    | Refuse(i: Id)
    | Read(i: Id)
    | Raised(i: Id, ok: bool)
    | Ack(i: Id)
    | Exit(i: Id)
    | UncdRaise(kind: nat, sysact: bool)     // clstat_raise on the UNC daemon records its arguments
    | Disable
    | Drained(ok: bool)
    | Join(ok: bool)

  function Init(onUncd: bool, reqs: seq<Request>): State {
    State(onUncd, reqs, seq(|reqs|, _ => Arrived), false, None, Request(0xff, false, 0), NotCalled, {}, {},
          seq(|reqs|, _ => []), {})
  }

  predicate WellFormed(s: State) {
    |s.pc| == |s.reqs| == |s.acks|
  }

  predicate Can(s: State, a: Action) {
    WellFormed(s) &&
    match a
    case Fetch(i, _) => i < |s.pc| && s.pc[i].Arrived? && !s.onUncd
    case Spawn(i, _) => i < |s.pc| && s.pc[i].Handling?
    case Refuse(i) => i < |s.pc| && s.pc[i].Refusing?
    case Read(i) => i < |s.pc| && (s.pc[i].ReadKind? || s.pc[i].ReadSysact? || s.pc[i].Raising?)
    case Raised(i, _) => i < |s.pc| && s.pc[i].Raising?
    case Ack(i) => i < |s.pc| && s.pc[i].Acking?
    case Exit(i) => i < |s.pc| && s.pc[i].Exiting?
    case UncdRaise(_, _) => s.onUncd
    case Disable => !s.disabled
    case Drained(_) => s.fini.Draining?
    case Join(ok) => s.fini.Took? && (ok && s.fini.t.Some? ==> s.fini.t.value < |s.pc| && s.pc[s.fini.t.value].Gone?)
  }

  function Do(s: State, a: Action): State
    requires Can(s, a)
  {
    match a
    case Fetch(i, ok) => s.(pc := s.pc[i := if ok then Handling else Refusing])
    case Spawn(i, created) =>
      if s.disabled || s.thread.Some? then s.(pc := s.pc[i := Refusing])
      else if created then s.(pc := s.pc[i := ReadKind], req := s.reqs[i], thread := Some(i))
      else s.(pc := s.pc[i := Refusing], req := s.reqs[i])
    case Refuse(i) => s.(pc := s.pc[i := Over], acks := s.acks[i := s.acks[i] + [false]])
    case Read(i) =>
      s.(pc := s.pc[i := match s.pc[i]
                         case Raising(k, b, _) => Raising(k, b, Some(s.req.limit))
                         case ReadSysact(k) => Raising(k, s.req.sysact, None)
                         case _ => ReadSysact(s.req.kind)])
    case Raised(i, ok) => s.(pc := s.pc[i := Acking(ok)], zero := if ok then s.zero + {i} else s.zero)
    case Ack(i) => s.(pc := s.pc[i := Exiting], acks := s.acks[i := s.acks[i] + [s.pc[i].ok]])
    case Exit(i) =>
      if s.disabled then s.(pc := s.pc[i := Gone])
      else s.(pc := s.pc[i := Gone], thread := None, detached := s.detached + {i})
    case UncdRaise(kind, sysact) => s.(req := s.req.(kind := kind, sysact := sysact))
    case Disable => s.(disabled := true, fini := Draining)
    case Drained(ok) => if ok then s.(fini := Took(s.thread), thread := None) else s.(fini := GaveUp)
    case Join(ok) =>
      s.(fini := Finished(s.fini.t, ok),
         joined := if ok && s.fini.t.Some? then s.joined + {s.fini.t.value} else s.joined)
  }

  predicate Legal(s: State, acts: seq<Action>)
    decreases acts
  {
    acts != [] ==> Can(s, acts[0]) && Legal(Do(s, acts[0]), acts[1..])
  }

  function Run(s: State, acts: seq<Action>): State
    requires Legal(s, acts)
    decreases acts
  {
    if acts == [] then s else Run(Do(s, acts[0]), acts[1..])
  }

  // ------------------------------------------------------------ the invariant

  predicate InThread(p: Pc) {
    p.ReadKind? || p.ReadSysact? || p.Raising? || p.Acking? || p.Exiting?
  }

  /** The thread whose handle is in the context or was taken out of it by finalisation. */
  function Holder(s: State): Option<Id> {
    match s.fini
    case Took(t) => t
    case Finished(t, _) => t
    case _ => s.thread
  }

  predicate HandleInv(s: State, i: Id)
    requires WellFormed(s) && i < |s.pc|
  {
    var p := s.pc[i];
    && (InThread(p) ==> Holder(s) == Some(i) && i !in s.detached && i !in s.joined)
    && (Holder(s) == Some(i) ==> InThread(p) || (p.Gone? && s.disabled))
    && (Holder(s) == Some(i) ==> i !in s.detached)
    && (p.Gone? ==> i in s.detached || Holder(s) == Some(i))
    && (i in s.detached || i in s.joined ==> p.Gone?)
    && (i in s.joined <==> s.fini == Finished(Some(i), true))
  }

  predicate ReadInv(s: State, i: Id)
    requires WellFormed(s) && i < |s.pc|
  {
    var p := s.pc[i];
    var r := s.reqs[i];
    && (InThread(p) ==> s.req == r)
    && (p.ReadSysact? ==> p.kind == r.kind)
    && (p.Raising? ==> p.kind == r.kind && p.sysact == r.sysact && (p.limit.Some? ==> p.limit.value == r.limit))
  }

  predicate AckInv(s: State, i: Id)
    requires WellFormed(s) && i < |s.pc|
  {
    var p := s.pc[i];
    && (s.acks[i] == if p.Over? then [false] else if p.Exiting? || p.Gone? then [i in s.zero] else [])
    && (p.Acking? ==> (p.ok <==> i in s.zero))
    && (!p.Acking? && !p.Exiting? && !p.Gone? ==> i !in s.zero)
  }

  predicate CleventInv(s: State, i: Id)
    requires WellFormed(s) && i < |s.pc|
  {
    HandleInv(s, i) && ReadInv(s, i) && AckInv(s, i)
  }

  ghost predicate Inv(s: State) {
    && WellFormed(s)
    && (s.disabled <==> !s.fini.NotCalled?)
    && (s.fini.Took? || s.fini.Finished? ==> s.thread.None?)
    && (Holder(s).Some? ==> Holder(s).value < |s.pc|)
    && (s.onUncd ==> Holder(s).None? && forall i :: 0 <= i < |s.pc| ==> s.pc[i].Arrived?)
    && forall i :: 0 <= i < |s.pc| ==> CleventInv(s, i)
  }

  lemma InitInv(onUncd: bool, reqs: seq<Request>)
    ensures Inv(Init(onUncd, reqs))
  {}

  lemma StepKeepsHandleInv(s: State, a: Action, i: Id)
    requires Inv(s) && Can(s, a) && i < |s.pc|
    ensures HandleInv(Do(s, a), i)
  {
    assert CleventInv(s, i);
    match a
    case Spawn(j, _) => assert CleventInv(s, j);
    case Exit(j) => assert CleventInv(s, j);
    case _ =>
  }

  /** A request is overwritten only when no handle is in the context, and so no thread is left to read it. */
  lemma StepKeepsReadInv(s: State, a: Action, i: Id)
    requires Inv(s) && Can(s, a) && i < |s.pc|
    ensures ReadInv(Do(s, a), i)
  {
    assert CleventInv(s, i);
  }

  lemma StepKeepsAckInv(s: State, a: Action, i: Id)
    requires Inv(s) && Can(s, a) && i < |s.pc|
    ensures AckInv(Do(s, a), i)
  {
    assert CleventInv(s, i);
  }

  lemma StepKeepsInv(s: State, a: Action)
    requires Inv(s) && Can(s, a)
    ensures Inv(Do(s, a))
  {
    forall i | 0 <= i < |s.pc| ensures CleventInv(Do(s, a), i) {
      StepKeepsHandleInv(s, a, i);
      StepKeepsReadInv(s, a, i);
      StepKeepsAckInv(s, a, i);
    }
    if a.Exit? { assert CleventInv(s, a.i); }
  }

  lemma {:induction false} RunKeepsInv(s: State, acts: seq<Action>)
    requires Inv(s) && Legal(s, acts)
    ensures Inv(Run(s, acts)) && Run(s, acts).reqs == s.reqs
    decreases acts
  {
    if acts != [] {
      StepKeepsInv(s, acts[0]);
      RunKeepsInv(Do(s, acts[0]), acts[1..]);
    }
  }

  // ------------------------------------------------------------ the properties

  /** The thread's unlocked reads are those of the CLEVENT that spawned it, in every interleaving. */
  lemma ThreadReadsItsRequest(onUncd: bool, reqs: seq<Request>, acts: seq<Action>, i: Id)
    requires Legal(Init(onUncd, reqs), acts) && i < |reqs|
    ensures var s := Run(Init(onUncd, reqs), acts);
            && |s.pc| == |reqs|
            && (s.pc[i].ReadSysact? ==> s.pc[i].kind == reqs[i].kind)
            && (s.pc[i].Raising? ==> s.pc[i].kind == reqs[i].kind && s.pc[i].sysact == reqs[i].sysact)
            && (s.pc[i].Raising? && s.pc[i].limit.Some? ==> s.pc[i].limit.value == reqs[i].limit)
  {
    InitInv(onUncd, reqs);
    RunKeepsInv(Init(onUncd, reqs), acts);
    assert CleventInv(Run(Init(onUncd, reqs), acts), i);
  }

  /** Every CLEVENT that is through has made exactly one acknowledgement attempt, true iff its raise returned 0. */
  lemma ExactlyOneAck(onUncd: bool, reqs: seq<Request>, acts: seq<Action>, i: Id)
    requires Legal(Init(onUncd, reqs), acts) && i < |reqs|
    ensures var s := Run(Init(onUncd, reqs), acts);
            && |s.pc| == |s.acks| == |reqs|
            && |s.acks[i]| <= 1
            && (s.pc[i].Over? || s.pc[i].Exiting? || s.pc[i].Gone? ==> s.acks[i] == [i in s.zero])
  {
    InitInv(onUncd, reqs);
    RunKeepsInv(Init(onUncd, reqs), acts);
    assert CleventInv(Run(Init(onUncd, reqs), acts), i);
  }

  /**
   * At most one thread runs at a time; a thread that detaches itself finds its own handle in the context;
   * no handle is both detached and joined; and a thread that is gone was detached, or was joined, or
   * finalisation gave up on it because the drain or the join did not complete.
   */
  lemma HandleIsReleasedOnce(onUncd: bool, reqs: seq<Request>, acts: seq<Action>, i: Id, j: Id)
    requires Legal(Init(onUncd, reqs), acts) && i < |reqs| && j < |reqs|
    ensures var s := Run(Init(onUncd, reqs), acts);
            && |s.pc| == |reqs|
            && (InThread(s.pc[i]) && InThread(s.pc[j]) ==> i == j)
            && (s.pc[i].Exiting? && !s.disabled ==> s.thread == Some(i))
            && !(i in s.detached && i in s.joined)
            && (i in s.detached || i in s.joined ==> s.pc[i].Gone?)
            && (s.pc[i].Gone? && i !in s.detached ==>
                  s.disabled && (i in s.joined <==> s.fini == Finished(Some(i), true)))
            && (s.fini.Finished? && s.fini.joinedOk ==> !InThread(s.pc[i]))
            && (s.fini.Finished? && s.fini.joinedOk && s.pc[i].Gone? ==> i in s.detached || i in s.joined)
  {
    InitInv(onUncd, reqs);
    RunKeepsInv(Init(onUncd, reqs), acts);
    var s := Run(Init(onUncd, reqs), acts);
    assert CleventInv(s, i) && CleventInv(s, j);
  }

  // ------------------------------------------------- which handles are released, over runs

  lemma {:induction false} Prefix(s: State, acts: seq<Action>, n: nat)
    requires Legal(s, acts) && n <= |acts|
    ensures Legal(s, acts[..n])
    ensures n < |acts| ==>
              && Can(Run(s, acts[..n]), acts[n]) && Legal(s, acts[..n + 1])
              && Run(s, acts[..n + 1]) == Do(Run(s, acts[..n]), acts[n])
    decreases n
  {
    if n > 0 {
      assert acts[..n][1..] == acts[1..][..n - 1];
      Prefix(Do(s, acts[0]), acts[1..], n - 1);
      if n < |acts| { assert acts[..n + 1][1..] == acts[1..][..n]; }
    } else if acts != [] {
      assert acts[..1][1..] == [];
    }
  }

  /** What the first n actions say of finalisation: whether it began, and whether its drain and its join succeeded. */
  lemma {:induction false} FiniIff(onUncd: bool, reqs: seq<Request>, acts: seq<Action>, n: nat)
    requires Legal(Init(onUncd, reqs), acts) && n <= |acts|
    ensures Legal(Init(onUncd, reqs), acts[..n])
    ensures var s := Run(Init(onUncd, reqs), acts[..n]);
            && (s.disabled <==> Disable in acts[..n])
            && (s.fini.Took? || s.fini.Finished? <==> Drained(true) in acts[..n])
            && (s.fini.Finished? && s.fini.joinedOk <==> Join(true) in acts[..n])
  {
    Prefix(Init(onUncd, reqs), acts, n);
    if n > 0 {
      FiniIff(onUncd, reqs, acts, n - 1);
      Prefix(Init(onUncd, reqs), acts, n - 1);
      InitInv(onUncd, reqs);
      RunKeepsInv(Init(onUncd, reqs), acts[..n - 1]);
      assert acts[..n] == acts[..n - 1] + [acts[n - 1]];
    }
  }

  /** A thread that is gone stays gone, and only its own exit detaches it. */
  lemma GoneStays(s: State, a: Action, i: Id)
    requires Inv(s) && Can(s, a) && i < |s.pc| && s.pc[i].Gone?
    ensures var t := Do(s, a); |t.pc| == |s.pc| && t.pc[i].Gone? && (i in t.detached <==> i in s.detached)
  {}

  lemma ExitDetachesIff(s: State, i: Id)
    requires Inv(s) && Can(s, Exit(i))
    ensures var t := Do(s, Exit(i)); |t.pc| == |s.pc| && t.pc[i].Gone? && (i in t.detached <==> !s.disabled)
  {
    assert CleventInv(s, i);
  }

  /** A thread that exits with action e is gone for good, and detached itself exactly if finalisation had not begun. */
  lemma {:induction false} DetachedIff(onUncd: bool, reqs: seq<Request>, acts: seq<Action>, e: nat, i: Id, n: nat)
    requires Legal(Init(onUncd, reqs), acts) && e < n <= |acts| && acts[e] == Exit(i)
    ensures Legal(Init(onUncd, reqs), acts[..n])
    ensures var s := Run(Init(onUncd, reqs), acts[..n]);
            i < |s.pc| && s.pc[i].Gone? && (i in s.detached <==> Disable !in acts[..e])
    decreases n
  {
    Prefix(Init(onUncd, reqs), acts, n);
    Prefix(Init(onUncd, reqs), acts, n - 1);
    InitInv(onUncd, reqs);
    RunKeepsInv(Init(onUncd, reqs), acts[..n - 1]);
    if n == e + 1 {
      FiniIff(onUncd, reqs, acts, e);
      ExitDetachesIff(Run(Init(onUncd, reqs), acts[..e]), i);
    } else {
      DetachedIff(onUncd, reqs, acts, e, i, n - 1);
      GoneStays(Run(Init(onUncd, reqs), acts[..n - 1]), acts[n - 1], i);
    }
  }

  /**
   * On every run, the handle of a thread that has exited is released exactly if it exited before finalisation began,
   * or if finalisation drained the session list and its timed join succeeded.
   */
  lemma HandleIsReleasedIff(onUncd: bool, reqs: seq<Request>, acts: seq<Action>, e: nat, i: Id)
    requires Legal(Init(onUncd, reqs), acts) && e < |acts| && acts[e] == Exit(i)
    ensures var s := Run(Init(onUncd, reqs), acts);
            (i in s.detached || i in s.joined) <==>
            (Disable !in acts[..e] || (Drained(true) in acts && Join(true) in acts))
  {
    assert acts[..|acts|] == acts;
    FiniIff(onUncd, reqs, acts, |acts|);
    DetachedIff(onUncd, reqs, acts, e, i, |acts|);
    InitInv(onUncd, reqs);
    RunKeepsInv(Init(onUncd, reqs), acts);
    assert CleventInv(Run(Init(onUncd, reqs), acts), i);
  }

  // ------------------------------------------------- which requests get a thread, over runs

  /**
   * On every run, a request is stored in the context exactly if finalisation has not begun and no other thread is at
   * work, and then gets its thread exactly if one can be created; otherwise it is refused.
   */
  lemma SpawnIff(onUncd: bool, reqs: seq<Request>, acts: seq<Action>, n: nat, i: Id, created: bool)
    requires Legal(Init(onUncd, reqs), acts) && n < |acts| && acts[n] == Spawn(i, created)
    ensures Legal(Init(onUncd, reqs), acts[..n]) && Legal(Init(onUncd, reqs), acts[..n + 1])
    ensures var s, t := Run(Init(onUncd, reqs), acts[..n]), Run(Init(onUncd, reqs), acts[..n + 1]);
            && i < |t.pc| == |reqs|
            && (t.pc[i] == ReadKind <==>
                  created && Disable !in acts[..n] && forall j :: 0 <= j < |s.pc| ==> !InThread(s.pc[j]))
            && (t.pc[i] == ReadKind || t.pc[i] == Refusing)
            && t.req == if Disable !in acts[..n] && (forall j :: 0 <= j < |s.pc| ==> !InThread(s.pc[j])) then reqs[i]
                        else s.req
  {
    Prefix(Init(onUncd, reqs), acts, n);
    FiniIff(onUncd, reqs, acts, n);
    InitInv(onUncd, reqs);
    RunKeepsInv(Init(onUncd, reqs), acts[..n]);
    RunKeepsInv(Init(onUncd, reqs), acts[..n + 1]);
    var s := Run(Init(onUncd, reqs), acts[..n]);
    if s.thread.Some? && !s.disabled { assert CleventInv(s, s.thread.value); }
    forall j | 0 <= j < |s.pc| && InThread(s.pc[j]) ensures s.disabled || s.thread == Some(j) {
      assert CleventInv(s, j);
    }
  }

  /** What became of a request says how the read of its parameters went. */
  predicate AsFetched(p: Pc, good: bool, bad: bool) {
    && (p.Arrived? <==> !good && !bad) && !(good && bad)
    && (bad ==> p.Refusing? || p.Over?)
  }

  lemma FetchStep(s: State, a: Action, i: Id, good: bool, bad: bool)
    requires Inv(s) && Can(s, a) && i < |s.pc| && AsFetched(s.pc[i], good, bad)
    ensures i < |Do(s, a).pc|
    ensures AsFetched(Do(s, a).pc[i], good || a == Fetch(i, true), bad || a == Fetch(i, false))
  {}

  /** On every run, a request whose parameters could not be read is refused and never gets a thread. */
  lemma {:induction false} FetchDecides(onUncd: bool, reqs: seq<Request>, acts: seq<Action>, i: Id)
    requires Legal(Init(onUncd, reqs), acts) && i < |reqs|
    ensures var s := Run(Init(onUncd, reqs), acts);
            i < |s.pc| && AsFetched(s.pc[i], Fetch(i, true) in acts, Fetch(i, false) in acts)
    decreases |acts|
  {
    if acts != [] {
      var n := |acts| - 1;
      Prefix(Init(onUncd, reqs), acts, n);
      assert acts[..n + 1] == acts && acts == acts[..n] + [acts[n]];
      FetchDecides(onUncd, reqs, acts[..n], i);
      InitInv(onUncd, reqs);
      RunKeepsInv(Init(onUncd, reqs), acts[..n]);
      var before := acts[..n];
      FetchStep(Run(Init(onUncd, reqs), before), acts[n], i, Fetch(i, true) in before, Fetch(i, false) in before);
    }
  }

  lemma {:induction false} ZeroIsRaised(onUncd: bool, reqs: seq<Request>, acts: seq<Action>, i: Id)
    requires Legal(Init(onUncd, reqs), acts)
    ensures i in Run(Init(onUncd, reqs), acts).zero <==> Raised(i, true) in acts
    decreases |acts|
  {
    if acts != [] {
      var n := |acts| - 1;
      Prefix(Init(onUncd, reqs), acts, n);
      assert acts[..n + 1] == acts && acts == acts[..n] + [acts[n]];
      ZeroIsRaised(onUncd, reqs, acts[..n], i);
    }
  }

  /** On every run, a request that is through was acknowledged once, with success exactly if its raise succeeded. */
  lemma AckIsTheRaise(onUncd: bool, reqs: seq<Request>, acts: seq<Action>, i: Id)
    requires Legal(Init(onUncd, reqs), acts) && i < |reqs|
    ensures var s := Run(Init(onUncd, reqs), acts);
            && |s.pc| == |s.acks| == |reqs|
            && (s.pc[i].Over? || s.pc[i].Exiting? || s.pc[i].Gone? ==> s.acks[i] == [Raised(i, true) in acts])
  {
    ExactlyOneAck(onUncd, reqs, acts, i);
    ZeroIsRaised(onUncd, reqs, acts, i);
  }

  /** The last raise on the UNC daemon, if there was one. */
  function LastRaise(acts: seq<Action>): Option<(nat, bool)> {
    if acts == [] then None
    else
      var a := acts[|acts| - 1];
      if a.UncdRaise? then Some((a.kind, a.sysact)) else LastRaise(acts[..|acts| - 1])
  }

  /** On the UNC daemon the context always holds the type and the flag of the last raise. */
  lemma {:induction false} ContextIsLastRaise(reqs: seq<Request>, acts: seq<Action>)
    requires Legal(Init(true, reqs), acts) && LastRaise(acts).Some?
    ensures var r := Run(Init(true, reqs), acts).req; (r.kind, r.sysact) == LastRaise(acts).value
    decreases |acts|
  {
    var n := |acts| - 1;
    Prefix(Init(true, reqs), acts, n);
    assert acts[..n + 1] == acts;
    InitInv(true, reqs);
    RunKeepsInv(Init(true, reqs), acts[..n]);
    StaysOnUncd(Init(true, reqs), acts[..n]);
    if !acts[n].UncdRaise? { ContextIsLastRaise(reqs, acts[..n]); }
  }

  lemma {:induction false} StaysOnUncd(s: State, acts: seq<Action>)
    requires Legal(s, acts)
    ensures Run(s, acts).onUncd == s.onUncd
    decreases acts
  {
    if acts != [] { StaysOnUncd(Do(s, acts[0]), acts[1..]); }
  }

  /** A drain that gives up leaves a finished thread neither detached nor joined. */
  lemma ThreadCanBeLeftUnjoined(r: Request)
    ensures exists acts: seq<Action> ::
              && Legal(Init(false, [r]), acts)
              && var s := Run(Init(false, [r]), acts);
                 s.pc == [Gone] && s.fini.GaveUp? && 0 !in s.detached && 0 !in s.joined
  {
    var s0 := Init(false, [r]);
    var s1 := Do(s0, Fetch(0, true));
    var s2 := Do(s1, Spawn(0, true));
    var s3 := Do(s2, Read(0));
    var s4 := Do(s3, Read(0));
    var s5 := Do(s4, Raised(0, true));
    var s6 := Do(s5, Ack(0));
    var s7 := Do(s6, Disable);
    var s8 := Do(s7, Drained(false));
    var s9 := Do(s8, Exit(0));
    var a9 := [Exit(0)];
    Prepend(s7, Drained(false), a9);
    Prepend(s6, Disable, [Drained(false)] + a9);
    var a7 := [Disable] + ([Drained(false)] + a9);
    Prepend(s5, Ack(0), a7);
    Prepend(s4, Raised(0, true), [Ack(0)] + a7);
    var a5 := [Raised(0, true)] + ([Ack(0)] + a7);
    Prepend(s3, Read(0), a5);
    Prepend(s2, Read(0), [Read(0)] + a5);
    var a3 := [Read(0)] + ([Read(0)] + a5);
    Prepend(s1, Spawn(0, true), a3);
    Prepend(s0, Fetch(0, true), [Spawn(0, true)] + a3);
    assert Run(s8, a9) == s9;
    assert Run(s0, [Fetch(0, true)] + ([Spawn(0, true)] + a3)) == s9;
  }

  lemma Prepend(s: State, a: Action, acts: seq<Action>)
    requires Can(s, a) && Legal(Do(s, a), acts)
    ensures Legal(s, [a] + acts) && Run(s, [a] + acts) == Run(Do(s, a), acts)
  {
    assert ([a] + acts)[1..] == acts;
  }
}
