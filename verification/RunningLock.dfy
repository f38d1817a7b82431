/**
 * The write-exclusion lock on RUNNING.  Every connection has a flag that says whether it owns the lock
 * and a mutex that protects the flag; the lock itself is one mutex for all connections.  Threads
 * interleave at the level of single lock, unlock, test and assignment steps, and any number of threads
 * may share a connection.
 */
module RunningLock {
  import opened Common

  type Tid = nat
  type Cid = nat

  /** Where a thread stands in ExecuteQuery or in CommitTransaction and RollbackTransaction. */
  datatype Pc =
    | Idle
    | ExecWantVar(upd: bool)      // about to lock the flag's mutex; upd: the text is an UPDATE of a ru_ table
    | ExecTest(upd: bool)         // holds it, about to test the flag
    | ExecWantRunn                // about to lock RUNNING
    | ExecSetFlag                 // has locked RUNNING, about to set the flag
    | ExecUnlockVar(upd: bool)    // about to unlock the flag's mutex
    | Executing(upd: bool)        // about to run the statement
    | EndTran                     // about to commit or roll back
    | EndWantVar
    | EndTest
    | EndUnlockRunn               // about to unlock RUNNING
    | EndClearFlag                // has unlocked it, the flag is still up
    | EndUnlockVar

  /** The connection of each thread, and the connections with exclusion switched on. */
  datatype Config = Config(conn: seq<Cid>, excl: set<Cid>)

  /**
   * mutex: the holder of each flag mutex.  runn: the owner of the lock on RUNNING.  acqd: the flags.
   * updated: the connections that have run an UPDATE of RUNNING since their transaction began.
   * History: locker is the thread that took the lock on RUNNING.
   */
  datatype State = State(
    pc: seq<Pc>, mutex: map<Cid, Tid>, runn: Option<Cid>, acqd: set<Cid>, updated: set<Cid>, locker: Option<Tid>)

  datatype Action = Execute(i: Tid, upd: bool) | End(i: Tid) | Step(i: Tid)

  function Init(cfg: Config): State {
    State(seq(|cfg.conn|, _ => Idle), map[], None, {}, {}, None)
  }

  predicate Can(cfg: Config, s: State, a: Action) {
    && |s.pc| == |cfg.conn| && a.i < |s.pc|
    && match a
       case Execute(i, _) => s.pc[i].Idle?
       case End(i) => s.pc[i].Idle?
       case Step(i) => !s.pc[i].Idle? && !Blocked(cfg, s, i)
  }

  /** A thread that waits for a mutex which is taken. */
  predicate Blocked(cfg: Config, s: State, i: Tid)
    requires |s.pc| == |cfg.conn| && i < |s.pc|
  {
    match s.pc[i]
    case ExecWantVar(_) => cfg.conn[i] in s.mutex
    case EndWantVar => cfg.conn[i] in s.mutex
    case ExecWantRunn => s.runn != None
    case _ => false
  }

  function Do(cfg: Config, s: State, a: Action): (t: State)
    requires Can(cfg, s, a)
    ensures |t.pc| == |s.pc|
  {
    var i := a.i;
    var c := cfg.conn[i];
    match a
    case Execute(_, upd) => s.(pc := s.pc[i := if c in cfg.excl then ExecWantVar(upd) else Executing(upd)])
    case End(_) => s.(pc := s.pc[i := EndTran])
    case Step(_) =>
      match s.pc[i]
      case Idle => s
      case ExecWantVar(upd) => s.(pc := s.pc[i := ExecTest(upd)], mutex := s.mutex[c := i])
      case ExecTest(upd) => s.(pc := s.pc[i := if c !in s.acqd && upd then ExecWantRunn else ExecUnlockVar(upd)])
      case ExecWantRunn => s.(pc := s.pc[i := ExecSetFlag], runn := Some(c), locker := Some(i))
      case ExecSetFlag => s.(pc := s.pc[i := ExecUnlockVar(true)], acqd := s.acqd + {c})
      case ExecUnlockVar(upd) => s.(pc := s.pc[i := Executing(upd)], mutex := s.mutex - {c})
      case Executing(upd) => s.(pc := s.pc[i := Idle], updated := if upd then s.updated + {c} else s.updated)
      case EndTran => s.(pc := s.pc[i := if c in cfg.excl then EndWantVar else Idle], updated := s.updated - {c})
      case EndWantVar => s.(pc := s.pc[i := EndTest], mutex := s.mutex[c := i])
      case EndTest => s.(pc := s.pc[i := if c in s.acqd then EndUnlockRunn else EndUnlockVar])
      case EndUnlockRunn => s.(pc := s.pc[i := EndClearFlag], runn := None, locker := None)
      case EndClearFlag => s.(pc := s.pc[i := EndUnlockVar], acqd := s.acqd - {c})
      case EndUnlockVar => s.(pc := s.pc[i := Idle], mutex := s.mutex - {c})
  }

  predicate Legal(cfg: Config, s: State, acts: seq<Action>)
    decreases acts
  {
    acts != [] ==> Can(cfg, s, acts[0]) && Legal(cfg, Do(cfg, s, acts[0]), acts[1..])
  }

  function Run(cfg: Config, s: State, acts: seq<Action>): State
    requires Legal(cfg, s, acts)
    decreases acts
  {
    if acts == [] then s else Run(cfg, Do(cfg, s, acts[0]), acts[1..])
  }

  // ------------------------------------------------------------ the invariant

  /** Between lock and unlock of the flag's mutex. */
  predicate InMutex(p: Pc) {
    p.ExecTest? || p.ExecWantRunn? || p.ExecSetFlag? || p.ExecUnlockVar? ||
    p.EndTest? || p.EndUnlockRunn? || p.EndClearFlag? || p.EndUnlockVar?
  }

  predicate At(s: State, c: Cid, p: Pc) {
    c in s.mutex && s.mutex[c] < |s.pc| && s.pc[s.mutex[c]] == p
  }

  predicate ThreadInv(cfg: Config, s: State, i: Tid)
    requires |s.pc| == |cfg.conn| && i < |s.pc|
  {
    var c := cfg.conn[i];
    && (InMutex(s.pc[i]) <==> c in s.mutex && s.mutex[c] == i)
    && (InMutex(s.pc[i]) || s.pc[i].ExecWantVar? || s.pc[i].EndWantVar? ==> c in cfg.excl)
    && (s.pc[i].ExecWantRunn? || s.pc[i].ExecSetFlag? ==> c !in s.acqd)
    && (s.pc[i].EndUnlockRunn? || s.pc[i].EndClearFlag? || s.pc[i] == ExecUnlockVar(true) ==> c in s.acqd)
    && (s.pc[i].EndUnlockVar? ==> c !in s.acqd)
  }

  /** The flag is up exactly while the connection owns the lock, but for the two gaps inside the flag's mutex. */
  predicate ConnInv(cfg: Config, s: State, c: Cid)
    requires |s.pc| == |cfg.conn|
  {
    && (c in s.mutex ==> s.mutex[c] < |s.pc| && cfg.conn[s.mutex[c]] == c)
    && (s.runn == Some(c) <==> (c in s.acqd && !At(s, c, EndClearFlag)) || At(s, c, ExecSetFlag))
    && (c in s.acqd ==> c in cfg.excl)
    && (s.runn == Some(c) ==> s.locker.Some? && s.locker.value < |s.pc| && cfg.conn[s.locker.value] == c)
  }

  ghost predicate Inv(cfg: Config, s: State) {
    && |s.pc| == |cfg.conn|
    && (forall i :: 0 <= i < |s.pc| ==> ThreadInv(cfg, s, i))
    && (forall c: Cid :: ConnInv(cfg, s, c))
  }

  lemma InitInv(cfg: Config)
    ensures Inv(cfg, Init(cfg))
  {
    var s := Init(cfg);
    forall i | 0 <= i < |s.pc| ensures ThreadInv(cfg, s, i) {}
    forall c: Cid ensures ConnInv(cfg, s, c) {}
  }

  lemma StepKeepsThreadInv(cfg: Config, s: State, a: Action, j: Tid)
    requires Inv(cfg, s) && Can(cfg, s, a) && j < |s.pc|
    ensures ThreadInv(cfg, Do(cfg, s, a), j)
  {
    assert ThreadInv(cfg, s, a.i) && ThreadInv(cfg, s, j);
    assert ConnInv(cfg, s, cfg.conn[a.i]);
  }

  lemma StepKeepsConnInv(cfg: Config, s: State, a: Action, c: Cid)
    requires Inv(cfg, s) && Can(cfg, s, a)
    ensures ConnInv(cfg, Do(cfg, s, a), c)
  {
    assert ThreadInv(cfg, s, a.i);
    assert ConnInv(cfg, s, cfg.conn[a.i]) && ConnInv(cfg, s, c);
  }

  /** Every single step of every thread keeps the invariant. */
  lemma StepKeepsInv(cfg: Config, s: State, a: Action)
    requires Inv(cfg, s) && Can(cfg, s, a)
    ensures Inv(cfg, Do(cfg, s, a))
  {
    var t := Do(cfg, s, a);
    forall j | 0 <= j < |t.pc| ensures ThreadInv(cfg, t, j) { StepKeepsThreadInv(cfg, s, a, j); }
    forall c: Cid ensures ConnInv(cfg, t, c) { StepKeepsConnInv(cfg, s, a, c); }
  }

  lemma {:induction false} RunKeepsInv(cfg: Config, s: State, acts: seq<Action>)
    requires Inv(cfg, s) && Legal(cfg, s, acts)
    ensures Inv(cfg, Run(cfg, s, acts))
    decreases acts
  {
    if acts != [] {
      StepKeepsInv(cfg, s, acts[0]);
      RunKeepsInv(cfg, Do(cfg, s, acts[0]), acts[1..]);
    }
  }

  // ---------------------------------------------------- use of the two mutexes

  /**
   * Reachable states, however the threads share connections: RUNNING is unlocked only on behalf of the connection
   * that owns it, is never locked again for its owner, and a flag's mutex is unlocked only by the thread that holds
   * it.  Which thread unlocks RUNNING is the subject of LockerUnlocksIff.
   */
  lemma MutexesAreUsedProperly(cfg: Config, acts: seq<Action>, i: Tid)
    requires Legal(cfg, Init(cfg), acts) && i < |cfg.conn|
    ensures var s := Run(cfg, Init(cfg), acts);
            var c := cfg.conn[i];
            && |s.pc| == |cfg.conn|
            && (s.pc[i].EndUnlockRunn? ==> s.runn == Some(c))
            && (s.pc[i].EndUnlockRunn? && OwnConnections(cfg) ==> s.locker == Some(i))
            && (s.pc[i].ExecWantRunn? ==> s.runn != Some(c))
            && (s.pc[i].ExecUnlockVar? || s.pc[i].EndUnlockVar? ==> c in s.mutex && s.mutex[c] == i)
            && (s.pc[i].ExecWantVar? || s.pc[i].EndWantVar? ==> !(c in s.mutex && s.mutex[c] == i))
  {
    InitInv(cfg);
    RunKeepsInv(cfg, Init(cfg), acts);
    var s := Run(cfg, Init(cfg), acts);
    assert ThreadInv(cfg, s, i) && ConnInv(cfg, s, cfg.conn[i]);
  }

  /** Thread i cannot go on before thread j, or its connection, lets go of a mutex. */
  predicate WaitsFor(cfg: Config, s: State, i: Tid, j: Tid)
    requires |s.pc| == |cfg.conn| && i < |s.pc| && j < |s.pc|
  {
    match s.pc[i]
    case ExecWantVar(_) => cfg.conn[i] in s.mutex && s.mutex[cfg.conn[i]] == j
    case EndWantVar => cfg.conn[i] in s.mutex && s.mutex[cfg.conn[i]] == j
    case ExecWantRunn => s.runn == Some(cfg.conn[j])
    case _ => false
  }

  function Rank(cfg: Config, s: State, i: Tid): nat
    requires |s.pc| == |cfg.conn| && i < |s.pc|
  {
    if s.pc[i].ExecWantRunn? then 2
    else if s.pc[i].ExecWantVar? || s.pc[i].EndWantVar? then if s.runn == Some(cfg.conn[i]) then 1 else 3
    else 0
  }

  lemma WaitingDescends(cfg: Config, s: State, i: Tid, j: Tid)
    requires Inv(cfg, s) && i < |s.pc| && j < |s.pc| && WaitsFor(cfg, s, i, j)
    ensures Rank(cfg, s, j) < Rank(cfg, s, i)
  {
    assert ThreadInv(cfg, s, i) && ThreadInv(cfg, s, j);
    assert ConnInv(cfg, s, cfg.conn[i]) && ConnInv(cfg, s, cfg.conn[j]);
  }

  /** Each thread of the path waits for the next. */
  predicate WaitChain(cfg: Config, s: State, path: seq<Tid>)
    requires |s.pc| == |cfg.conn|
  {
    path != [] ==>
      && path[0] < |s.pc| && WaitChain(cfg, s, path[1..])
      && (|path| > 1 ==> path[1] < |s.pc| && WaitsFor(cfg, s, path[0], path[1]))
  }

  lemma {:induction false} ChainDescends(cfg: Config, s: State, path: seq<Tid>)
    requires Inv(cfg, s) && WaitChain(cfg, s, path) && path != []
    ensures path[|path| - 1] < |s.pc|
    ensures Rank(cfg, s, path[0]) >= Rank(cfg, s, path[|path| - 1]) + |path| - 1
  {
    if |path| > 1 {
      ChainDescends(cfg, s, path[1..]);
      WaitingDescends(cfg, s, path[0], path[1]);
    }
  }

  /** No circular wait over the mutexes is reachable, and no chain of waiting threads is longer than three. */
  lemma NoCircularWait(cfg: Config, acts: seq<Action>, path: seq<Tid>)
    requires Legal(cfg, Init(cfg), acts) && |path| > 1
    requires |Run(cfg, Init(cfg), acts).pc| == |cfg.conn| && WaitChain(cfg, Run(cfg, Init(cfg), acts), path)
    ensures path[0] != path[|path| - 1] && |path| <= 4
  {
    InitInv(cfg);
    RunKeepsInv(cfg, Init(cfg), acts);
    ChainDescends(cfg, Run(cfg, Init(cfg), acts), path);
  }

  /** Thread i is on the connection that owns the lock, and nobody else holds the mutex of its flag. */
  predicate Drives(cfg: Config, s: State, i: Tid) {
    && |s.pc| == |cfg.conn| && i < |s.pc|
    && s.runn == Some(cfg.conn[i]) && (cfg.conn[i] in s.mutex ==> s.mutex[cfg.conn[i]] == i)
  }

  /** The steps that such a thread is away from having released the lock. */
  function Distance(p: Pc): nat {
    match p
    case EndUnlockRunn => 1
    case EndTest => 2
    case EndWantVar => 3
    case EndTran => 4
    case Idle => 5
    case Executing(_) => 6
    case ExecUnlockVar(_) => 7
    case ExecWantVar(_) => 9
    case _ => 8
  }

  lemma DriverAdvances(cfg: Config, s: State, i: Tid)
    requires Inv(cfg, s) && Drives(cfg, s, i)
    ensures var a := if s.pc[i].Idle? then End(i) else Step(i);
            && Can(cfg, s, a)
            && var t := Do(cfg, s, a);
               if s.pc[i].EndUnlockRunn? then t.runn == None
               else Drives(cfg, t, i) && Distance(t.pc[i]) < Distance(s.pc[i])
  {
    assert ThreadInv(cfg, s, i) && ConnInv(cfg, s, cfg.conn[i]);
  }

  lemma {:induction false} DriverReleases(cfg: Config, s: State, i: Tid) returns (more: seq<Action>)
    requires Inv(cfg, s) && Drives(cfg, s, i)
    ensures Legal(cfg, s, more) && Run(cfg, s, more).runn == None && forall a :: a in more ==> a.i == i
    decreases Distance(s.pc[i])
  {
    DriverAdvances(cfg, s, i);
    var a := if s.pc[i].Idle? then End(i) else Step(i);
    var t := Do(cfg, s, a);
    var rest: seq<Action> := [];
    if !s.pc[i].EndUnlockRunn? {
      StepKeepsInv(cfg, s, a);
      rest := DriverReleases(cfg, t, i);
    }
    more := [a] + rest;
    assert more[1..] == rest;
  }

  /**
   * In every reachable state in which a connection owns the lock, one thread of that connection can by itself go on
   * until it has released the lock.
   */
  lemma OwnerCanFinish(cfg: Config, acts: seq<Action>, c: Cid)
    requires Legal(cfg, Init(cfg), acts)
    requires Run(cfg, Init(cfg), acts).runn == Some(c)
    ensures var s := Run(cfg, Init(cfg), acts);
            && (c in s.mutex ==> Can(cfg, s, Step(s.mutex[c])))
            && exists i: Tid, more: seq<Action> ::
                 && i < |cfg.conn| && cfg.conn[i] == c && (forall a :: a in more ==> a.i == i)
                 && Legal(cfg, s, more) && Run(cfg, s, more).runn == None
  {
    InitInv(cfg);
    RunKeepsInv(cfg, Init(cfg), acts);
    var s := Run(cfg, Init(cfg), acts);
    assert ConnInv(cfg, s, c);
    var i := if c in s.mutex then s.mutex[c] else s.locker.value;
    assert ThreadInv(cfg, s, i);
    DriverAdvances(cfg, s, i);
    var more := DriverReleases(cfg, s, i);
    assert cfg.conn[i] == c;
  }

  // ------------------------------------------ statements that are no UPDATE of RUNNING

  /** What thread i's last Execute was for, if it has had one. */
  function LastUpd(acts: seq<Action>, i: Tid): Option<bool> {
    if acts == [] then None
    else
      var a := acts[|acts| - 1];
      if a.Execute? && a.i == i then Some(a.upd) else LastUpd(acts[..|acts| - 1], i)
  }

  lemma {:induction false} Prefix(cfg: Config, s: State, acts: seq<Action>, n: nat)
    requires Legal(cfg, s, acts) && n <= |acts|
    ensures Legal(cfg, s, acts[..n])
    ensures n < |acts| ==>
              && Can(cfg, Run(cfg, s, acts[..n]), acts[n]) && Legal(cfg, s, acts[..n + 1])
              && Run(cfg, s, acts[..n + 1]) == Do(cfg, Run(cfg, s, acts[..n]), acts[n])
    decreases n
  {
    if n > 0 {
      assert acts[..n][1..] == acts[1..][..n - 1];
      Prefix(cfg, Do(cfg, s, acts[0]), acts[1..], n - 1);
      if n < |acts| { assert acts[..n + 1][1..] == acts[1..][..n]; }
    } else if acts != [] {
      assert acts[..1][1..] == [];
    }
  }

  /** Where a thread stands agrees with what it was last asked to execute. */
  predicate AsAsked(p: Pc, last: Option<bool>) {
    match p
    case ExecWantVar(u) => last == Some(u)
    case ExecTest(u) => last == Some(u)
    case ExecWantRunn => last == Some(true)
    case ExecSetFlag => last == Some(true)
    case ExecUnlockVar(u) => last == Some(u)
    case Executing(u) => last == Some(u)
    case _ => true
  }

  /** Only an UPDATE of RUNNING brings a thread to the lock, and a statement is run as what it is: on every run. */
  lemma {:induction false} OnlyUpdatesComeToTheLock(cfg: Config, acts: seq<Action>, i: Tid)
    requires Legal(cfg, Init(cfg), acts) && i < |cfg.conn|
    ensures var s := Run(cfg, Init(cfg), acts); |s.pc| == |cfg.conn| && AsAsked(s.pc[i], LastUpd(acts, i))
    decreases |acts|
  {
    if acts != [] {
      var n := |acts| - 1;
      Prefix(cfg, Init(cfg), acts, n);
      assert acts[..n + 1] == acts;
      OnlyUpdatesComeToTheLock(cfg, acts[..n], i);
    }
  }

  /** No thread of connection c has been asked to update RUNNING. */
  predicate ReadsOnly(cfg: Config, acts: seq<Action>, c: Cid) {
    forall n :: 0 <= n < |acts| && acts[n].Execute? && acts[n].i < |cfg.conn| && cfg.conn[acts[n].i] == c ==>
      !acts[n].upd
  }

  lemma {:induction false} LastUpdIsThere(cfg: Config, acts: seq<Action>, i: Tid)
    requires LastUpd(acts, i) == Some(true) && i < |cfg.conn|
    ensures !ReadsOnly(cfg, acts, cfg.conn[i])
  {
    var n := |acts| - 1;
    if !(acts[n].Execute? && acts[n].i == i) {
      LastUpdIsThere(cfg, acts[..n], i);
      var m :| 0 <= m < n && acts[..n][m].Execute? && acts[..n][m].i < |cfg.conn|
               && cfg.conn[acts[..n][m].i] == cfg.conn[i] && acts[..n][m].upd;
      assert acts[m] == acts[..n][m];
    }
  }

  /** A connection that only reads never owns the lock, never has its flag up and never waits for the lock. */
  lemma {:induction false} ReadersStayClear(cfg: Config, acts: seq<Action>, c: Cid)
    requires Legal(cfg, Init(cfg), acts) && ReadsOnly(cfg, acts, c)
    ensures var s := Run(cfg, Init(cfg), acts);
            && |s.pc| == |cfg.conn| && s.runn != Some(c) && c !in s.acqd && c !in s.updated
            && forall i :: 0 <= i < |s.pc| && cfg.conn[i] == c ==>
                 !s.pc[i].ExecWantRunn? && !s.pc[i].ExecSetFlag? && s.pc[i] != Executing(true)
    decreases |acts|
  {
    var s := Run(cfg, Init(cfg), acts);
    if acts == [] {
      InitInv(cfg);
    } else {
      var n := |acts| - 1;
      Prefix(cfg, Init(cfg), acts, n);
      assert acts[..n + 1] == acts;
      assert ReadsOnly(cfg, acts[..n], c);
      ReadersStayClear(cfg, acts[..n], c);
    }
    forall i | 0 <= i < |s.pc| && cfg.conn[i] == c
      ensures !s.pc[i].ExecWantRunn? && !s.pc[i].ExecSetFlag? && s.pc[i] != Executing(true)
    {
      OnlyUpdatesComeToTheLock(cfg, acts, i);
      if LastUpd(acts, i) == Some(true) { LastUpdIsThere(cfg, acts, i); }
    }
  }

  /** Such a statement gets to run by its own steps once the mutex of its flag is free, whoever owns the lock. */
  lemma ReaderGetsThrough(cfg: Config, s: State, i: Tid)
    requires Inv(cfg, s) && i < |s.pc| && s.pc[i] == ExecWantVar(false) && cfg.conn[i] !in s.mutex
    ensures var acts := [Step(i), Step(i), Step(i)];
            && Legal(cfg, s, acts)
            && Run(cfg, s, acts) == s.(pc := s.pc[i := Executing(false)])
  {
    var c := cfg.conn[i];
    var s1 := s.(pc := s.pc[i := ExecTest(false)], mutex := s.mutex[c := i]);
    assert Do(cfg, s, Step(i)) == s1;
    var s2 := s1.(pc := s.pc[i := ExecUnlockVar(false)]);
    assert Do(cfg, s1, Step(i)) == s2;
    var s3 := s.(pc := s.pc[i := Executing(false)]);
    assert s2.mutex - {c} == s.mutex;
    assert Do(cfg, s2, Step(i)) == s3;
    StepsAre(cfg, s, s1, s2, s3, i);
  }

  /** On a connection without exclusion any statement runs at once and touches neither mutex nor flag. */
  lemma PlainStatementRuns(cfg: Config, s: State, i: Tid, upd: bool)
    requires Inv(cfg, s) && i < |s.pc| && s.pc[i].Idle? && cfg.conn[i] !in cfg.excl
    ensures var a, c := Execute(i, upd), cfg.conn[i];
            && Can(cfg, s, a) && Do(cfg, s, a) == s.(pc := s.pc[i := Executing(upd)])
            && Can(cfg, Do(cfg, s, a), Step(i))
            && Do(cfg, Do(cfg, s, a), Step(i)) == s.(updated := if upd then s.updated + {c} else s.updated)
  {
    assert s.pc[i := Executing(upd)][i := Idle] == s.pc;
  }

  lemma StepsAre(cfg: Config, s: State, s1: State, s2: State, s3: State, i: Tid)
    requires Can(cfg, s, Step(i)) && Do(cfg, s, Step(i)) == s1
    requires Can(cfg, s1, Step(i)) && Do(cfg, s1, Step(i)) == s2
    requires Can(cfg, s2, Step(i)) && Do(cfg, s2, Step(i)) == s3
    ensures Legal(cfg, s, [Step(i), Step(i), Step(i)]) && Run(cfg, s, [Step(i), Step(i), Step(i)]) == s3
  {
    var a1, a2, a3 := [Step(i)], [Step(i), Step(i)], [Step(i), Step(i), Step(i)];
    assert a1[1..] == [] && a2[1..] == a1 && a3[1..] == a2;
    assert Legal(cfg, s2, a1) && Run(cfg, s2, a1) == s3;
    assert Legal(cfg, s1, a2) && Run(cfg, s1, a2) == s3;
  }

  // ------------------------------------------------------------ two-phase locking

  /** No two threads share a connection that has exclusion switched on. */
  predicate OwnConnections(cfg: Config) {
    forall i, j :: 0 <= i < j < |cfg.conn| && cfg.conn[i] in cfg.excl ==> cfg.conn[i] != cfg.conn[j]
  }

  /** What holds of thread i when its connection is its own: an open update of RUNNING is covered by the lock. */
  predicate CoveredAt(cfg: Config, s: State, i: Tid)
    requires |s.pc| == |cfg.conn| && i < |s.pc|
  {
    var c := cfg.conn[i];
    c in cfg.excl ==>
      && (s.pc[i] == Executing(true) ==> s.runn == Some(c))
      && (c in s.updated ==> s.runn == Some(c))
      && (c in s.updated ==> !s.pc[i].EndWantVar? && !s.pc[i].EndTest? && !s.pc[i].EndUnlockRunn?
                             && !s.pc[i].EndClearFlag? && !s.pc[i].EndUnlockVar?)
  }

  ghost predicate Covered(cfg: Config, s: State) {
    Inv(cfg, s) && forall i :: 0 <= i < |s.pc| ==> CoveredAt(cfg, s, i)
  }

  lemma StepKeepsCoveredAt(cfg: Config, s: State, a: Action, j: Tid)
    requires OwnConnections(cfg) && Covered(cfg, s) && Can(cfg, s, a) && j < |s.pc|
    ensures CoveredAt(cfg, Do(cfg, s, a), j)
  {
    assert CoveredAt(cfg, s, j) && ThreadInv(cfg, s, j) && ThreadInv(cfg, s, a.i);
    assert ConnInv(cfg, s, cfg.conn[j]) && ConnInv(cfg, s, cfg.conn[a.i]);
  }

  lemma StepKeepsCovered(cfg: Config, s: State, a: Action)
    requires OwnConnections(cfg) && Covered(cfg, s) && Can(cfg, s, a)
    ensures Covered(cfg, Do(cfg, s, a))
  {
    StepKeepsInv(cfg, s, a);
    forall j | 0 <= j < |s.pc| ensures CoveredAt(cfg, Do(cfg, s, a), j) { StepKeepsCoveredAt(cfg, s, a, j); }
  }

  lemma {:induction false} RunKeepsCovered(cfg: Config, s: State, acts: seq<Action>)
    requires OwnConnections(cfg) && Covered(cfg, s) && Legal(cfg, s, acts)
    ensures Covered(cfg, Run(cfg, s, acts))
    decreases acts
  {
    if acts != [] {
      StepKeepsCovered(cfg, s, acts[0]);
      RunKeepsCovered(cfg, Do(cfg, s, acts[0]), acts[1..]);
    }
  }

  /** Somewhere in the run thread i's commit or rollback reaches the database. */
  predicate EndsTran(cfg: Config, s: State, acts: seq<Action>, i: Tid)
    requires Legal(cfg, s, acts)
    decreases acts
  {
    acts != [] && ((acts[0] == Step(i) && s.pc[i].EndTran?) || EndsTran(cfg, Do(cfg, s, acts[0]), acts[1..], i))
  }

  lemma {:induction false} StaysUpdated(cfg: Config, s: State, acts: seq<Action>, i: Tid)
    requires OwnConnections(cfg) && Legal(cfg, s, acts) && i < |cfg.conn| && |s.pc| == |cfg.conn|
    requires cfg.conn[i] in cfg.excl && cfg.conn[i] in s.updated && !EndsTran(cfg, s, acts, i)
    ensures cfg.conn[i] in Run(cfg, s, acts).updated
    decreases acts
  {
    if acts != [] { StaysUpdated(cfg, Do(cfg, s, acts[0]), acts[1..], i); }
  }

  /**
   * Two-phase exclusion.  Thread i is about to run an UPDATE of RUNNING after the actions `before`, runs it,
   * and its transaction does not end during `after`.  Then no thread of another exclusion-enabled
   * connection is about to run one, at any point of any interleaving.
   */
  lemma TwoPhaseExclusion(cfg: Config, before: seq<Action>, after: seq<Action>, i: Tid, j: Tid)
    requires OwnConnections(cfg) && Legal(cfg, Init(cfg), before)
    requires i < |cfg.conn| && j < |cfg.conn| && cfg.conn[i] in cfg.excl && cfg.conn[j] in cfg.excl
    requires var s := Run(cfg, Init(cfg), before);
             && |s.pc| == |cfg.conn| && s.pc[i] == Executing(true)
             && Legal(cfg, Do(cfg, s, Step(i)), after) && !EndsTran(cfg, Do(cfg, s, Step(i)), after, i)
    ensures var t := Run(cfg, Do(cfg, Run(cfg, Init(cfg), before), Step(i)), after);
            && t.runn == Some(cfg.conn[i])
            && |t.pc| == |cfg.conn| && (t.pc[j] == Executing(true) ==> j == i)
  {
    InitInv(cfg);
    RunKeepsCovered(cfg, Init(cfg), before);
    var s := Do(cfg, Run(cfg, Init(cfg), before), Step(i));
    StepKeepsCovered(cfg, Run(cfg, Init(cfg), before), Step(i));
    RunKeepsCovered(cfg, s, after);
    StaysUpdated(cfg, s, after, i);
    var t := Run(cfg, s, after);
    assert CoveredAt(cfg, t, i) && CoveredAt(cfg, t, j);
  }

  ghost predicate Reachable(cfg: Config, s: State) {
    exists acts: seq<Action> :: Legal(cfg, Init(cfg), acts) && Run(cfg, Init(cfg), acts) == s
  }

  lemma {:induction false} Extend(cfg: Config, s: State, acts: seq<Action>, a: Action)
    requires Legal(cfg, s, acts) && Can(cfg, Run(cfg, s, acts), a)
    ensures Legal(cfg, s, acts + [a]) && Run(cfg, s, acts + [a]) == Do(cfg, Run(cfg, s, acts), a)
    decreases acts
  {
    if acts != [] {
      assert (acts + [a])[1..] == acts[1..] + [a];
      Extend(cfg, Do(cfg, s, acts[0]), acts[1..], a);
    }
  }

  /** One step of thread i, from where it stands to where it goes. */
  lemma Reach(cfg: Config, s: State, a: Action, t: State)
    requires Reachable(cfg, s) && Can(cfg, s, a) && Do(cfg, s, a) == t
    ensures Reachable(cfg, t)
  {
    var acts :| Legal(cfg, Init(cfg), acts) && Run(cfg, Init(cfg), acts) == s;
    Extend(cfg, Init(cfg), acts, a);
  }

  /** An undisturbed statement takes the lock. */
  lemma TakesLock(cfg: Config, s: State, i: Tid)
    requires Reachable(cfg, s) && |s.pc| == |cfg.conn| && i < |s.pc| && s.pc[i].Idle?
    requires var c := cfg.conn[i]; c in cfg.excl && c !in s.mutex && c !in s.acqd && s.runn == None
    ensures var c := cfg.conn[i];
            Reachable(cfg, s.(pc := s.pc[i := Executing(true)], runn := Some(c), acqd := s.acqd + {c},
                              locker := Some(i)))
  {
    var c := cfg.conn[i];
    var s1 := s.(pc := s.pc[i := ExecWantVar(true)]);
    var s2 := s.(pc := s.pc[i := ExecTest(true)], mutex := s.mutex[c := i]);
    var s3 := s2.(pc := s.pc[i := ExecWantRunn]);
    assert Reachable(cfg, s3) by {
      Reach(cfg, s, Execute(i, true), s1);
      Reach(cfg, s1, Step(i), s2);
      Reach(cfg, s2, Step(i), s3);
    }
    var s4 := s2.(pc := s.pc[i := ExecSetFlag], runn := Some(c), locker := Some(i));
    var s5 := s4.(pc := s.pc[i := ExecUnlockVar(true)], acqd := s.acqd + {c});
    var s6 := s.(pc := s.pc[i := Executing(true)], runn := Some(c), acqd := s.acqd + {c}, locker := Some(i));
    assert s6.mutex == s5.mutex - {c};
    Reach(cfg, s3, Step(i), s4);
    Reach(cfg, s4, Step(i), s5);
    Reach(cfg, s5, Step(i), s6);
  }

  /** An undisturbed commit comes to the point of releasing it. */
  lemma ComesToRelease(cfg: Config, s: State, i: Tid)
    requires Reachable(cfg, s) && |s.pc| == |cfg.conn| && i < |s.pc| && s.pc[i].Idle?
    requires var c := cfg.conn[i]; c in cfg.excl && c !in s.mutex && c in s.acqd
    ensures var c := cfg.conn[i];
            Reachable(cfg, s.(pc := s.pc[i := EndUnlockRunn], mutex := s.mutex[c := i], updated := s.updated - {c}))
  {
    var c := cfg.conn[i];
    var s1 := s.(pc := s.pc[i := EndTran]);
    var s2 := s.(pc := s.pc[i := EndWantVar], updated := s.updated - {c});
    var s3 := s2.(pc := s.pc[i := EndTest], mutex := s.mutex[c := i]);
    Reach(cfg, s, End(i), s1);
    Reach(cfg, s1, Step(i), s2);
    Reach(cfg, s2, Step(i), s3);
    Reach(cfg, s3, Step(i), s3.(pc := s.pc[i := EndUnlockRunn]));
  }

  /** And releases it. */
  lemma ReleasesLock(cfg: Config, s: State, i: Tid)
    requires Reachable(cfg, s) && |s.pc| == |cfg.conn| && i < |s.pc| && s.pc[i].Idle?
    requires var c := cfg.conn[i]; c in cfg.excl && c !in s.mutex && c in s.acqd
    ensures var c := cfg.conn[i];
            Reachable(cfg, s.(runn := None, acqd := s.acqd - {c}, updated := s.updated - {c}, locker := None))
  {
    var c := cfg.conn[i];
    ComesToRelease(cfg, s, i);
    var s4 := s.(pc := s.pc[i := EndUnlockRunn], mutex := s.mutex[c := i], updated := s.updated - {c});
    FinishesRelease(cfg, s4, i);
    assert s4.pc[i := Idle] == s.pc && s4.mutex - {c} == s.mutex;
  }

  lemma FinishesRelease(cfg: Config, s4: State, i: Tid)
    requires Reachable(cfg, s4) && |s4.pc| == |cfg.conn| && i < |s4.pc| && s4.pc[i].EndUnlockRunn?
    ensures var c := cfg.conn[i];
            Reachable(cfg, s4.(pc := s4.pc[i := Idle], mutex := s4.mutex - {c}, runn := None, acqd := s4.acqd - {c},
                               locker := None))
  {
    var c := cfg.conn[i];
    var s5 := s4.(pc := s4.pc[i := EndClearFlag], runn := None, locker := None);
    Reach(cfg, s4, Step(i), s5);
    var s6 := s5.(pc := s4.pc[i := EndUnlockVar], acqd := s4.acqd - {c});
    Reach(cfg, s5, Step(i), s6);
    Reach(cfg, s6, Step(i), s6.(pc := s4.pc[i := Idle], mutex := s4.mutex - {c}));
  }

  // -------------------------------------------------- the thread that unlocks

  /** Thread i is about to unlock RUNNING, which another thread has locked. */
  predicate UnlocksForAnother(cfg: Config, s: State, i: Tid) {
    |s.pc| == |cfg.conn| && i < |s.pc| && s.pc[i].EndUnlockRunn? && s.locker != Some(i)
  }

  lemma SharingUnlocksForAnother(cfg: Config, i: Tid, j: Tid)
    requires i < |cfg.conn| && j < |cfg.conn| && i != j && cfg.conn[i] == cfg.conn[j] && cfg.conn[i] in cfg.excl
    ensures exists s: State :: Reachable(cfg, s) && UnlocksForAnother(cfg, s, j)
  {
    var c := cfg.conn[i];
    var s := Init(cfg);
    assert Legal(cfg, s, []) && Run(cfg, s, []) == s;
    TakesLock(cfg, s, i);
    var s1 := s.(pc := s.pc[i := Executing(true)], runn := Some(c), acqd := s.acqd + {c}, locker := Some(i));
    ComesToRelease(cfg, s1, j);
    var s2 := s1.(pc := s1.pc[j := EndUnlockRunn], mutex := s1.mutex[c := j], updated := s1.updated - {c});
    assert Reachable(cfg, s2) && UnlocksForAnother(cfg, s2, j);
  }

  lemma UnlocksItsOwn(cfg: Config, s: State, i: Tid)
    requires OwnConnections(cfg) && Reachable(cfg, s)
    ensures !UnlocksForAnother(cfg, s, i)
  {
    var acts :| Legal(cfg, Init(cfg), acts) && Run(cfg, Init(cfg), acts) == s;
    InitInv(cfg);
    RunKeepsInv(cfg, Init(cfg), acts);
    if i < |s.pc| { assert ThreadInv(cfg, s, i) && ConnInv(cfg, s, cfg.conn[i]); }
  }

  /**
   * A mutex is to be unlocked by the thread that locked it.  For every configuration, the lock on RUNNING is always
   * released by the thread that took it if and only if no two threads share an enabled connection.
   */
  lemma LockerUnlocksIff(cfg: Config)
    ensures (forall s: State, i: Tid :: Reachable(cfg, s) ==> !UnlocksForAnother(cfg, s, i)) <==> OwnConnections(cfg)
  {
    if OwnConnections(cfg) {
      forall s: State, i: Tid | Reachable(cfg, s) ensures !UnlocksForAnother(cfg, s, i) { UnlocksItsOwn(cfg, s, i); }
    } else {
      var i, j :| 0 <= i < j < |cfg.conn| && cfg.conn[i] in cfg.excl && cfg.conn[i] == cfg.conn[j];
      SharingUnlocksForAnother(cfg, i, j);
    }
  }

  // ------------------------------------------------------- exclusion and sharing

  /** Two threads of different exclusion-enabled connections are both about to run an UPDATE of RUNNING. */
  predicate Clash(cfg: Config, s: State, a: Tid, b: Tid) {
    && |s.pc| == |cfg.conn| && a < |s.pc| && b < |s.pc|
    && cfg.conn[a] in cfg.excl && cfg.conn[b] in cfg.excl && cfg.conn[a] != cfg.conn[b]
    && s.pc[a] == Executing(true) && s.pc[b] == Executing(true)
  }

  /** Two threads share an enabled connection, and a third is on another one. */
  predicate Shares(cfg: Config, i: Tid, j: Tid, k: Tid) {
    && i < |cfg.conn| && j < |cfg.conn| && k < |cfg.conn| && i != j
    && cfg.conn[i] == cfg.conn[j] && cfg.conn[k] != cfg.conn[i]
    && cfg.conn[i] in cfg.excl && cfg.conn[k] in cfg.excl
  }

  /**
   * Then exclusion breaks: one has passed the test with the flag up when the other's commit releases the lock, and
   * the third takes it.
   */
  lemma SharingBreaksExclusion(cfg: Config, i: Tid, j: Tid, k: Tid)
    requires Shares(cfg, i, j, k)
    ensures exists s: State :: Reachable(cfg, s) && Clash(cfg, s, i, k)
  {
    var c := cfg.conn[i];
    var s := Init(cfg);
    assert Legal(cfg, s, []) && Run(cfg, s, []) == s;
    TakesLock(cfg, s, i);
    var s1 := s.(pc := s.pc[i := Executing(true)], runn := Some(c), acqd := s.acqd + {c}, locker := Some(i));
    ReleasesLock(cfg, s1, j);
    var s2 := s1.(runn := None, acqd := s1.acqd - {c}, updated := s1.updated - {c}, locker := None);
    TakesLock(cfg, s2, k);
    var d := cfg.conn[k];
    var s3 := s2.(pc := s2.pc[k := Executing(true)], runn := Some(d), acqd := s2.acqd + {d}, locker := Some(k));
    assert Reachable(cfg, s3) && Clash(cfg, s3, i, k);
  }

  lemma NoClashAlone(cfg: Config, s: State, a: Tid, b: Tid)
    requires OwnConnections(cfg) && Reachable(cfg, s)
    ensures !Clash(cfg, s, a, b)
  {
    var acts :| Legal(cfg, Init(cfg), acts) && Run(cfg, Init(cfg), acts) == s;
    InitInv(cfg);
    RunKeepsCovered(cfg, Init(cfg), acts);
    if a < |s.pc| && b < |s.pc| { assert CoveredAt(cfg, s, a) && CoveredAt(cfg, s, b); }
  }

  /**
   * For every configuration: exclusion can break if and only if two threads share an enabled connection while a
   * third is on another one.
   */
  lemma ExclusionBreaksIff(cfg: Config)
    ensures (exists s: State, a: Tid, b: Tid :: Reachable(cfg, s) && Clash(cfg, s, a, b)) <==>
            exists i: Tid, j: Tid, k: Tid :: Shares(cfg, i, j, k)
  {
    if i: Tid, j: Tid, k: Tid :| Shares(cfg, i, j, k) {
      SharingBreaksExclusion(cfg, i, j, k);
    }
    if s: State, a: Tid, b: Tid :| Reachable(cfg, s) && Clash(cfg, s, a, b) {
      if OwnConnections(cfg) {
        NoClashAlone(cfg, s, a, b);
      } else {
        var i, j :| 0 <= i < j < |cfg.conn| && cfg.conn[i] in cfg.excl && cfg.conn[i] == cfg.conn[j];
        assert Shares(cfg, i, j, if cfg.conn[a] != cfg.conn[i] then a else b);
      }
    }
  }
}
