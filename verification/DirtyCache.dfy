/**
 * The dirty-table bookkeeping of DalOdbcMgr as values: the global sets, the
 * size-capped per-VTN sets with their overflow flags, and the two dirty tables
 * in the database that both are supposed to mirror.
 */
module DirtyCache {
  import opened Common

  // kDalNumTables
  const NUM_TABLES: nat := 74

  datatype Op = Create | Update | Delete

  datatype Rc = Success | RecordNotFound | RecordAlreadyExists | GeneralError

  /** The configuration modes that the DAL distinguishes. */
  datatype Mode = Global | Virtual | Vtn(name: string)

  type Pair = (nat, string)

  /** One value per tracked operation. */
  datatype PerOp<T> = PerOp(cr: T, up: T, dl: T) {
    function Get(op: Op): T {
      match op
      case Create => cr
      case Update => up
      case Delete => dl
    }

    function Put(op: Op, x: T): PerOp<T> {
      match op
      case Create => this.(cr := x)
      case Update => this.(up := x)
      case Delete => this.(dl := x)
    }
  }

  /** g, v: the caches.  gdb, vdb: cfg_tbl_dirty and vtn_cfg_tbl_dirty.  over: max_cache_reached_xx_. */
  datatype Dirty = Dirty(
    g: PerOp<set<nat>>, gdb: PerOp<set<nat>>,
    v: PerOp<set<Pair>>, vdb: PerOp<set<Pair>>,
    over: PerOp<bool>, limit: nat)

  const NO_PAIRS: PerOp<set<Pair>> := PerOp({}, {}, {})
  const NO_TABLES: PerOp<set<nat>> := PerOp({}, {}, {})

  /** The state after construction and a first load from an empty database. */
  function Fresh(limit: nat): Dirty {
    Dirty(NO_TABLES, NO_TABLES, NO_PAIRS, NO_PAIRS, PerOp(false, false, false), limit)
  }

  // ---------------------------------------------------------------- marking

  /** One database-then-cache write in global or virtual mode. */
  function MarkTable(d: Dirty, t: nat, op: Op): Dirty {
    d.(g := d.g.Put(op, d.g.Get(op) + {t}), gdb := d.gdb.Put(op, d.gdb.Get(op) + {t}))
  }

  /** SetTableDirtyForGblAndVirMode; w1, w2: whether the two possible database writes succeed. */
  function MarkGlobal(d: Dirty, t: nat, op: Op, w1: bool, w2: bool): (Dirty, Rc) {
    if t !in d.g.Get(op) && !(w1 && t < NUM_TABLES) then (d, GeneralError)
    else
      var d1 := if t in d.g.Get(op) then d else MarkTable(d, t, op);
      if op == Create && t in d1.g.dl && t !in d1.g.up then
        if w2 && t < NUM_TABLES then (MarkTable(d1, t, Update), Success) else (d1, GeneralError)
      else (d1, Success)
  }

  /** The answer of one pass of SetTableDirtyForVtnMode; wrote: the database row was newly written. */
  datatype VtnMark = VtnMark(d: Dirty, wrote: bool, rc: Rc)

  /** A pair enters its cache if there is room; otherwise the overflow flag goes up. */
  function CachePair(d: Dirty, p: Pair, op: Op): Dirty {
    if |d.v.Get(op)| < d.limit then d.(v := d.v.Put(op, d.v.Get(op) + {p})) else d.(over := d.over.Put(op, true))
  }

  /** One pass of SetTableDirtyForVtnMode, up to the recreate rule. */
  function MarkPair(d: Dirty, p: Pair, op: Op, w: bool): VtnMark {
    if p in d.v.Get(op) then VtnMark(d, false, Success)
    else
      var room := |d.v.Get(op)| < d.limit;
      var d1 := CachePair(d, p, op);
      if !room && p in d.vdb.Get(op) then VtnMark(d1, false, Success)
      else if !(w && p.0 < NUM_TABLES) then VtnMark(d1, false, GeneralError)
      else VtnMark(d1.(vdb := d1.vdb.Put(op, d1.vdb.Get(op) + {p})), true, Success)
  }

  /** SetTableDirtyForVtnMode. */
  function MarkVtn(d: Dirty, p: Pair, op: Op, w1: bool, w2: bool): (Dirty, Rc) {
    var m := MarkPair(d, p, op, w1);
    if m.rc == Success && m.wrote && op == Create && p in m.d.v.dl && p !in m.d.v.up then
      var u := MarkPair(m.d, p, Update, w2);
      (u.d, u.rc)
    else (m.d, m.rc)
  }

  /** A VTN-mode create mark of p reaches the recreate rule and finds the delete pair cached. */
  predicate RecreateMarks(d: Dirty, p: Pair) {
    p !in d.v.cr && !(|d.v.cr| >= d.limit && p in d.vdb.cr) && p in d.v.dl
  }

  /** Whether a create mark of table t also sees to its update mark. */
  predicate Again(d: Dirty, t: nat, mode: Mode) {
    if mode.Vtn? then RecreateMarks(d, (t, mode.name)) else t in d.g.dl
  }

  /** SetTableDirty. */
  function Mark(d: Dirty, t: nat, op: Op, mode: Mode, w1: bool, w2: bool): (Dirty, Rc) {
    match mode
    case Global => MarkGlobal(d, t, op, w1, w2)
    case Virtual => MarkGlobal(d, t, op, w1, w2)
    case Vtn(name) => MarkVtn(d, (t, name), op, w1, w2)
  }

  // ---------------------------------------------------------------- lookups

  /** The VTN half of a VTN-mode lookup: cache, then database if the cache overflowed. */
  predicate InVtnDirty(d: Dirty, op: Op, p: Pair) {
    p in d.v.Get(op) || (d.over.Get(op) && p in d.vdb.Get(op))
  }

  predicate AnyPair(s: set<Pair>, t: nat) {
    exists p :: p in s && p.0 == t
  }

  /** IsTblDirty. */
  predicate IsDirty(d: Dirty, op: Op, t: nat, mode: Mode) {
    match mode
    case Global => t in d.g.Get(op) || AnyPair(d.v.Get(op), t)
    case Virtual => t in d.g.Get(op) || AnyPair(d.v.Get(op), t)
    case Vtn(name) => InVtnDirty(d, op, (t, name)) || t in d.g.Get(op)
  }

  /** What the two database tables say: the reference that the caches stand for. */
  predicate DbDirty(d: Dirty, op: Op, t: nat, mode: Mode) {
    match mode
    case Global => t in d.gdb.Get(op) || AnyPair(d.vdb.Get(op), t)
    case Virtual => t in d.gdb.Get(op) || AnyPair(d.vdb.Get(op), t)
    case Vtn(name) => (t, name) in d.vdb.Get(op) || t in d.gdb.Get(op)
  }

  // --------------------------------------------------------------- clearing

  function DropNameInRange(s: set<Pair>, name: string): set<Pair> {
    set p | p in s && !(p.1 == name && p.0 <= NUM_TABLES)
  }

  /** The part of the clear loop below table t. */
  ghost function DropBelow(s: set<Pair>, name: string, t: nat): set<Pair> {
    set p | p in s && !(p.1 == name && p.0 < t)
  }

  lemma DropBelowSteps(s: set<Pair>, name: string, t: nat)
    ensures DropBelow(s, name, 0) == s
    ensures DropBelow(s, name, t) - {(t, name)} == DropBelow(s, name, t + 1)
    ensures DropBelow(s, name, NUM_TABLES + 1) == DropNameInRange(s, name)
  {}

  function DropName(s: set<Pair>, name: string): set<Pair> {
    set p | p in s && p.1 != name
  }

  /** ClearDirtyTblCache in VTN mode. */
  function ClearVtnCache(d: Dirty, name: string): Dirty {
    var v := PerOp(DropNameInRange(d.v.cr, name), DropNameInRange(d.v.up, name), DropNameInRange(d.v.dl, name));
    d.(v := v, over := PerOp(d.over.cr && |v.cr| >= d.limit,
                             d.over.up && |v.up| >= d.limit,
                             d.over.dl && |v.dl| >= d.limit))
  }

  /** ClearVtnDirtyTblInDB in VTN mode. */
  function ClearVtnDb(d: Dirty, name: string): Dirty {
    d.(vdb := PerOp(DropName(d.vdb.cr, name), DropName(d.vdb.up, name), DropName(d.vdb.dl, name)))
  }

  /** A VTN-mode clear: ClearAllDirtyTblInDB followed by ClearDirtyTblCache. */
  function ClearVtn(d: Dirty, name: string): Dirty {
    ClearVtnCache(ClearVtnDb(d, name), name)
  }

  /** A global-mode clear of database and caches. */
  function ClearAll(d: Dirty): Dirty {
    Fresh(d.limit)
  }

  /** ClearGlobalDirtyTblCacheAndDB. */
  function ClearOne(d: Dirty, t: nat, op: Op, w: bool): (Dirty, Rc) {
    if t !in d.g.Get(op) then (d, Success)
    else if !(w && t < NUM_TABLES) then (d, GeneralError)
    else (d.(g := d.g.Put(op, d.g.Get(op) - {t}), gdb := d.gdb.Put(op, d.gdb.Get(op) - {t})), Success)
  }

  /** UpdateDirtyTblCacheFromDB: the cap is not applied and the overflow flags are not touched. */
  function Reload(d: Dirty): Dirty {
    d.(g := d.gdb, v := d.vdb)
  }

  // ------------------------------------------------------------------- runs

  /**
   * One call on the manager.  snapG, snapV: the committed database contents to which a
   * failed VTN-mode mark is rolled back before the caches are reloaded.
   */
  datatype Action =
    | DoMark(t: nat, op: Op, mode: Mode, w1: bool, w2: bool, snapG: PerOp<set<nat>>, snapV: PerOp<set<Pair>>)
    | DoClearVtn(name: string)
    | DoClearAll
    | DoClearOne(t: nat, op: Op, w: bool)
    | DoReload

  function Do(d: Dirty, a: Action): Dirty {
    match a
    case DoMark(t, op, mode, w1, w2, snapG, snapV) =>
      var (d1, rc) := Mark(d, t, op, mode, w1, w2);
      if rc == GeneralError && mode.Vtn? then Reload(d1.(gdb := snapG, vdb := snapV)) else d1
    case DoClearVtn(name) => ClearVtn(d, name)
    case DoClearAll => ClearAll(d)
    case DoClearOne(t, op, w) => ClearOne(d, t, op, w).0
    case DoReload => Reload(d)
  }

  function Run(d: Dirty, acts: seq<Action>): Dirty
    decreases acts
  {
    if acts == [] then d else Run(Do(d, acts[0]), acts[1..])
  }

  // ------------------------------------------------------- the global cache

  predicate GlobalSync(d: Dirty) { d.g == d.gdb }

  /** Database first, cache second: the global cache equals its table on every run, failed writes included. */
  lemma {:induction false} GlobalCacheEqualsDb(d: Dirty, acts: seq<Action>)
    requires GlobalSync(d)
    ensures GlobalSync(Run(d, acts))
    decreases acts
  {
    if acts != [] {
      assert GlobalSync(Do(d, acts[0]));
      GlobalCacheEqualsDb(Do(d, acts[0]), acts[1..]);
    }
  }

  /** A successful create mark on a delete-dirty table leaves it update-dirty. */
  lemma RecreateMarksUpdate(d: Dirty, t: nat, w1: bool, w2: bool)
    requires t in d.g.dl
    ensures var (d1, rc) := MarkGlobal(d, t, Create, w1, w2);
            rc == Success <==> (t in d1.g.cr && t in d1.g.up && t in d1.g.dl)
  {}

  /** Clearing one mark clears that mark alone, in cache and table together, or changes nothing. */
  lemma ClearOneIsExact(d: Dirty, t: nat, op: Op, w: bool, o: Op, x: nat)
    requires GlobalSync(d)
    ensures var (e, rc) := ClearOne(d, t, op, w);
            && (rc == Success <==> (w && t < NUM_TABLES) || t !in d.g.Get(op))
            && (rc != Success ==> e == d)
            && e.v == d.v && e.vdb == d.vdb && e.over == d.over
            && (rc == Success ==> (x in e.g.Get(o) <==> x in d.g.Get(o) && !(o == op && x == t)))
            && (rc == Success ==> (x in e.gdb.Get(o) <==> x in d.gdb.Get(o) && !(o == op && x == t)))
  {}

  // ---------------------------------------------- the size-capped VTN cache

  /** The cache holds no pair the table lacks, and lacks one only with the flag up. */
  predicate VtnSync(d: Dirty) {
    forall op: Op :: d.v.Get(op) <= d.vdb.Get(op) && (d.v.Get(op) != d.vdb.Get(op) ==> d.over.Get(op))
  }

  ghost predicate InRange(d: Dirty) {
    forall op: Op, p: Pair :: (p in d.v.Get(op) || p in d.vdb.Get(op)) ==> p.0 < NUM_TABLES
  }

  /** Every VTN-mode lookup answers as the table does. */
  ghost predicate VtnAnswersLikeDb(d: Dirty) {
    forall op: Op, p: Pair :: InVtnDirty(d, op, p) <==> p in d.vdb.Get(op)
  }

  lemma SyncIffAnswers(d: Dirty)
    ensures VtnSync(d) <==> VtnAnswersLikeDb(d)
  {
    if VtnAnswersLikeDb(d) {
      forall op: Op
        ensures d.v.Get(op) <= d.vdb.Get(op) && (d.v.Get(op) != d.vdb.Get(op) ==> d.over.Get(op))
      {
        forall p | p in d.v.Get(op) ensures p in d.vdb.Get(op) { assert InVtnDirty(d, op, p); }
        if d.v.Get(op) != d.vdb.Get(op) {
          var p :| p in d.vdb.Get(op) && p !in d.v.Get(op);
          assert InVtnDirty(d, op, p);
        }
      }
    }
  }

  /** Clearing one VTN is safe for an operation unless other VTNs have overflow rows and the cache has room again. */
  predicate ClearSafe(d: Dirty, name: string) {
    forall op: Op :: DropName(d.v.Get(op), name) == DropName(d.vdb.Get(op), name)
                     || |DropName(d.v.Get(op), name)| >= d.limit
  }

  lemma DropInRange(d: Dirty, name: string, op: Op)
    requires InRange(d)
    ensures ClearVtn(d, name).v.Get(op) == DropName(d.v.Get(op), name)
    ensures ClearVtn(d, name).vdb.Get(op) == DropName(d.vdb.Get(op), name)
    ensures ClearVtn(d, name).over.Get(op) == (d.over.Get(op) && |DropName(d.v.Get(op), name)| >= d.limit)
  {
    assert DropNameInRange(d.v.Get(op), name) == DropName(d.v.Get(op), name);
  }

  /** Exactly when a VTN-mode clear keeps every other VTN's answer equal to the table. */
  lemma VtnClearKeepsAnswersIff(d: Dirty, name: string)
    requires VtnSync(d) && InRange(d)
    ensures VtnAnswersLikeDb(ClearVtn(d, name)) <==> ClearSafe(d, name)
  {
    var e := ClearVtn(d, name);
    SyncIffAnswers(e);
    forall op: Op ensures e.v.Get(op) == DropName(d.v.Get(op), name) &&
                          e.vdb.Get(op) == DropName(d.vdb.Get(op), name) &&
                          e.over.Get(op) == (d.over.Get(op) && |DropName(d.v.Get(op), name)| >= d.limit)
    { DropInRange(d, name, op); }
    if VtnSync(e) {
      forall op: Op ensures DropName(d.v.Get(op), name) == DropName(d.vdb.Get(op), name)
                            || |DropName(d.v.Get(op), name)| >= d.limit
      { assert e.v.Get(op) != e.vdb.Get(op) ==> e.over.Get(op); }
    }
    if ClearSafe(d, name) {
      forall op: Op ensures e.v.Get(op) <= e.vdb.Get(op) && (e.v.Get(op) != e.vdb.Get(op) ==> e.over.Get(op))
      {
        assert d.v.Get(op) <= d.vdb.Get(op);
        assert d.v.Get(op) == d.vdb.Get(op) ==> e.v.Get(op) == e.vdb.Get(op);
      }
    }
  }

  /** With no flag up, as on a run without overflow, a VTN-mode clear is always safe. */
  lemma ClearBeforeOverflowIsSafe(d: Dirty, name: string)
    requires VtnSync(d) && d.over == PerOp(false, false, false)
    ensures ClearSafe(d, name)
  {
    forall op: Op ensures DropName(d.v.Get(op), name) == DropName(d.vdb.Get(op), name)
    { assert d.v.Get(op) == d.vdb.Get(op); }
  }

  /** With room for one pair, a delete pair of one VTN is cached and one of a second VTN overflows. */
  lemma SecondVtnOverflows(t: nat, a: string, b: string)
    requires t < NUM_TABLES && a != b
    ensures var d := Mark(Mark(Fresh(1), t, Delete, Vtn(a), true, true).0, t, Delete, Vtn(b), true, true).0;
            d.v.dl == {(t, a)} && (t, b) in d.vdb.dl && d.g == NO_TABLES && d.limit == 1
  {
    var d1 := Mark(Fresh(1), t, Delete, Vtn(a), true, true).0;
    assert d1.v.dl == {(t, a)} && d1.g == NO_TABLES && d1.limit == 1;
    assert |{(t, a)}| == 1;
  }

  /** So it is denied after a clear of the first. */
  lemma ClearForgets(d: Dirty, t: nat, a: string, b: string)
    requires t < NUM_TABLES && a != b
    requires d.v.dl == {(t, a)} && (t, b) in d.vdb.dl && d.g == NO_TABLES && d.limit == 1
    ensures DbDirty(ClearVtn(d, a), Delete, t, Vtn(b)) && !IsDirty(ClearVtn(d, a), Delete, t, Vtn(b))
  {
    assert ClearVtn(d, a).v.dl == {};
  }

  /** Two marks and a clear from a fresh manager, after which another VTN's dirty pair is denied. */
  lemma VtnClearCanLoseAnswers()
    ensures exists acts: seq<Action> ::
              var d := Run(Fresh(1), acts);
              DbDirty(d, Delete, 0, Vtn("b")) && !IsDirty(d, Delete, 0, Vtn("b"))
  {
    var x, y := "a", "b";
    var a := DoMark(0, Delete, Vtn(x), true, true, NO_TABLES, NO_PAIRS);
    var b := DoMark(0, Delete, Vtn(y), true, true, NO_TABLES, NO_PAIRS);
    SecondVtnOverflows(0, x, y);
    MarkWorks(Fresh(1), 0, Delete, Vtn(x));
    MarkWorks(Do(Fresh(1), a), 0, Delete, Vtn(y));
    ClearForgets(Do(Do(Fresh(1), a), b), 0, x, y);
    RunThree(Fresh(1), a, b, DoClearVtn(x));
  }

  lemma MarkWorks(d: Dirty, t: nat, op: Op, mode: Mode)
    requires t < NUM_TABLES
    ensures Mark(d, t, op, mode, true, true).1 == Success
    ensures Do(d, DoMark(t, op, mode, true, true, NO_TABLES, NO_PAIRS)) == Mark(d, t, op, mode, true, true).0
  {}

  lemma RunThree(d: Dirty, a: Action, b: Action, c: Action)
    ensures Run(d, [a, b, c]) == Do(Do(Do(d, a), b), c)
  {
    assert [a, b, c][1..] == [b, c] && [b, c][1..] == [c] && [c][1..] == [];
    assert Run(Do(Do(d, a), b), [c]) == Run(Do(Do(Do(d, a), b), c), []);
  }

  /** The database contents to which a failed mark is rolled back hold real table indexes. */
  predicate RollsBackInRange(a: Action) {
    a.DoMark? ==> forall op: Op, p: Pair :: p in a.snapV.Get(op) ==> p.0 < NUM_TABLES
  }

  /** Legal in a run: VTN-mode clears are safe. */
  predicate Legal(d: Dirty, a: Action) {
    RollsBackInRange(a) && (a.DoClearVtn? ==> ClearSafe(d, a.name))
  }

  predicate LegalRun(d: Dirty, acts: seq<Action>)
    decreases acts
  {
    acts != [] ==> Legal(d, acts[0]) && LegalRun(Do(d, acts[0]), acts[1..])
  }

  /** What a successful pass does to one operation's cache, table and flag. */
  lemma MarkPairAt(d: Dirty, p: Pair, op: Op, w: bool, o: Op)
    requires MarkPair(d, p, op, w).rc == Success && d.v.Get(op) <= d.vdb.Get(op)
    ensures var e := MarkPair(d, p, op, w).d;
            && e.vdb.Get(o) == (if o == op then d.vdb.Get(o) + {p} else d.vdb.Get(o))
            && (e.v.Get(o) == d.v.Get(o) || (o == op && e.v.Get(o) == d.v.Get(o) + {p}))
            && (d.over.Get(o) ==> e.over.Get(o))
            && (o == op ==> p in e.v.Get(o) || e.over.Get(o))
            && (p in e.vdb.Get(op) && (p !in d.vdb.Get(op) ==> p.0 < NUM_TABLES))
  {}

  lemma MarkPairKeepsSync(d: Dirty, p: Pair, op: Op, w: bool)
    requires VtnSync(d) && InRange(d)
    requires MarkPair(d, p, op, w).rc == Success
    ensures VtnSync(MarkPair(d, p, op, w).d) && InRange(MarkPair(d, p, op, w).d)
    ensures p in MarkPair(d, p, op, w).d.vdb.Get(op)
    ensures forall o: Op :: o != op ==> MarkPair(d, p, op, w).d.vdb.Get(o) == d.vdb.Get(o)
    ensures MarkPair(d, p, op, w).d.vdb.Get(op) == d.vdb.Get(op) + {p}
  {
    var e := MarkPair(d, p, op, w).d;
    assert d.v.Get(op) <= d.vdb.Get(op);
    MarkPairAt(d, p, op, w, op);
    forall o: Op
      ensures e.v.Get(o) <= e.vdb.Get(o) && (e.v.Get(o) != e.vdb.Get(o) ==> e.over.Get(o))
      ensures o != op ==> e.vdb.Get(o) == d.vdb.Get(o)
    {
      MarkPairAt(d, p, op, w, o);
      assert d.v.Get(o) <= d.vdb.Get(o) && (d.v.Get(o) != d.vdb.Get(o) ==> d.over.Get(o));
    }
    forall o: Op, x: Pair | x in e.v.Get(o) || x in e.vdb.Get(o) ensures x.0 < NUM_TABLES {
      MarkPairAt(d, p, op, w, o);
      assert x in d.v.Get(o) || x in d.vdb.Get(o) || x == p;
      assert p in d.vdb.Get(op) ==> p.0 < NUM_TABLES;
    }
  }

  lemma DoKeepsVtnSync(d: Dirty, a: Action)
    requires VtnSync(d) && InRange(d) && Legal(d, a)
    ensures VtnSync(Do(d, a)) && InRange(Do(d, a))
  {
    match a
    case DoMark(t, op, mode, w1, w2, snapG, snapV) =>
      if mode.Vtn? && Mark(d, t, op, mode, w1, w2).1 == Success {
        var p := (t, mode.name);
        MarkPairKeepsSync(d, p, op, w1);
        var m := MarkPair(d, p, op, w1);
        if m.wrote && op == Create && p in m.d.v.dl && p !in m.d.v.up {
          MarkPairKeepsSync(m.d, p, Update, w2);
        }
      }
    case DoClearVtn(name) =>
      VtnClearKeepsAnswersIff(d, name);
      SyncIffAnswers(Do(d, a));
      forall op: Op, p: Pair | p in Do(d, a).v.Get(op) || p in Do(d, a).vdb.Get(op) ensures p.0 < NUM_TABLES
      { DropInRange(d, name, op); }
    case DoClearAll =>
    case DoClearOne(t, op, w) =>
    case DoReload =>
  }

  /** An overflowing VTN cache still answers like the database, on every run whose VTN clears are safe. */
  lemma {:induction false} OverflowedCacheAnswersLikeDb(d: Dirty, acts: seq<Action>)
    requires VtnSync(d) && InRange(d) && LegalRun(d, acts)
    ensures VtnSync(Run(d, acts)) && VtnAnswersLikeDb(Run(d, acts))
    decreases acts
  {
    if acts == [] {
      SyncIffAnswers(d);
    } else {
      DoKeepsVtnSync(d, acts[0]);
      OverflowedCacheAnswersLikeDb(Do(d, acts[0]), acts[1..]);
    }
  }

  // ------------------------------------------------------ runs that do not overflow

  predicate NoFlagUp(d: Dirty) { d.over == PerOp(false, false, false) }

  /** No overflow flag goes up on the way. */
  predicate QuietRun(d: Dirty, acts: seq<Action>)
    decreases acts
  {
    acts != [] ==> RollsBackInRange(acts[0]) && NoFlagUp(Do(d, acts[0])) && QuietRun(Do(d, acts[0]), acts[1..])
  }

  predicate NoOverflow(d: Dirty) { d.v == d.vdb && NoFlagUp(d) }

  lemma DoKeepsNoOverflow(d: Dirty, a: Action)
    requires NoOverflow(d) && InRange(d) && RollsBackInRange(a) && NoFlagUp(Do(d, a))
    ensures NoOverflow(Do(d, a)) && InRange(Do(d, a))
  {
    assert VtnSync(d);
    if a.DoClearVtn? { ClearBeforeOverflowIsSafe(d, a.name); }
    DoKeepsVtnSync(d, a);
    var e := Do(d, a);
    assert e.v.Get(Create) == e.vdb.Get(Create) && e.v.Get(Update) == e.vdb.Get(Update);
    assert e.v.Get(Delete) == e.vdb.Get(Delete);
  }

  /** Without overflow, IsTblDirty in every mode is the plain predicate over the two database tables. */
  lemma {:induction false} AllModesAgreeWithoutOverflow(d: Dirty, acts: seq<Action>, op: Op, t: nat, mode: Mode)
    requires NoOverflow(d) && InRange(d) && GlobalSync(d) && QuietRun(d, acts)
    ensures IsDirty(Run(d, acts), op, t, mode) <==> DbDirty(Run(d, acts), op, t, mode)
    decreases acts
  {
    if acts != [] {
      DoKeepsNoOverflow(d, acts[0]);
      assert GlobalSync(Do(d, acts[0]));
      AllModesAgreeWithoutOverflow(Do(d, acts[0]), acts[1..], op, t, mode);
    }
  }

  /** Each operation has fewer dirty pairs than the caches hold, before every call. */
  predicate SmallRun(d: Dirty, acts: seq<Action>)
    decreases acts
  {
    acts != [] ==>
      && RollsBackInRange(acts[0]) && (forall op: Op :: |d.vdb.Get(op)| < d.limit)
      && SmallRun(Do(d, acts[0]), acts[1..])
  }

  /** Then no flag ever goes up, so the modes agree: the limit on the number of pairs is all a caller has to watch. */
  lemma {:induction false} SmallRunsAreQuiet(d: Dirty, acts: seq<Action>)
    requires NoOverflow(d) && InRange(d) && SmallRun(d, acts)
    ensures QuietRun(d, acts)
    decreases acts
  {
    if acts != [] {
      assert |d.vdb.Get(Create)| < d.limit && |d.vdb.Get(Update)| < d.limit && |d.vdb.Get(Delete)| < d.limit;
      assert NoFlagUp(Do(d, acts[0]));
      DoKeepsNoOverflow(d, acts[0]);
      SmallRunsAreQuiet(Do(d, acts[0]), acts[1..]);
    }
  }

  lemma ModesAgreeOnSmallRuns(d: Dirty, acts: seq<Action>, op: Op, t: nat, mode: Mode)
    requires NoOverflow(d) && InRange(d) && GlobalSync(d) && SmallRun(d, acts)
    ensures IsDirty(Run(d, acts), op, t, mode) <==> DbDirty(Run(d, acts), op, t, mode)
  {
    SmallRunsAreQuiet(d, acts);
    AllModesAgreeWithoutOverflow(d, acts, op, t, mode);
  }

  /** A VTN clear removes all and only that VTN's pairs; global marks and the other VTNs' answers stay. */
  lemma VtnClearIsExact(d: Dirty, name: string, op: Op, t: nat, other: string)
    requires NoOverflow(d) && InRange(d)
    ensures var e := ClearVtn(d, name);
            && e.g == d.g && e.gdb == d.gdb
            && ((t, other) in e.v.Get(op) <==> (t, other) in d.v.Get(op) && other != name)
            && ((t, other) in e.vdb.Get(op) <==> (t, other) in d.vdb.Get(op) && other != name)
            && (other != name ==> (IsDirty(e, op, t, Vtn(other)) <==> IsDirty(d, op, t, Vtn(other))))
            && (IsDirty(e, op, t, Vtn(name)) <==> t in d.g.Get(op))
  {
    DropInRange(d, name, op);
  }

  // ------------------------------------------------------ failed writes, the cap, the reload

  /** The row that a mark is to leave in the database. */
  predicate HasRow(d: Dirty, t: nat, op: Op, mode: Mode) {
    if mode.Vtn? then (t, mode.name) in d.vdb.Get(op) else t in d.gdb.Get(op)
  }

  /**
   * A mark whose write fails adds no row and is reported, unless the row was there; one that succeeds leaves its row.
   * The same goes for the update row of a creation that has to see to it.
   */
  lemma FailedWriteIsReported(d: Dirty, t: nat, op: Op, mode: Mode, w1: bool, w2: bool)
    requires GlobalSync(d) && d.v.Get(op) <= d.vdb.Get(op) && d.v.Get(Update) <= d.vdb.Get(Update)
    ensures var (e, rc) := Mark(d, t, op, mode, w1, w2);
            && (!(w1 && t < NUM_TABLES) && !HasRow(d, t, op, mode) ==>
                  rc == GeneralError && e.gdb == d.gdb && e.vdb == d.vdb)
            && (rc == Success ==> HasRow(e, t, op, mode))
            && (op == Create && Again(d, t, mode) && !HasRow(d, t, Update, mode) ==>
                  && (!(w2 && t < NUM_TABLES) ==> rc == GeneralError && !HasRow(e, t, Update, mode))
                  && (rc == Success ==> HasRow(e, t, Update, mode)))
            && (w1 && w2 && t < NUM_TABLES ==> rc == Success)
            && (rc == Success || rc == GeneralError)
  {}

  /** A VTN mark raises the flag of its own operation alone, exactly if its pair is new and the cache is full. */
  lemma OverflowIff(d: Dirty, p: Pair, op: Op, w: bool, o: Op)
    ensures MarkPair(d, p, op, w).d.over.Get(o) <==>
            d.over.Get(o) || (o == op && p !in d.v.Get(o) && |d.v.Get(o)| >= d.limit)
  {}

  predicate WithinCap(d: Dirty) { forall op: Op :: |d.v.Get(op)| <= d.limit }

  /** A call that does not reload the caches. */
  predicate NoReload(d: Dirty, a: Action) {
    !a.DoReload? && (a.DoMark? && a.mode.Vtn? ==> Mark(d, a.t, a.op, a.mode, a.w1, a.w2).1 == Success)
  }

  predicate NoReloadRun(d: Dirty, acts: seq<Action>)
    decreases acts
  {
    acts != [] ==> NoReload(d, acts[0]) && NoReloadRun(Do(d, acts[0]), acts[1..])
  }

  lemma MarkPairKeepsCap(d: Dirty, p: Pair, op: Op, w: bool)
    requires WithinCap(d)
    ensures WithinCap(MarkPair(d, p, op, w).d) && MarkPair(d, p, op, w).d.limit == d.limit
  {
    var e := MarkPair(d, p, op, w).d;
    forall o: Op ensures |e.v.Get(o)| <= e.limit { assert |d.v.Get(o)| <= d.limit; }
  }

  lemma DoKeepsCap(d: Dirty, a: Action)
    requires WithinCap(d) && NoReload(d, a)
    ensures WithinCap(Do(d, a)) && Do(d, a).limit == d.limit
  {
    match a
    case DoMark(t, op, mode, w1, w2, _, _) =>
      if mode.Vtn? {
        MarkPairKeepsCap(d, (t, mode.name), op, w1);
        MarkPairKeepsCap(MarkPair(d, (t, mode.name), op, w1).d, (t, mode.name), Update, w2);
      } else {
        assert Do(d, a).v == d.v;
      }
    case DoClearVtn(name) =>
      forall o: Op ensures |Do(d, a).v.Get(o)| <= d.limit {
        assert |d.v.Get(o)| <= d.limit;
        SubsetIsSmaller(Do(d, a).v.Get(o), d.v.Get(o));
      }
    case DoClearAll =>
    case DoClearOne(t, op, w) => assert Do(d, a).v == d.v;
    case DoReload =>
  }

  /** On every run without a reload no VTN cache outgrows its limit. */
  lemma {:induction false} CapOnEveryRun(d: Dirty, acts: seq<Action>)
    requires WithinCap(d) && NoReloadRun(d, acts)
    ensures WithinCap(Run(d, acts)) && Run(d, acts).limit == d.limit
    decreases acts
  {
    if acts != [] {
      DoKeepsCap(d, acts[0]);
      CapOnEveryRun(Do(d, acts[0]), acts[1..]);
    }
  }

  /** A reload makes every lookup in every mode answer like the database; it changes no row and no overflow flag. */
  lemma ReloadAnswersLikeDb(d: Dirty, op: Op, t: nat, mode: Mode)
    ensures IsDirty(Reload(d), op, t, mode) <==> DbDirty(d, op, t, mode)
    ensures Reload(d).gdb == d.gdb && Reload(d).vdb == d.vdb && Reload(d).over == d.over && Reload(d).limit == d.limit
  {}

  // --------------------------------------------- where the code falls short

  /** Global mode never falls back to the database: it misses exactly the tables all of whose pairs overflowed. */
  lemma GlobalModeMissesOverflowedTables(d: Dirty, op: Op, t: nat)
    requires GlobalSync(d) && VtnSync(d)
    ensures (IsDirty(d, op, t, Global) <==> DbDirty(d, op, t, Global)) <==>
            !(t !in d.g.Get(op) && AnyPair(d.vdb.Get(op) - d.v.Get(op), t)
              && forall p :: p in d.vdb.Get(op) && p.0 == t ==> p !in d.v.Get(op))
    ensures !d.over.Get(op) ==> (IsDirty(d, op, t, Global) <==> DbDirty(d, op, t, Global))
  {
    assert d.v.Get(op) <= d.vdb.Get(op);
    if AnyPair(d.vdb.Get(op), t) && !AnyPair(d.v.Get(op), t) {
      var p :| p in d.vdb.Get(op) && p.0 == t;
      assert p in d.vdb.Get(op) - d.v.Get(op) && p.0 == t;
    }
  }

  /** Such a state is reached by two marks. */
  lemma GlobalModeCanMiss()
    ensures exists acts: seq<Action>, t: nat ::
              var d := Run(Fresh(1), acts);
              DbDirty(d, Update, t, Global) && !IsDirty(d, Update, t, Global)
  {
    var a := DoMark(0, Update, Vtn("x"), true, true, NO_TABLES, NO_PAIRS);
    var b := DoMark(1, Update, Vtn("x"), true, true, NO_TABLES, NO_PAIRS);
    var d1 := Do(Fresh(1), a);
    var d2 := Do(d1, b);
    assert d1.v.up == {(0, "x")};
    assert d2.v.up == {(0, "x")} && (1, "x") in d2.vdb.up && (1, "x").0 == 1;
    assert [a, b][1..] == [b];
    assert Run(d1, [b]) == Run(d2, []) == d2;
    assert DbDirty(Run(Fresh(1), [a, b]), Update, 1, Global);
    assert !IsDirty(Run(Fresh(1), [a, b]), Update, 1, Global);
  }

  /**
   * In VTN mode the recreate rule runs only after a newly written create row, and it looks for the
   * delete pair in the cache alone.  Exactly then a create mark leaves a delete-dirty pair update-dirty.
   */
  lemma VtnRecreateMarksUpdateIff(d: Dirty, p: Pair, w1: bool, w2: bool)
    requires VtnSync(d) && InRange(d) && MarkVtn(d, p, Create, w1, w2).1 == Success
    ensures (InVtnDirty(d, Delete, p) ==> InVtnDirty(MarkVtn(d, p, Create, w1, w2).0, Update, p)) <==>
            !(&& p in d.vdb.dl && p !in d.vdb.up
              && (p in d.v.cr || (|d.v.cr| >= d.limit && p in d.vdb.cr) || p !in d.v.dl))
  {
    SyncIffAnswers(d);
    MarkPairKeepsSync(d, p, Create, w1);
    var m := MarkPair(d, p, Create, w1);
    assert d.v.Get(Update) <= d.vdb.Get(Update) && d.v.Get(Delete) <= d.vdb.Get(Delete);
    assert d.v.Get(Create) <= d.vdb.Get(Create);
    SyncIffAnswers(m.d);
    if m.wrote && p in m.d.v.dl && p !in m.d.v.up {
      MarkPairKeepsSync(m.d, p, Update, w2);
      SyncIffAnswers(MarkPair(m.d, p, Update, w2).d);
    }
  }

  /** Create, delete, create again: the pair ends delete-dirty and update-clean. */
  lemma VtnRecreateCanMissUpdate(limit: nat)
    requires limit > 0
    ensures var d1 := Mark(Fresh(limit), 0, Create, Vtn("x"), true, true).0;
            var d2 := Mark(d1, 0, Delete, Vtn("x"), true, true).0;
            var (d3, rc) := Mark(d2, 0, Create, Vtn("x"), true, true);
            rc == Success && IsDirty(d3, Delete, 0, Vtn("x")) && !IsDirty(d3, Update, 0, Vtn("x"))
  {
    var d1 := Mark(Fresh(limit), 0, Create, Vtn("x"), true, true).0;
    assert d1.v.cr == {(0, "x")};
    var d2 := Mark(d1, 0, Delete, Vtn("x"), true, true).0;
    assert d2.v.dl == {(0, "x")} && d2.v.up == {};
  }

  /**
   * A global-mode create mark consults the global delete set alone, although the delete-dirty answer
   * that it follows also counts VTN pairs.  Exactly then a recreated row stays update-clean.
   */
  lemma CrossModeRecreateMarksUpdateIff(d: Dirty, t: nat)
    requires Mark(d, t, Create, Global, true, true).1 == Success
    ensures var d1 := Mark(d, t, Create, Global, true, true).0;
            (IsDirty(d, Delete, t, Global) ==> IsDirty(d1, Update, t, Global)) <==>
            !(AnyPair(d.v.dl, t) && t !in d.g.dl && t !in d.g.up && !AnyPair(d.v.up, t))
  {}
}
