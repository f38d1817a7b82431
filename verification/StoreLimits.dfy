/**
 * Runs from a clean store in which the marks fall short, and exactly what commit and abort make of them.
 */
module StoreLimits {
  import opened Common
  import opened DirtyCache
  import opened ChangeTracking
  import opened OdbcManager
  import opened ConfigStore
  import opened StoreEnd
  import opened StoreRuns

  // ------------------------------------------------------- from a clean store

  ghost predicate CleanStore(st: Store, limit: nat) {
    st.d == Fresh(limit) && forall t :: t in st.tables ==> t < NUM_TABLES && AtRest(st.tables[t])
  }

  lemma CleanStoreIsKept(exact: bool, own: Owner, st: Store, limit: nat)
    requires CleanStore(st, limit)
    ensures AllKept(exact, own, st)
  {
    forall t: nat, name: string | t in st.tables ensures Kept(exact, ViewIn(own, st, t, Vtn(name))) {
      RestIsKept(exact, own, st.tables[t], st.d, t, name);
    }
  }

  function OnKey(k: Pk): Pred { (j, _) => j == k }

  lemma FirstVtnMark(limit: nat, p: Pair, op: Op)
    requires limit > 0 && p.0 < NUM_TABLES
    ensures var e := Mark(Fresh(limit), p.0, op, Vtn(p.1), true, true).0;
            && e.g == NO_TABLES && e.v == NO_PAIRS.Put(op, {p}) && NoOverflow(e)
  {
    assert {} + {p} == {p};
  }

  lemma RunTwo(own: Owner, st: Store, a: (Mode, StoreCall), b: (Mode, StoreCall))
    ensures RunStore(own, st, [a, b]) == Apply(own, Apply(own, st, a.1, a.0), b.1, b.0)
  {
    assert [a, b][1..] == [b] && [b][1..] == [];
    var st1 := Apply(own, st, a.1, a.0);
    assert RunStore(own, st1, [b]) == RunStore(own, Apply(own, st1, b.1, b.0), []);
  }

  /** RUNNING after a commit, whether the commit was right or not. */
  lemma CommitRunIs(own: Owner, st: Store, mode: Mode, t: nat)
    requires t in st.tables
    ensures var st1 := Apply(own, st, CommitAll, mode);
            t in st1.tables && Only(own, st1.tables[t], mode).run == CommitRunning(ViewIn(own, st, t, mode))
  {
    WriteShows(own, st, mode, t);
    FinishShows(own, WriteStore(own, st, mode), mode, t);
  }

  /** On every state that the runs reach: exactly when a global commit of a table is right. */
  lemma GlobalCommitWorksIff(own: Owner, st: Store, t: nat)
    requires AllKept(false, own, st) && t in st.tables
    ensures CommitWorks(ViewIn(own, st, t, Global)) <==> CommitSees(ViewIn(own, st, t, Global))
  {
    VtnsMakeLit(false, own, st, t, Global);
    KeptMeans(Lit(ViewIn(own, st, t, Global)));
    CommitWorksIff(ViewIn(own, st, t, Global));
  }

  // ------------------------------------------- exactly when a global abort is right

  ghost predicate TablesOk(st: Store) { forall t :: t in st.tables ==> t < NUM_TABLES }

  /** What global mode has of a table, and whether its delete mark is a global one. */
  ghost predicate SameFor(own: Owner, st: Store, st1: Store, t: nat)
    requires t in st.tables
  {
    && TablesOk(st1) && t in st1.tables && ViewIn(own, st1, t, Global) == ViewIn(own, st, t, Global)
    && (t in st1.d.g.dl <==> t in st.d.g.dl)
  }

  lemma OtherCopyLeaves(own: Owner, st: Store, x: nat, op: Op, t: nat)
    requires TablesOk(st) && t in st.tables && x in st.tables && x != t
    ensures SameFor(own, st, CopyStore(own, st, x, op, Global), t)
  {
    PutBackOtherTable(own, st, x, CopyModified(ViewIn(own, st, x, Global), op, Again(st.d, x, Global)), Global, t);
  }

  lemma {:induction false} OtherCopiesLeave(own: Owner, st: Store, steps: seq<(nat, Op)>, t: nat)
    requires TablesOk(st) && t in st.tables && forall x :: x in steps ==> x.0 != t
    ensures SameFor(own, st, CopyRun(own, st, steps, Global), t)
    decreases steps
  {
    if steps != [] {
      var (x, op) := steps[0];
      assert steps[0] in steps;
      if x in st.tables { OtherCopyLeaves(own, st, x, op, t); }
      OtherCopiesLeave(own, if x in st.tables then CopyStore(own, st, x, op, Global) else st, steps[1..], t);
    }
  }

  /** One copy of the table itself; the first one may add the delete mark that the second reads. */
  lemma OwnCopyIs(own: Owner, st: Store, t: nat, op: Op)
    requires TablesOk(st) && t in st.tables
    ensures var st1 := CopyRun(own, st, [(t, op)], Global);
            var s := ViewIn(own, st, t, Global);
            && TablesOk(st1) && t in st1.tables
            && ViewIn(own, st1, t, Global) == CopyModified(s, op, Again(st.d, t, Global)).s
            && (op == Delete ==> (t in st1.d.g.dl <==> t in st.d.g.dl || (s.cr && HasExtra(s))))
  {
    assert [(t, op)][1..] == [];
    assert CopyRun(own, CopyStore(own, st, t, op, Global), [], Global) == CopyStore(own, st, t, op, Global);
    CopyShows(own, st, t, op, Global);
    if op == Delete {
      var s := ViewIn(own, st, t, Global);
      var extra := set k | k in s.cand && k !in s.run;
      if k :| k in s.cand && k !in s.run { assert k in extra; }
      if extra != {} { assert HasExtra(s) by { var k :| k in extra; } }
    }
  }

  /** A copy of the table amid copies of others. */
  lemma CopyAmidOthers(own: Owner, st: Store, a: seq<(nat, Op)>, t: nat, op: Op)
    requires TablesOk(st) && t in st.tables && forall x :: x in a ==> x.0 != t
    ensures var st1 := CopyRun(own, st, a + [(t, op)], Global);
            var s := ViewIn(own, st, t, Global);
            && TablesOk(st1) && t in st1.tables
            && ViewIn(own, st1, t, Global) == CopyModified(s, op, t in st.d.g.dl).s
            && (op == Delete ==> (t in st1.d.g.dl <==> t in st.d.g.dl || (s.cr && HasExtra(s))))
  {
    CopyRunJoins(own, st, a, [(t, op)], Global);
    OtherCopiesLeave(own, st, a, t);
    OwnCopyIs(own, CopyRun(own, st, a, Global), t, op);
  }

  /** The order of the transaction manager for one table, amid the copies of the others. */
  function InOrder(t: nat, a: seq<(nat, Op)>, b: seq<(nat, Op)>, c: seq<(nat, Op)>, e: seq<(nat, Op)>): seq<(nat, Op)> {
    (a + [(t, Delete)]) + ((b + [(t, Create)]) + ((c + [(t, Update)]) + e))
  }

  lemma CreateAndUpdateInOrder(
      own: Owner, st: Store, t: nat, b: seq<(nat, Op)>, c: seq<(nat, Op)>, e: seq<(nat, Op)>)
    requires TablesOk(st) && t in st.tables && forall x :: x in b + c + e ==> x.0 != t
    ensures var st1 := CopyRun(own, st, (b + [(t, Create)]) + ((c + [(t, Update)]) + e), Global);
            var s, again := ViewIn(own, st, t, Global), t in st.d.g.dl;
            && t in st1.tables
            && ViewIn(own, st1, t, Global) == CopyModified(CopyModified(s, Create, again).s, Update, again).s
  {
    var y, z := b + [(t, Create)], c + [(t, Update)];
    CopyRunJoins(own, st, y, z + e, Global);
    CopyAmidOthers(own, st, b, t, Create);
    var st1 := CopyRun(own, st, y, Global);
    CopyRunJoins(own, st1, z, e, Global);
    CopyAmidOthers(own, st1, c, t, Update);
    OtherCopiesLeave(own, CopyRun(own, st1, z, Global), e, t);
  }

  lemma CopiesInOrder(own: Owner, st: Store, t: nat,
                      a: seq<(nat, Op)>, b: seq<(nat, Op)>, c: seq<(nat, Op)>, e: seq<(nat, Op)>)
    requires TablesOk(st) && t in st.tables && forall x :: x in a + b + c + e ==> x.0 != t
    ensures var st1 := CopyRun(own, st, InOrder(t, a, b, c, e), Global);
            var s := ViewIn(own, st, t, Global);
            && t in st1.tables
            && ViewIn(own, st1, t, Global) == ThreeCopies(s, t in st.d.g.dl || (s.cr && HasExtra(s)))
  {
    CopyRunJoins(own, st, a + [(t, Delete)], (b + [(t, Create)]) + ((c + [(t, Update)]) + e), Global);
    CopyAmidOthers(own, st, a, t, Delete);
    CreateAndUpdateInOrder(own, CopyRun(own, st, a + [(t, Delete)], Global), t, b, c, e);
  }

  /** On every state that the runs reach: exactly when a global abort of a table is right. */
  lemma GlobalAbortWorksIff(own: Owner, st: Store, t: nat,
                            a: seq<(nat, Op)>, b: seq<(nat, Op)>, c: seq<(nat, Op)>, e: seq<(nat, Op)>)
    requires AllKept(false, own, st) && t in st.tables && forall x :: x in a + b + c + e ==> x.0 != t
    ensures var st1 := Apply(own, st, AbortAll(InOrder(t, a, b, c, e)), Global);
            var s := ViewIn(own, st, t, Global);
            && t in st1.tables && st1.tables[t].run == st.tables[t].run
            && (Contents(st1.tables[t].cand) == st1.tables[t].run <==> AbortSees(s, t in st.d.g.dl || HasExtra(s)))
  {
    CopiesInOrder(own, st, t, a, b, c, e);
    var st2 := CopyRun(own, st, InOrder(t, a, b, c, e), Global);
    var s := ViewIn(own, st, t, Global);
    VtnsMakeLit(false, own, st, t, Global);
    KeptMeans(Lit(s));
    AbortWorksIff(s, t in st.d.g.dl || (s.cr && HasExtra(s)));
    FinishShows(own, st2, Global, t);
    MergeOnly(own, FinishStore(own, st2, Global).tables[t], Global);
    MergeOnly(own, st.tables[t], Global);
  }

  // ------------------------------------- deleted in VTN mode, created in global mode

  function CrossCalls(own: Owner, t: nat, k: Pk, d: Data): seq<(Mode, StoreCall)> {
    [(Vtn(own(k)), EditTable(t, DoDelete(OnKey(k)))), (Global, EditTable(t, DoCreate(k, d)))]
  }

  /** The table after the two calls, as global mode sees it. */
  function CrossView(run: map<Pk, Data>, k: Pk, d: Data): TS
    requires k in run
  {
    var back := run[k].ext == d.ext;
    TS(run, Mirror(run)[k := CandRow(d, !back, back)], if back then map[] else map[k := run[k]], true, false, true)
  }

  lemma DeleteOfOneIs(run: map<Pk, Data>, k: Pk, b: TS)
    requires k in run && b.run == run && b.cand == Mirror(run) && b.del == map[]
    ensures DeleteRecords(b, OnKey(k)) ==
            Out(b.(cand := Mirror(run) - {k}, del := map[k := run[k]], dl := true), Success, Some(Delete))
  {
    assert Hits(b.cand, OnKey(k)) == {k} by { assert k in Hits(b.cand, OnKey(k)); }
    DeleteDoes(b, OnKey(k));
    assert Without(b.del, OnKey(k)) == map[];
    assert Matching(b.run, OnKey(k)) == map[k := run[k]];
  }

  lemma AfterVtnDelete(own: Owner, st: Store, limit: nat, t: nat, k: Pk)
    requires CleanStore(st, limit) && limit > 0 && t in st.tables && k in st.tables[t].run
    ensures var st1 := EditStore(st, t, DoDelete(OnKey(k)), Vtn(own(k)));
            var run := st.tables[t].run;
            && st1.tables == st.tables[t := Rows(run, Mirror(run) - {k}, map[k := run[k]])]
            && st1.d == Mark(Fresh(limit), t, Delete, Vtn(own(k)), true, true).0
  {
    DeleteOfOneIs(st.tables[t].run, k, View(st.tables[t], st.d, t, Vtn(own(k))));
  }

  /** The marks after the two calls: a VTN's delete pair and a global create mark. */
  lemma CrossMarks(limit: nat, p: Pair)
    requires limit > 0 && p.0 < NUM_TABLES
    ensures var d1 := Mark(Fresh(limit), p.0, Delete, Vtn(p.1), true, true).0;
            var d2 := Mark(d1, p.0, Create, Global, true, true).0;
            && d1.g == NO_TABLES && d1.v == NO_PAIRS.Put(Delete, {p})
            && d2.g == NO_TABLES.Put(Create, {p.0}) && d2.v == d1.v
  {
    FirstVtnMark(limit, p, Delete);
    assert {} + {p.0} == {p.0};
  }

  /** What global mode answers from them. */
  lemma CrossAnswers(d: Dirty, p: Pair, g: set<nat>, x: nat, o: Op)
    requires d.v == NO_PAIRS.Put(Delete, {p}) && d.g == NO_TABLES.Put(Create, g) && g <= {p.0}
    ensures IsDirty(d, o, x, Global) <==> (x == p.0 && o == Delete) || (x in g && o == Create)
  {
    assert p in d.v.Get(Delete) && p.0 == p.0;
  }

  lemma CrossCreateIs(run: map<Pk, Data>, k: Pk, d: Data)
    requires k in run
    ensures CreateRecord(TS(run, Mirror(run) - {k}, map[k := run[k]], false, false, true), k, d, false) ==
            Out(CrossView(run, k, d), Success, Some(Create))
  {
    CreateDoes(TS(run, Mirror(run) - {k}, map[k := run[k]], false, false, true), k, d, false);
    assert (Mirror(run) - {k})[k := CrossView(run, k, d).cand[k]] == CrossView(run, k, d).cand;
    assert map[k := run[k]] - {k} == map[];
  }

  lemma CrossCreate(st1: Store, t: nat, run: map<Pk, Data>, k: Pk, d: Data)
    requires t in st1.tables && k in run && t !in st1.d.g.dl
    requires View(st1.tables[t], st1.d, t, Global) ==
             TS(run, Mirror(run) - {k}, map[k := run[k]], false, false, true)
    ensures EditStore(st1, t, DoCreate(k, d), Global) ==
            Store(st1.tables[t := RowsOf(CrossView(run, k, d))], Mark(st1.d, t, Create, Global, true, true).0)
  {
    CrossCreateIs(run, k, d);
  }

  /** The store between the two calls. */
  lemma BetweenCrossCalls(own: Owner, st: Store, limit: nat, t: nat, k: Pk)
    requires CleanStore(st, limit) && limit > 0 && t in st.tables && k in st.tables[t].run
    ensures var st1 := EditStore(st, t, DoDelete(OnKey(k)), Vtn(own(k)));
            var run := st.tables[t].run;
            && t in st1.tables && t !in st1.d.g.dl
            && View(st1.tables[t], st1.d, t, Global) ==
               TS(run, Mirror(run) - {k}, map[k := run[k]], false, false, true)
  {
    AfterVtnDelete(own, st, limit, t, k);
    CrossMarks(limit, (t, own(k)));
    var st1 := EditStore(st, t, DoDelete(OnKey(k)), Vtn(own(k)));
    CrossAnswers(st1.d, (t, own(k)), {}, t, Create);
    CrossAnswers(st1.d, (t, own(k)), {}, t, Update);
    CrossAnswers(st1.d, (t, own(k)), {}, t, Delete);
  }

  /** The dirty state after the two calls. */
  function CrossDirty(limit: nat, p: Pair): Dirty
    requires limit > 0
  {
    Mark(Mark(Fresh(limit), p.0, Delete, Vtn(p.1), true, true).0, p.0, Create, Global, true, true).0
  }

  lemma CrossStoreIs(own: Owner, st: Store, limit: nat, t: nat, k: Pk, d: Data)
    requires CleanStore(st, limit) && limit > 0 && t in st.tables && k in st.tables[t].run
    ensures RunStore(own, st, CrossCalls(own, t, k, d)) ==
            Store(st.tables[t := RowsOf(CrossView(st.tables[t].run, k, d))], CrossDirty(limit, (t, own(k))))
  {
    RunTwo(own, st, (Vtn(own(k)), EditTable(t, DoDelete(OnKey(k)))), (Global, EditTable(t, DoCreate(k, d))));
    BetweenCrossCalls(own, st, limit, t, k);
    AfterVtnDelete(own, st, limit, t, k);
    CrossCreate(EditStore(st, t, DoDelete(OnKey(k)), Vtn(own(k))), t, st.tables[t].run, k, d);
  }

  lemma CrossDirtyAnswers(limit: nat, p: Pair, x: nat, o: Op)
    requires limit > 0 && p.0 < NUM_TABLES
    ensures IsDirty(CrossDirty(limit, p), o, x, Global) <==> x == p.0 && (o == Delete || o == Create)
  {
    CrossMarks(limit, p);
    CrossAnswers(CrossDirty(limit, p), p, {p.0}, x, o);
  }

  /** The whole store after the two calls: one table as described, the others as they were. */
  lemma AfterCrossCalls(own: Owner, st: Store, limit: nat, t: nat, k: Pk, d: Data)
    requires CleanStore(st, limit) && limit > 0 && t in st.tables && k in st.tables[t].run
    ensures var st2 := RunStore(own, st, CrossCalls(own, t, k, d));
            && st2.tables == st.tables[t := RowsOf(CrossView(st.tables[t].run, k, d))]
            && ViewIn(own, st2, t, Global) == CrossView(st.tables[t].run, k, d)
            && forall x: nat, o: Op :: x != t ==> !IsDirty(st2.d, o, x, Global)
  {
    CrossStoreIs(own, st, limit, t, k, d);
    var st2 := RunStore(own, st, CrossCalls(own, t, k, d));
    forall x: nat, o: Op ensures IsDirty(st2.d, o, x, Global) <==> x == t && (o == Delete || o == Create) {
      CrossDirtyAnswers(limit, (t, own(k)), x, o);
    }
    MergeOnly(own, st2.tables[t], Global);
  }

  lemma CrossViewIsRecorded(run: map<Pk, Data>, k: Pk, d: Data)
    requires k in run
    ensures Accounted(Lit(CrossView(run, k, d)))
    ensures CommitSees(CrossView(run, k, d)) <==> d.ext != run[k].ext || d == run[k]
  {
    var s := CrossView(run, k, d);
    forall j ensures AccountedAt(Lit(s), j) {}
    forall j | j != k ensures CommitSeesAt(s, j) {}
    assert CommitSeesAt(s, k) <==> d.ext != run[k].ext || d == run[k];
  }

  /**
   * In every clean store, a record deleted in VTN mode and created again in global mode: the next global commit is
   * right if and only if the record comes back unchanged or with another controller or domain.
   */
  lemma CrossModeCommitIff(own: Owner, st: Store, limit: nat, t: nat, k: Pk, d: Data)
    requires CleanStore(st, limit) && limit > 0 && t in st.tables && k in st.tables[t].run
    ensures var st2 := RunStore(own, st, CrossCalls(own, t, k, d));
            && t in st2.tables
            && (CommitWorks(ViewIn(own, st2, t, Global)) <==>
                  d.ext != st.tables[t].run[k].ext || d == st.tables[t].run[k])
  {
    AfterCrossCalls(own, st, limit, t, k, d);
    CrossViewIsRecorded(st.tables[t].run, k, d);
    CommitWorksIff(CrossView(st.tables[t].run, k, d));
  }

  lemma NothingToCopy(own: Owner, st: Store, x: nat, op: Op)
    requires x in st.tables
    requires CopyModified(ViewIn(own, st, x, Global), op, Again(st.d, x, Global)) ==
             Out(ViewIn(own, st, x, Global), RecordNotFound, None)
    ensures CopyStore(own, st, x, op, Global) == st
  {
    MergeOnly(own, st.tables[x], Global);
  }

  lemma {:induction false} NothingIsCopied(own: Owner, st: Store, steps: seq<(nat, Op)>)
    requires forall x: nat, op: Op :: x in st.tables ==> CopyStore(own, st, x, op, Global) == st
    ensures CopyRun(own, st, steps, Global) == st
    decreases steps
  {
    if steps != [] { NothingIsCopied(own, st, steps[1..]); }
  }

  lemma CrossViewIsNotCopied(run: map<Pk, Data>, k: Pk, d: Data, op: Op, again: bool)
    requires k in run
    ensures CopyModified(CrossView(run, k, d), op, again) == Out(CrossView(run, k, d), RecordNotFound, None)
  {
    var s := CrossView(run, k, d);
    assert s.cand.Keys == run.Keys;
    match op
    case Delete => assert (set j | j in s.cand && j !in s.run) == {};
    case Create => assert forall j :: j in s.del ==> j in s.cand;
    case Update =>
  }

  lemma CleanIsNotCopied(s: TS, op: Op, again: bool)
    requires !s.cr && !s.up && !s.dl
    ensures CopyModified(s, op, again) == Out(s, RecordNotFound, None)
  {}

  lemma CrossStoreIsNotCopied(own: Owner, st: Store, limit: nat, t: nat, k: Pk, d: Data, steps: seq<(nat, Op)>)
    requires CleanStore(st, limit) && limit > 0 && t in st.tables && k in st.tables[t].run
    ensures var st2 := RunStore(own, st, CrossCalls(own, t, k, d));
            CopyRun(own, st2, steps, Global) == st2
  {
    AfterCrossCalls(own, st, limit, t, k, d);
    var st2 := RunStore(own, st, CrossCalls(own, t, k, d));
    forall x: nat, op: Op | x in st2.tables ensures CopyStore(own, st2, x, op, Global) == st2 {
      if x == t {
        CrossViewIsNotCopied(st.tables[t].run, k, d, op, Again(st2.d, t, Global));
      } else {
        CleanIsNotCopied(ViewIn(own, st2, x, Global), op, Again(st2.d, x, Global));
      }
      NothingToCopy(own, st2, x, op);
    }
    NothingIsCopied(own, st2, steps);
  }

  lemma CrossViewFinishes(run: map<Pk, Data>, k: Pk, d: Data)
    requires k in run
    ensures var s := Finish(CrossView(run, k, d));
            s.run == run && (Contents(s.cand) == run <==> d == run[k])
  {
    assert Contents(Finish(CrossView(run, k, d)).cand) == run[k := d];
    assert run[k := d][k] == d;
  }

  /** And the next global abort, in whatever order it copies, is right exactly if the record comes back unchanged. */
  lemma CrossModeAbortIff(own: Owner, st: Store, limit: nat, t: nat, k: Pk, d: Data, steps: seq<(nat, Op)>)
    requires CleanStore(st, limit) && limit > 0 && t in st.tables && k in st.tables[t].run
    ensures var st3 := Apply(own, RunStore(own, st, CrossCalls(own, t, k, d)), AbortAll(steps), Global);
            && t in st3.tables && st3.tables[t].run == st.tables[t].run
            && (Contents(st3.tables[t].cand) == st3.tables[t].run <==> d == st.tables[t].run[k])
  {
    AfterCrossCalls(own, st, limit, t, k, d);
    CrossStoreIsNotCopied(own, st, limit, t, k, d, steps);
    var st2 := RunStore(own, st, CrossCalls(own, t, k, d));
    FinishShows(own, st2, Global, t);
    MergeOnly(own, FinishStore(own, st2, Global).tables[t], Global);
    CrossViewFinishes(st.tables[t].run, k, d);
  }

  // ------------------------------------- a pair hidden from global mode

  lemma UpdateOfOneIs(b: TS, k: Pk, f: Setter)
    requires k in b.cand
    ensures UpdateRecords(b, OnKey(k), f) ==
            Out(b.(cand := Updated(b.cand, OnKey(k), f), up := true), Success, Some(Update))
  {
    assert k in Hits(b.cand, OnKey(k));
    UpdateDoes(b, OnKey(k), f);
  }

  /** The dirty state after VTN-mode update marks of two tables, with room for one pair. */
  lemma SecondMarkOverflows(p: Pair, q: Pair)
    requires p.0 != q.0 && p.0 < NUM_TABLES && q.0 < NUM_TABLES
    ensures var d1 := Mark(Fresh(1), p.0, Update, Vtn(p.1), true, true).0;
            var d2 := Mark(d1, q.0, Update, Vtn(q.1), true, true).0;
            && d2.v == NO_PAIRS.Put(Update, {p}) && d2.g == NO_TABLES && q in d2.vdb.up
  {
    FirstVtnMark(1, p, Update);
    assert |{p}| == 1;
  }

  /**
   * With room for one pair: an update in one table takes it, an update of the second table by any VTN is then hidden
   * from global mode, and the next global commit leaves it out.
   */
  lemma HiddenPairSkipsCommit(own: Owner, st: Store, t: nat, k: Pk, u: nat, j: Pk, f: Setter)
    requires CleanStore(st, 1) && t in st.tables && u in st.tables && t != u
    requires k in st.tables[t].run && j in st.tables[u].run && f(j, st.tables[u].run[j]) != st.tables[u].run[j]
    ensures var st2 := RunStore(own, st, [(Vtn(own(k)), EditTable(t, DoUpdate(OnKey(k), f))),
                                          (Vtn(own(j)), EditTable(u, DoUpdate(OnKey(j), f)))]);
            && u in st2.tables && !CommitWorks(ViewIn(own, st2, u, Global))
            && DbDirty(st2.d, Update, u, Global) && !IsDirty(st2.d, Update, u, Global)
  {
    var e1, e2 := DoUpdate(OnKey(k), f), DoUpdate(OnKey(j), f);
    UpdateOfOneIs(View(st.tables[t], st.d, t, Vtn(own(k))), k, f);
    var st1 := EditStore(st, t, e1, Vtn(own(k)));
    UpdateOfOneIs(View(st1.tables[u], st1.d, u, Vtn(own(j))), j, f);
    var st2 := EditStore(st1, u, e2, Vtn(own(j)));
    RunTwo(own, st, (Vtn(own(k)), EditTable(t, e1)), (Vtn(own(j)), EditTable(u, e2)));
    SecondMarkOverflows((t, own(k)), (u, own(j)));
    MergeOnly(own, st2.tables[u], Global);
    var s := ViewIn(own, st2, u, Global);
    var run := st.tables[u].run;
    assert s.run == run && s.cand == Updated(Mirror(run), OnKey(j), f) && !s.up;
    HiddenUpdateIsLost(s, run, j, f);
    assert (u, own(j)) in st2.d.vdb.up && (u, own(j)).0 == u;
  }

  lemma HiddenUpdateIsLost(s: TS, run: map<Pk, Data>, j: Pk, f: Setter)
    requires s.run == run && s.cand == Updated(Mirror(run), OnKey(j), f) && s.del == map[] && !s.up
    requires j in run && f(j, run[j]) != run[j]
    ensures !CommitWorks(s)
  {
    assert s.cand[j] == CandRow(f(j, run[j]), false, true);
    forall i ensures AccountedAt(Lit(s), i) {}
    CommitWorksIff(s);
    assert !CommitSeesAt(s, j);
  }
}
