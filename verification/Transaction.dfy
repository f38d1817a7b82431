/**
 * The end of a transaction as the configuration manager drives it on the manager object, in global mode and in VTN
 * mode.  An abort makes one pass over all tables for each operation, a commit writes the reported records to RUNNING
 * table by table; both then clear the flags, CANDIDATE_DEL and the dirty marks in database and cache.
 */
module Transaction {
  import opened Common
  import opened DirtyCache
  import opened ChangeTracking
  import opened OdbcManager
  import opened ConfigStore
  import opened StoreEnd

  ghost function Now(mgr: DalOdbcMgr): Store
    reads mgr
  {
    Store(mgr.tables, mgr.State())
  }

  // -------------------------------------------------------------------- abort

  /** CopyModifiedRecords with working database writes is a copy on the store. */
  method CopyTable(mgr: DalOdbcMgr, t: nat, op: Op, mode: Mode)
    requires t in mgr.tables && t < NUM_TABLES
    modifies mgr
    ensures Now(mgr) == CopyStore(mgr.own, old(Now(mgr)), t, op, mode)
  {
    MarkIsSeen(mgr.State(), t, op, mode, true, true);
    ghost var o := CopyModified(ViewIn(mgr.own, Now(mgr), t, mode), op, Again(mgr.State(), t, mode));
    assert o.marked == None || o.marked == Some(op);
    var rc := mgr.CopyModifiedRecords(t, op, mode, true, true);
  }

  /** The first n steps of a pass over tables for an operation. */
  function Pass(order: seq<nat>, n: nat, op: Op): (steps: seq<(nat, Op)>)
    requires n <= |order|
    ensures |steps| == n && forall i :: 0 <= i < n ==> steps[i] == (order[i], op)
  {
    if n == 0 then [] else Pass(order, n - 1, op) + [(order[n - 1], op)]
  }

  lemma {:induction false} CopyRunKeys(own: Owner, st: Store, steps: seq<(nat, Op)>, mode: Mode)
    ensures CopyRun(own, st, steps, mode).tables.Keys == st.tables.Keys
    decreases steps
  {
    if steps != [] {
      var (t, op) := steps[0];
      CopyRunKeys(own, if t in st.tables then CopyStore(own, st, t, op, mode) else st, steps[1..], mode);
    }
  }

  lemma PassGoesOn(own: Owner, st: Store, order: seq<nat>, n: nat, op: Op, mode: Mode)
    requires n < |order| && order[n] in st.tables
    ensures var st1 := CopyRun(own, st, Pass(order, n, op), mode);
            && order[n] in st1.tables
            && CopyRun(own, st, Pass(order, n + 1, op), mode) == CopyStore(own, st1, order[n], op, mode)
  {
    var t, steps := order[n], Pass(order, n, op);
    CopyRunKeys(own, st, steps, mode);
    var st1 := CopyRun(own, st, steps, mode);
    CopyRunJoins(own, st, steps, [(t, op)], mode);
    assert [(t, op)][1..] == [];
    assert CopyRun(own, CopyStore(own, st1, t, op, mode), [], mode) == CopyStore(own, st1, t, op, mode);
  }

  /** One turn of the loop below; st is the store at its start. */
  method CopyNext(mgr: DalOdbcMgr, ghost st: Store, order: seq<nat>, n: nat, op: Op, mode: Mode)
    requires n < |order| && order[n] in st.tables && order[n] < NUM_TABLES
    requires Now(mgr) == CopyRun(mgr.own, st, Pass(order, n, op), mode)
    modifies mgr
    ensures Now(mgr) == CopyRun(mgr.own, st, Pass(order, n + 1, op), mode)
  {
    PassGoesOn(mgr.own, st, order, n, op, mode);
    CopyTable(mgr, order[n], op, mode);
  }

  /** The loop over the tables for one operation, in the given order. */
  method CopyPass(mgr: DalOdbcMgr, order: seq<nat>, op: Op, mode: Mode)
    requires forall i :: 0 <= i < |order| ==> order[i] in mgr.tables && order[i] < NUM_TABLES
    modifies mgr
    ensures Now(mgr) == CopyRun(mgr.own, old(Now(mgr)), Pass(order, |order|, op), mode)
  {
    ghost var st := Now(mgr);
    for n := 0 to |order|
      invariant Now(mgr) == CopyRun(mgr.own, st, Pass(order, n, op), mode)
    {
      CopyNext(mgr, st, order, n, op, mode);
    }
  }

  /** The steps of an abort: one pass for deletions in reverse order, then creations and updates in preorder. */
  function AbortSteps(preorder: seq<nat>, reverse: seq<nat>): seq<(nat, Op)> {
    Pass(reverse, |reverse|, Delete) + (Pass(preorder, |preorder|, Create) + Pass(preorder, |preorder|, Update))
  }

  lemma StepsCoverAll(st: Store, preorder: seq<nat>, reverse: seq<nat>)
    requires forall t :: t in st.tables ==> t in preorder && t in reverse
    ensures CoversAll(st, AbortSteps(preorder, reverse))
  {
    forall t: nat, op: Op | t in st.tables ensures (t, op) in AbortSteps(preorder, reverse) {
      var order := if op == Delete then reverse else preorder;
      var i :| 0 <= i < |order| && order[i] == t;
      assert Pass(order, |order|, op)[i] == (t, op);
    }
  }

  lemma StepsJoin(own: Owner, st: Store, preorder: seq<nat>, reverse: seq<nat>, mode: Mode)
    ensures var st1 := CopyRun(own, st, Pass(reverse, |reverse|, Delete), mode);
            var st2 := CopyRun(own, st1, Pass(preorder, |preorder|, Create), mode);
            && st1.tables.Keys == st2.tables.Keys == st.tables.Keys
            && CopyRun(own, st2, Pass(preorder, |preorder|, Update), mode) ==
               CopyRun(own, st, AbortSteps(preorder, reverse), mode)
  {
    var x, m := Pass(reverse, |reverse|, Delete), |preorder|;
    var y, z := Pass(preorder, m, Create), Pass(preorder, m, Update);
    var st1 := CopyRun(own, st, x, mode);
    CopyRunJoins(own, st, x, y + z, mode);
    CopyRunJoins(own, st1, y, z, mode);
    CopyRunKeys(own, st, x, mode);
    CopyRunKeys(own, st1, y, mode);
  }

  /** The three passes, in the order of the source. */
  method CopyRunningToCandidate(mgr: DalOdbcMgr, preorder: seq<nat>, reverse: seq<nat>, mode: Mode)
    requires forall i :: 0 <= i < |preorder| ==> preorder[i] in mgr.tables && preorder[i] < NUM_TABLES
    requires forall i :: 0 <= i < |reverse| ==> reverse[i] in mgr.tables && reverse[i] < NUM_TABLES
    modifies mgr
    ensures Now(mgr) == CopyRun(mgr.own, old(Now(mgr)), AbortSteps(preorder, reverse), mode)
  {
    ghost var keys := mgr.tables.Keys;
    assert forall i :: 0 <= i < |preorder| ==> preorder[i] in keys;
    StepsJoin(mgr.own, Now(mgr), preorder, reverse, mode);
    CopyPass(mgr, reverse, Delete, mode);
    assert mgr.tables.Keys == keys;
    CopyPass(mgr, preorder, Create, mode);
    assert mgr.tables.Keys == keys;
    CopyPass(mgr, preorder, Update, mode);
  }

  // ------------------------------------------------------------------ the clears

  lemma MergeMapTwice<V>(own: Owner, m: map<Pk, V>, a: map<Pk, V>, b: map<Pk, V>, mode: Mode)
    ensures MergeMap(own, MergeMap(own, m, a, mode), b, mode) == MergeMap(own, m, b, mode)
  {}

  lemma MergeTwice(own: Owner, r: Rows, a: Rows, b: Rows, mode: Mode)
    ensures Merge(own, Merge(own, r, a, mode), b, mode) == Merge(own, r, b, mode)
  {
    MergeMapTwice(own, r.run, a.run, b.run, mode);
    MergeMapTwice(own, r.cand, a.cand, b.cand, mode);
    MergeMapTwice(own, r.del, a.del, b.del, mode);
  }

  /** Flags and CANDIDATE_DEL of one table. */
  method ClearTable(mgr: DalOdbcMgr, t: nat, mode: Mode)
    requires t in mgr.tables
    modifies mgr`tables
    ensures mgr.tables == old(mgr.tables)[t := FinishTable(mgr.own, old(Now(mgr)), t, mode)]
  {
    ghost var r, s := mgr.tables[t], ViewIn(mgr.own, Now(mgr), t, mode);
    ghost var a := RowsOf(ClearFlags(s));
    var rc := mgr.ClearCreateUpdateFlags(t, mode);
    MergeOnly(mgr.own, r, mode);
    FlagsStayIn(mgr.own, s, mode);
    OnlyMerge(mgr.own, r, a, mode);
    rc := mgr.TruncateCandidateDel(t, mode);
    MergeTwice(mgr.own, r, a, RowsOf(Finish(s)), mode);
  }

  lemma FlagsStayIn(own: Owner, s: TS, mode: Mode)
    requires StaysIn(own, RowsOf(s), mode)
    ensures StaysIn(own, RowsOf(ClearFlags(s)), mode)
  {
    assert ClearFlags(s).cand.Keys == s.cand.Keys && ClearFlags(s).run == s.run && ClearFlags(s).del == s.del;
  }

  lemma TableIsLocal(own: Owner, st: Store, tables: map<nat, Rows>, t: nat, mode: Mode)
    requires t in st.tables && t in tables && tables[t] == st.tables[t]
    ensures FinishTable(own, Store(tables, st.d), t, mode) == FinishTable(own, st, t, mode)
    ensures ViewIn(own, Store(tables, st.d), t, mode) == ViewIn(own, st, t, mode)
    ensures WriteTable(own, Store(tables, st.d), t, mode) == WriteTable(own, st, t, mode)
  {}

  /** An order that names every table once. */
  ghost predicate NamesOnce(order: seq<nat>, keys: set<nat>) {
    && (forall t :: t in order <==> t in keys)
    && forall i, j :: 0 <= i < j < |order| ==> order[i] != order[j]
  }

  /** The tables of a, of which the first n in the order are already those of b. */
  ghost function Replaced(a: map<nat, Rows>, b: map<nat, Rows>, order: seq<nat>, n: nat): (m: map<nat, Rows>)
    requires n <= |order| && a.Keys == b.Keys
    ensures m.Keys == a.Keys
  {
    if n == 0 then a
    else
      var m, t := Replaced(a, b, order, n - 1), order[n - 1];
      if t in b then m[t := b[t]] else m
  }

  lemma {:induction false} ReplacedLater(a: map<nat, Rows>, b: map<nat, Rows>, order: seq<nat>, n: nat, i: nat)
    requires n <= i < |order| && a.Keys == b.Keys && NamesOnce(order, a.Keys) && order[i] in a
    ensures Replaced(a, b, order, n)[order[i]] == a[order[i]]
  {
    if n > 0 {
      ReplacedLater(a, b, order, n - 1, i);
      assert order[n - 1] != order[i];
    }
  }

  lemma {:induction false} ReplacedBefore(a: map<nat, Rows>, b: map<nat, Rows>, order: seq<nat>, n: nat, i: nat)
    requires i < n <= |order| && a.Keys == b.Keys && order[i] in a
    ensures Replaced(a, b, order, n)[order[i]] == b[order[i]]
  {
    if i < n - 1 { ReplacedBefore(a, b, order, n - 1, i); }
  }

  lemma ReplacedAll(a: map<nat, Rows>, b: map<nat, Rows>, order: seq<nat>)
    requires a.Keys == b.Keys && NamesOnce(order, a.Keys)
    ensures Replaced(a, b, order, |order|) == b
  {
    forall t | t in a ensures Replaced(a, b, order, |order|)[t] == b[t] {
      var i :| 0 <= i < |order| && order[i] == t;
      ReplacedBefore(a, b, order, |order|, i);
    }
  }

  /** One turn of the loop below. */
  method ClearNext(mgr: DalOdbcMgr, ghost st: Store, order: seq<nat>, n: nat, mode: Mode)
    requires NamesOnce(order, st.tables.Keys) && n < |order| && mgr.State() == st.d
    requires mgr.tables == Replaced(st.tables, FinishStore(mgr.own, st, mode).tables, order, n)
    modifies mgr`tables
    ensures mgr.tables == Replaced(st.tables, FinishStore(mgr.own, st, mode).tables, order, n + 1)
  {
    assert order[n] in order;
    ReplacedLater(st.tables, FinishStore(mgr.own, st, mode).tables, order, n, n);
    TableIsLocal(mgr.own, st, mgr.tables, order[n], mode);
    ClearTable(mgr, order[n], mode);
  }

  /** The loop over all tables. */
  method ClearPass(mgr: DalOdbcMgr, ghost st: Store, order: seq<nat>, mode: Mode)
    requires NamesOnce(order, st.tables.Keys) && st == Now(mgr)
    modifies mgr`tables
    ensures mgr.tables == Replaced(st.tables, FinishStore(mgr.own, st, mode).tables, order, |order|)
  {
    for n := 0 to |order|
      invariant mgr.tables == Replaced(st.tables, FinishStore(mgr.own, st, mode).tables, order, n)
    {
      ClearNext(mgr, st, order, n, mode);
    }
  }

  /** TxClearCreateUpdateFlag and ClearConfiguration of CANDIDATE_DEL over all tables, each skipped when clean. */
  method ClearTables(mgr: DalOdbcMgr, order: seq<nat>, mode: Mode)
    requires NamesOnce(order, mgr.tables.Keys)
    modifies mgr`tables
    ensures mgr.tables == FinishStore(mgr.own, old(Now(mgr)), mode).tables
  {
    ReplacedAll(mgr.tables, FinishStore(mgr.own, Now(mgr), mode).tables, order);
    ClearPass(mgr, Now(mgr), order, mode);
  }

  /** The flags, CANDIDATE_DEL and then the dirty marks. */
  method ClearAllTables(mgr: DalOdbcMgr, order: seq<nat>, mode: Mode)
    requires NamesOnce(order, mgr.tables.Keys)
    modifies mgr
    ensures Now(mgr) == FinishStore(mgr.own, old(Now(mgr)), mode)
  {
    ClearTables(mgr, order, mode);
    mgr.ClearDirty(mode);
  }

  /** Every state: the copies in the order of the source, then the clears. */
  method AbortTables(mgr: DalOdbcMgr, preorder: seq<nat>, reverse: seq<nat>, mode: Mode)
    requires forall i :: 0 <= i < |preorder| ==> preorder[i] in mgr.tables && preorder[i] < NUM_TABLES
    requires forall i :: 0 <= i < |reverse| ==> reverse[i] in mgr.tables && reverse[i] < NUM_TABLES
    requires NamesOnce(preorder, mgr.tables.Keys)
    modifies mgr
    ensures Now(mgr) == Apply(mgr.own, old(Now(mgr)), AbortAll(AbortSteps(preorder, reverse)), mode)
  {
    CopyRunKeys(mgr.own, Now(mgr), AbortSteps(preorder, reverse), mode);
    CopyRunningToCandidate(mgr, preorder, reverse, mode);
    ClearAllTables(mgr, preorder, mode);
  }

  /** The mode's rows of every table at rest with RUNNING untouched, its marks gone, the other VTNs as they were. */
  ghost predicate Aborted(own: Owner, st: Store, st1: Store, mode: Mode) {
    && EndedIn(own, st, st1, mode)
    && forall t :: t in st.tables ==> Only(own, st1.tables[t], mode).run == Only(own, st.tables[t], mode).run
  }

  lemma AbortInOrderIsExact(own: Owner, st: Store, preorder: seq<nat>, reverse: seq<nat>, mode: Mode)
    requires Ready(own, st, mode) && (mode.Vtn? ==> ClearSafe(st.d, mode.name))
    requires forall t :: t in st.tables ==> t in preorder && t in reverse
    ensures Aborted(own, st, Apply(own, st, AbortAll(AbortSteps(preorder, reverse)), mode), mode)
  {
    StepsCoverAll(st, preorder, reverse);
    AbortAllIsExact(own, st, AbortSteps(preorder, reverse), mode);
  }

  /** A whole abort on the manager object, right wherever all changes are recorded. */
  method Abort(mgr: DalOdbcMgr, preorder: seq<nat>, reverse: seq<nat>, mode: Mode)
    requires forall t :: t in mgr.tables ==> t < NUM_TABLES
    requires NamesOnce(preorder, mgr.tables.Keys) && forall t :: t in reverse <==> t in mgr.tables
    modifies mgr
    ensures Now(mgr) == Apply(mgr.own, old(Now(mgr)), AbortAll(AbortSteps(preorder, reverse)), mode)
    ensures old(Ready(mgr.own, Now(mgr), mode) && (mode.Vtn? ==> ClearSafe(mgr.State(), mode.name))) ==>
              Aborted(mgr.own, old(Now(mgr)), Now(mgr), mode)
  {
    if Ready(mgr.own, Now(mgr), mode) && (mode.Vtn? ==> ClearSafe(mgr.State(), mode.name)) {
      AbortInOrderIsExact(mgr.own, Now(mgr), preorder, reverse, mode);
    }
    assert forall i :: 0 <= i < |preorder| ==> preorder[i] in preorder;
    assert forall i :: 0 <= i < |reverse| ==> reverse[i] in reverse;
    AbortTables(mgr, preorder, reverse, mode);
  }

  // ------------------------------------------------------------------- commit

  /** RUNNING after the records of one operation have been written to it. */
  function Written(run: map<Pk, Data>, op: Op, records: map<Pk, Data>): map<Pk, Data> {
    if op == Delete then run - records.Keys else run + records
  }

  /** The records fit: a creation finds no record, an update or deletion finds one. */
  predicate Fits(run: map<Pk, Data>, op: Op, records: map<Pk, Data>) {
    if op == Create then records.Keys !! run.Keys else records.Keys <= run.Keys
  }

  /** Writing one more record, and when it fails. */
  lemma WrittenStep(run: map<Pk, Data>, op: Op, done: map<Pk, Data>, k: Pk, d: Data)
    requires k !in done && Fits(run, op, done)
    ensures var w := Written(run, op, done);
            && Written(run, op, done[k := d]) == (if op == Delete then w - {k} else w[k := d])
            && (Fits(run, op, done[k := d]) <==> (op == Create <==> k !in w))
            && (k in w <==> k in run)
  {
    var w := Written(run, op, done);
    assert k in w <==> k in run;
    if op == Delete { assert Written(run, op, done[k := d]) == w - {k}; }
  }

  /** The loop over the reported records of one operation; it stops at the first error. */
  method WriteAll(mgr: DalOdbcMgr, t: nat, op: Op, records: map<Pk, Data>) returns (ok: bool)
    requires t in mgr.tables
    modifies mgr`tables
    ensures ok <==> Fits(old(mgr.tables[t].run), op, records)
    ensures ok ==> mgr.tables ==
                   old(mgr.tables)[t := old(mgr.tables[t]).(run := Written(old(mgr.tables[t].run), op, records))]
  {
    ghost var tables0, rows0 := mgr.tables, mgr.tables[t];
    var rest := records.Keys;
    ghost var done: map<Pk, Data> := map[];
    assert rows0.(run := Written(rows0.run, op, done)) == rows0;
    while rest != {}
      invariant rest <= records.Keys && done.Keys == records.Keys - rest
      invariant forall k :: k in done ==> done[k] == records[k]
      invariant Fits(rows0.run, op, done)
      invariant mgr.tables == tables0[t := rows0.(run := Written(rows0.run, op, done))]
      decreases rest
    {
      var k :| k in rest;
      WrittenStep(rows0.run, op, done, k, records[k]);
      var rc := mgr.WriteRunning(t, op, k, records[k]);
      if rc != Success { return false; }
      done := done[k := records[k]];
      rest := rest - {k};
    }
    assert done == records;
    ok := true;
  }

  /** Records of a mode fit the whole of RUNNING as they fit the mode's part, and change that part alone. */
  lemma WrittenInMode(own: Owner, run: map<Pk, Data>, op: Op, records: map<Pk, Data>, mode: Mode)
    requires forall k :: k in records ==> In(own, k, mode)
    ensures Fits(run, op, records) <==> Fits(OnlyMap(own, run, mode), op, records)
    ensures OnlyMap(own, Written(run, op, records), mode) == Written(OnlyMap(own, run, mode), op, records)
  {
    assert records.Keys <= run.Keys <==> records.Keys <= OnlyMap(own, run, mode).Keys;
    assert records.Keys !! run.Keys <==> records.Keys !! OnlyMap(own, run, mode).Keys;
  }

  lemma ReportedIn(own: Owner, s: TS, op: Op, mode: Mode)
    requires StaysIn(own, RowsOf(s), mode)
    ensures forall k :: k in Reported(s, op) ==> In(own, k, mode)
  {}

  /** The parts of RUNNING that are not the mode's. */
  ghost predicate RestSame(own: Owner, a: map<Pk, Data>, b: map<Pk, Data>, mode: Mode) {
    forall k :: !In(own, k, mode) ==> (k in a <==> k in b) && (k in a ==> a[k] == b[k])
  }

  /** RUNNING of the mode after deletions and creations, and whether all of a commit's records fit. */
  function WrittenTwice(s: TS): map<Pk, Data> {
    Written(Written(s.run, Delete, Reported(s, Delete)), Create, Reported(s, Create))
  }

  predicate AllFit(s: TS) {
    && Fits(s.run, Delete, Reported(s, Delete))
    && Fits(Written(s.run, Delete, Reported(s, Delete)), Create, Reported(s, Create))
    && Fits(WrittenTwice(s), Update, Reported(s, Update))
  }

  /** The reported records give RUNNING as the commit leaves it, and where all is accounted for they fit. */
  lemma CommitInThreeSteps(s: TS)
    ensures Written(WrittenTwice(s), Update, Reported(s, Update)) == CommitRunning(s)
    ensures Accounted(s) ==> AllFit(s)
  {
    if Accounted(s) { CommitMeetsNoConflict(s); }
  }

  /** With every change recorded, a commit is right exactly if its records fit and make RUNNING what CANDIDATE is. */
  lemma WorksIff(s: TS)
    requires Accounted(Lit(s))
    ensures CommitWorks(s) <==> AllFit(s) && CommitRunning(s) == Contents(s.cand)
  {
    forall k | k in GetUpdated(s) ensures k !in GetCreated(s) { assert AccountedAt(Lit(s), k); }
  }

  /**
   * One operation of TxCopyCandidateToRunning; s: the mode's view at the beginning, run: what the mode's part of
   * RUNNING holds by now.
   */
  method CopyOperation(mgr: DalOdbcMgr, t: nat, op: Op, mode: Mode, ghost s: TS, ghost run: map<Pk, Data>)
    returns (ok: bool)
    requires t in mgr.tables && ViewIn(mgr.own, Now(mgr), t, mode) == s.(run := run)
    requires StaysIn(mgr.own, RowsOf(s), mode)
    modifies mgr`tables
    ensures ok <==> Fits(run, op, Reported(s, op))
    ensures ok ==> t in mgr.tables && mgr.tables == old(mgr.tables)[t := old(mgr.tables[t]).(run := mgr.tables[t].run)]
    ensures ok ==> ViewIn(mgr.own, Now(mgr), t, mode) == s.(run := Written(run, op, Reported(s, op)))
    ensures ok ==> RestSame(mgr.own, old(mgr.tables[t].run), mgr.tables[t].run, mode)
  {
    var records := mgr.GetModifiedRecords(t, op, mode);
    assert records == Reported(s, op);
    ReportedIn(mgr.own, s, op, mode);
    WrittenInMode(mgr.own, mgr.tables[t].run, op, records, mode);
    ok := WriteAll(mgr, t, op, records);
  }

  /** TxCopyCandidateToRunning for one table: deletions, creations, updates, until one of them fails. */
  method CopyOperations(mgr: DalOdbcMgr, t: nat, mode: Mode, ghost s: TS) returns (ok: bool)
    requires t in mgr.tables && ViewIn(mgr.own, Now(mgr), t, mode) == s && StaysIn(mgr.own, RowsOf(s), mode)
    modifies mgr`tables
    ensures ok <==> AllFit(s)
    ensures ok ==> t in mgr.tables && mgr.tables == old(mgr.tables)[t := old(mgr.tables[t]).(run := mgr.tables[t].run)]
    ensures ok ==> OnlyMap(mgr.own, mgr.tables[t].run, mode) == Written(WrittenTwice(s), Update, Reported(s, Update))
    ensures ok ==> RestSame(mgr.own, old(mgr.tables[t].run), mgr.tables[t].run, mode)
  {
    ok := CopyOperation(mgr, t, Delete, mode, s, s.run);
    if !ok { return; }
    ok := CopyOperation(mgr, t, Create, mode, s, Written(s.run, Delete, Reported(s, Delete)));
    if !ok { return; }
    ok := CopyOperation(mgr, t, Update, mode, s, WrittenTwice(s));
  }

  lemma MergeIs(own: Owner, r: Rows, run: map<Pk, Data>, mode: Mode)
    requires RestSame(own, r.run, run, mode)
    ensures Merge(own, r, Only(own, r, mode).(run := OnlyMap(own, run, mode)), mode) == r.(run := run)
  {
    MergeOnly(own, r, mode);
    assert MergeMap(own, r.run, OnlyMap(own, run, mode), mode) == run;
  }

  /** The mode's reported records of one table go to RUNNING; it fails exactly if one of them does not fit. */
  method CopyCandidateToRunning(mgr: DalOdbcMgr, t: nat, mode: Mode) returns (ok: bool)
    requires t in mgr.tables
    modifies mgr`tables
    ensures ok <==> AllFit(ViewIn(mgr.own, old(Now(mgr)), t, mode))
    ensures ok ==> mgr.tables == old(mgr.tables)[t := WriteTable(mgr.own, old(Now(mgr)), t, mode)]
  {
    ghost var r, s := mgr.tables[t], ViewIn(mgr.own, Now(mgr), t, mode);
    MergeOnly(mgr.own, r, mode);
    CommitInThreeSteps(s);
    ok := CopyOperations(mgr, t, mode, s);
    if ok { MergeIs(mgr.own, r, mgr.tables[t].run, mode); }
  }

  /** All records of the mode fit, in every table. */
  ghost predicate EveryTableFits(own: Owner, st: Store, mode: Mode) {
    forall t :: t in st.tables ==> AllFit(ViewIn(own, st, t, mode))
  }

  /** So they do in the first n tables of the order. */
  ghost predicate FirstFit(own: Owner, st: Store, order: seq<nat>, n: nat, mode: Mode)
    requires n <= |order|
  {
    n == 0 || (&& FirstFit(own, st, order, n - 1, mode)
               && (order[n - 1] in st.tables ==> AllFit(ViewIn(own, st, order[n - 1], mode))))
  }

  lemma {:induction false} FirstFitIff(own: Owner, st: Store, order: seq<nat>, n: nat, mode: Mode)
    requires n <= |order|
    ensures FirstFit(own, st, order, n, mode) <==>
            forall j :: 0 <= j < n && order[j] in st.tables ==> AllFit(ViewIn(own, st, order[j], mode))
  {
    if n > 0 { FirstFitIff(own, st, order, n - 1, mode); }
  }

  lemma FirstFitAll(own: Owner, st: Store, order: seq<nat>, mode: Mode)
    requires NamesOnce(order, st.tables.Keys)
    ensures FirstFit(own, st, order, |order|, mode) <==> EveryTableFits(own, st, mode)
  {
    FirstFitIff(own, st, order, |order|, mode);
    if FirstFit(own, st, order, |order|, mode) {
      forall t | t in st.tables ensures AllFit(ViewIn(own, st, t, mode)) {
        var j :| 0 <= j < |order| && order[j] == t;
      }
    }
  }

  lemma FirstFitLess(own: Owner, st: Store, order: seq<nat>, n: nat, mode: Mode)
    requires n <= |order| && FirstFit(own, st, order, |order|, mode)
    ensures FirstFit(own, st, order, n, mode)
  {
    FirstFitIff(own, st, order, n, mode);
    FirstFitIff(own, st, order, |order|, mode);
  }

  /** One turn of the loop below. */
  method WriteNext(mgr: DalOdbcMgr, ghost st: Store, order: seq<nat>, n: nat, mode: Mode) returns (ok: bool)
    requires NamesOnce(order, st.tables.Keys) && n < |order| && mgr.State() == st.d
    requires mgr.tables == Replaced(st.tables, WriteStore(mgr.own, st, mode).tables, order, n)
    requires FirstFit(mgr.own, st, order, n, mode)
    modifies mgr`tables
    ensures ok <==> FirstFit(mgr.own, st, order, n + 1, mode)
    ensures ok ==> mgr.tables == Replaced(st.tables, WriteStore(mgr.own, st, mode).tables, order, n + 1)
  {
    assert order[n] in order;
    ReplacedLater(st.tables, WriteStore(mgr.own, st, mode).tables, order, n, n);
    TableIsLocal(mgr.own, st, mgr.tables, order[n], mode);
    ok := CopyCandidateToRunning(mgr, order[n], mode);
  }

  /** The loop over all tables, until one of them fails. */
  method WritePass(mgr: DalOdbcMgr, ghost st: Store, order: seq<nat>, mode: Mode) returns (ok: bool)
    requires NamesOnce(order, st.tables.Keys) && st == Now(mgr)
    modifies mgr`tables
    ensures ok <==> FirstFit(mgr.own, st, order, |order|, mode)
    ensures ok ==> mgr.tables == Replaced(st.tables, WriteStore(mgr.own, st, mode).tables, order, |order|)
  {
    ok := true;
    for n := 0 to |order|
      invariant mgr.tables == Replaced(st.tables, WriteStore(mgr.own, st, mode).tables, order, n)
      invariant ok && FirstFit(mgr.own, st, order, n, mode)
    {
      ok := WriteNext(mgr, st, order, n, mode);
      if !ok {
        if FirstFit(mgr.own, st, order, |order|, mode) { FirstFitLess(mgr.own, st, order, n + 1, mode); }
        return;
      }
    }
  }

  /** The pass that writes RUNNING: it succeeds exactly if the records of every table fit. */
  method CopyAllToRunning(mgr: DalOdbcMgr, order: seq<nat>, mode: Mode) returns (ok: bool)
    requires NamesOnce(order, mgr.tables.Keys)
    modifies mgr`tables
    ensures ok <==> EveryTableFits(mgr.own, old(Now(mgr)), mode)
    ensures ok ==> Now(mgr) == WriteStore(mgr.own, old(Now(mgr)), mode)
  {
    FirstFitAll(mgr.own, Now(mgr), order, mode);
    ReplacedAll(mgr.tables, WriteStore(mgr.own, Now(mgr), mode).tables, order);
    ok := WritePass(mgr, Now(mgr), order, mode);
  }

  /** RUNNING of the mode is everywhere what CANDIDATE was, the rows at rest, the marks gone, other VTNs as before. */
  ghost predicate Committed(own: Owner, st: Store, st1: Store, mode: Mode) {
    && EndedIn(own, st, st1, mode)
    && forall t :: t in st.tables ==>
         var r := Only(own, st.tables[t], mode); Only(own, st1.tables[t], mode).run == Contents(r.cand)
  }

  /**
   * A whole commit on the manager object.  In every state it fails exactly if a record does not fit, and otherwise
   * writes what is reported and clears; it succeeds and is right wherever all changes are accounted for.
   */
  method Commit(mgr: DalOdbcMgr, order: seq<nat>, mode: Mode) returns (ok: bool)
    requires NamesOnce(order, mgr.tables.Keys)
    modifies mgr
    ensures ok <==> EveryTableFits(mgr.own, old(Now(mgr)), mode)
    ensures ok ==> Now(mgr) == Apply(mgr.own, old(Now(mgr)), CommitAll, mode)
    ensures old(CommitReady(mgr.own, Now(mgr), mode)) ==> ok && Committed(mgr.own, old(Now(mgr)), Now(mgr), mode)
  {
    if CommitReady(mgr.own, Now(mgr), mode) { ReadyCommits(mgr.own, Now(mgr), mode); }
    ok := CopyAllToRunning(mgr, order, mode);
    if ok { ClearAllTables(mgr, order, mode); }
  }

  ghost predicate CommitReady(own: Owner, st: Store, mode: Mode) {
    && SoundIn(st.d, mode) && (mode.Vtn? ==> ClearSafe(st.d, mode.name))
    && forall t :: t in st.tables ==> Accounted(ViewIn(own, st, t, mode))
  }

  lemma ReadyCommits(own: Owner, st: Store, mode: Mode)
    requires CommitReady(own, st, mode)
    ensures EveryTableFits(own, st, mode)
    ensures Committed(own, st, Apply(own, st, CommitAll, mode), mode)
  {
    forall t | t in st.tables ensures AllFit(ViewIn(own, st, t, mode)) { CommitInThreeSteps(ViewIn(own, st, t, mode)); }
    CommitAllIsExact(own, st, mode);
  }
}
