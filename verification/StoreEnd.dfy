/**
 * The end of a transaction over all tables, in global mode and in VTN mode: the copies of an abort with every mark that
 * they make themselves, the writes of a commit, and the clears that follow both.
 */
module StoreEnd {
  import opened DirtyCache
  import opened ChangeTracking
  import opened OdbcManager
  import opened ConfigStore

  // ------------------------------------------------------- the copies of an abort

  lemma CopyStaysIn(own: Owner, s: TS, op: Op, again: bool, mode: Mode)
    requires StaysIn(own, RowsOf(s), mode)
    ensures StaysIn(own, RowsOf(CopyModified(s, op, again).s), mode)
  {
    assert CopyModified(s, op, again).s.cand.Keys <= s.cand.Keys + s.del.Keys;
  }

  lemma CopyShows(own: Owner, st: Store, t: nat, op: Op, mode: Mode)
    requires t in st.tables && t < NUM_TABLES && SoundIn(st.d, mode)
    ensures var st1 := CopyStore(own, st, t, op, mode);
            && SoundIn(st1.d, mode) && st1.tables.Keys == st.tables.Keys
            && ViewIn(own, st1, t, mode) == CopyModified(ViewIn(own, st, t, mode), op, Again(st.d, t, mode)).s
  {
    var s := ViewIn(own, st, t, mode);
    MergeOnly(own, st.tables[t], mode);
    CopyStaysIn(own, s, op, Again(st.d, t, mode), mode);
    CopyIsWellMarked(s, op, Again(st.d, t, mode));
    PutBackShows(own, st, t, CopyModified(s, op, Again(st.d, t, mode)), mode);
  }

  lemma GlobalMarkElsewhere(d: Dirty, t: nat, op: Op, mode: Mode, x: nat, o: Op)
    requires !mode.Vtn? && x != t
    ensures IsDirty(Mark(d, t, op, mode, true, true).0, o, x, mode) <==> IsDirty(d, o, x, mode)
  {
    assert Mark(d, t, op, mode, true, true).0.v == d.v;
  }

  /** Another table in the same mode sees nothing of a call. */
  lemma PutBackOtherTable(own: Owner, st: Store, t: nat, o: Out, mode: Mode, x: nat)
    requires t in st.tables && x in st.tables && x != t && t < NUM_TABLES && SoundIn(st.d, mode)
    ensures var st1 := PutBack(own, st, t, o, mode);
            x in st1.tables && ViewIn(own, st1, x, mode) == ViewIn(own, st, x, mode)
  {
    if mode.Vtn? {
      PutBackElsewhere(own, st, t, o, mode, (x, mode.name));
    } else if o.marked.Some? {
      GlobalMarkElsewhere(st.d, t, o.marked.value, mode, x, Create);
      GlobalMarkElsewhere(st.d, t, o.marked.value, mode, x, Update);
      GlobalMarkElsewhere(st.d, t, o.marked.value, mode, x, Delete);
    }
  }

  /** Everything can still be undone from what is recorded. */
  ghost predicate Ready(own: Owner, st: Store, mode: Mode) {
    SoundIn(st.d, mode) && forall t :: t in st.tables ==> t < NUM_TABLES && Recoverable(ViewIn(own, st, t, mode))
  }

  /** What any part of an abort keeps in a table: RUNNING and what has been undone. */
  ghost predicate ProgressIn(own: Owner, st: Store, st1: Store, t: nat, mode: Mode)
    requires t in st.tables && t in st1.tables
  {
    && ViewIn(own, st1, t, mode).run == ViewIn(own, st, t, mode).run
    && forall o: Op :: Undone(ViewIn(own, st, t, mode), o) ==> Undone(ViewIn(own, st1, t, mode), o)
  }

  /** The views of all other VTNs. */
  ghost predicate OthersSame(own: Owner, st: Store, st1: Store, mode: Mode) {
    mode.Vtn? ==> forall t: nat, name: string :: t in st.tables && name != mode.name ==>
      t in st1.tables && ViewIn(own, st1, t, Vtn(name)) == ViewIn(own, st, t, Vtn(name))
  }

  ghost predicate Progress(own: Owner, st: Store, st1: Store, mode: Mode) {
    && Ready(own, st1, mode) && st1.tables.Keys == st.tables.Keys && st1.d.limit == st.d.limit
    && (forall t :: t in st.tables ==> ProgressIn(own, st, st1, t, mode))
    && OthersSame(own, st, st1, mode)
    && (mode.Vtn? && ClearSafe(st.d, mode.name) ==> ClearSafe(st1.d, mode.name))
  }

  lemma ProgressJoins(own: Owner, a: Store, b: Store, c: Store, mode: Mode)
    requires Progress(own, a, b, mode) && Progress(own, b, c, mode)
    ensures Progress(own, a, c, mode)
  {
    forall t | t in a.tables ensures ProgressIn(own, a, c, t, mode) {
      assert ProgressIn(own, a, b, t, mode) && ProgressIn(own, b, c, t, mode);
    }
  }

  lemma PutBackKeepsOthers(own: Owner, st: Store, t: nat, o: Out, mode: Mode)
    requires t in st.tables && t < NUM_TABLES && SoundIn(st.d, mode)
    ensures OthersSame(own, st, PutBack(own, st, t, o, mode), mode)
  {
    var st1 := PutBack(own, st, t, o, mode);
    if mode.Vtn? {
      forall x: nat, name: string | x in st.tables && name != mode.name
        ensures x in st1.tables && ViewIn(own, st1, x, Vtn(name)) == ViewIn(own, st, x, Vtn(name))
      { PutBackElsewhere(own, st, t, o, mode, (x, name)); }
    }
  }

  lemma PutBackKeepsClearSafe(own: Owner, st: Store, t: nat, o: Out, mode: Mode)
    requires t in st.tables && t < NUM_TABLES && SoundIn(st.d, mode)
    ensures PutBack(own, st, t, o, mode).d.limit == st.d.limit
    ensures mode.Vtn? && ClearSafe(st.d, mode.name) ==> ClearSafe(PutBack(own, st, t, o, mode).d, mode.name)
  {
    if mode.Vtn? && o.marked.Some? && ClearSafe(st.d, mode.name) {
      MarkKeepsClearSafe(st.d, (t, mode.name), o.marked.value);
    }
  }

  /** One copy does its part in its own table and undoes nothing anywhere. */
  lemma CopyMakesProgress(own: Owner, st: Store, t: nat, op: Op, mode: Mode)
    requires Ready(own, st, mode) && t in st.tables
    ensures var st1 := CopyStore(own, st, t, op, mode);
            Progress(own, st, st1, mode) && Undone(ViewIn(own, st1, t, mode), op)
  {
    var o := CopyModified(ViewIn(own, st, t, mode), op, Again(st.d, t, mode));
    var st1 := CopyStore(own, st, t, op, mode);
    CopyShows(own, st, t, op, mode);
    CopyStepWorks(ViewIn(own, st, t, mode), op, Again(st.d, t, mode));
    forall x | x in st.tables ensures Recoverable(ViewIn(own, st1, x, mode)) && ProgressIn(own, st, st1, x, mode) {
      if x != t { PutBackOtherTable(own, st, t, o, mode, x); }
    }
    PutBackKeepsOthers(own, st, t, o, mode);
    PutBackKeepsClearSafe(own, st, t, o, mode);
  }

  lemma NoProgressYet(own: Owner, st: Store, mode: Mode)
    requires Ready(own, st, mode)
    ensures Progress(own, st, st, mode)
  {
    forall t | t in st.tables ensures ProgressIn(own, st, st, t, mode) {}
  }

  /** Any sequence of copies achieves what each of its steps is for. */
  lemma {:induction false} CopyRunWorks(own: Owner, st: Store, steps: seq<(nat, Op)>, mode: Mode)
    requires Ready(own, st, mode)
    ensures var st1 := CopyRun(own, st, steps, mode);
            && Progress(own, st, st1, mode)
            && forall x :: x in steps && x.0 in st.tables ==> Undone(ViewIn(own, st1, x.0, mode), x.1)
    decreases steps
  {
    if steps == [] {
      NoProgressYet(own, st, mode);
    } else {
      var (t, op) := steps[0];
      var next := if t in st.tables then CopyStore(own, st, t, op, mode) else st;
      if t in st.tables { CopyMakesProgress(own, st, t, op, mode); } else { NoProgressYet(own, st, mode); }
      CopyRunWorks(own, next, steps[1..], mode);
      var st1 := CopyRun(own, st, steps, mode);
      ProgressJoins(own, st, next, st1, mode);
      assert t in st.tables ==> ProgressIn(own, next, st1, t, mode);
      forall x | x in steps && x.0 in st.tables ensures Undone(ViewIn(own, st1, x.0, mode), x.1) {
        assert x == steps[0] || x in steps[1..];
      }
    }
  }

  lemma {:induction false} CopyRunJoins(own: Owner, st: Store, a: seq<(nat, Op)>, b: seq<(nat, Op)>, mode: Mode)
    ensures CopyRun(own, st, a + b, mode) == CopyRun(own, CopyRun(own, st, a, mode), b, mode)
    decreases a
  {
    if a == [] {
      assert a + b == b;
    } else {
      assert (a + b)[1..] == a[1..] + b && (a + b)[0] == a[0];
      CopyRunJoins(own, if a[0].0 in st.tables then CopyStore(own, st, a[0].0, a[0].1, mode) else st, a[1..], b, mode);
    }
  }

  // ------------------------------------------------------- the end of a transaction

  /** Nothing is in progress: CANDIDATE mirrors RUNNING and nothing is saved. */
  predicate AtRest(r: Rows) {
    r.cand == Mirror(r.run) && r.del == map[]
  }

  lemma FinishStaysIn(own: Owner, s: TS, mode: Mode)
    requires StaysIn(own, RowsOf(s), mode)
    ensures StaysIn(own, RowsOf(Finish(s)), mode)
  {
    assert Finish(s).cand.Keys == s.cand.Keys && Finish(s).run == s.run;
  }

  /** Finishing leaves the mode's rows finished and every other VTN's view as it was. */
  lemma FinishShows(own: Owner, st: Store, mode: Mode, t: nat)
    requires t in st.tables
    ensures Only(own, FinishStore(own, st, mode).tables[t], mode) == RowsOf(Finish(ViewIn(own, st, t, mode)))
  {
    MergeOnly(own, st.tables[t], mode);
    FinishStaysIn(own, ViewIn(own, st, t, mode), mode);
    OnlyMerge(own, st.tables[t], RowsOf(Finish(ViewIn(own, st, t, mode))), mode);
  }

  lemma FinishKeepsOthers(own: Owner, st: Store, mode: Mode)
    requires mode.Vtn? && Sound(st.d) && ClearSafe(st.d, mode.name)
    ensures Sound(FinishStore(own, st, mode).d) && OthersSame(own, st, FinishStore(own, st, mode), mode)
  {
    var st1 := FinishStore(own, st, mode);
    ClearIsLocal(st.d, mode.name, (0, ""), Create);
    forall t: nat, name: string | t in st.tables && name != mode.name
      ensures t in st1.tables && ViewIn(own, st1, t, Vtn(name)) == ViewIn(own, st, t, Vtn(name))
    {
      OnlyOtherMerge(own, st.tables[t], RowsOf(Finish(ViewIn(own, st, t, mode))), mode.name, name);
      forall o: Op ensures IsDirty(st1.d, o, t, Vtn(name)) <==> IsDirty(st.d, o, t, Vtn(name)) {
        ClearIsLocal(st.d, mode.name, (t, name), o);
        AnswersOf(st.d, (t, name), o);
        AnswersOf(st1.d, (t, name), o);
      }
    }
  }

  /** What the end of a transaction leaves: rows at rest, the mode's marks gone, everything else untouched. */
  ghost predicate EndedIn(own: Owner, st: Store, st1: Store, mode: Mode) {
    && st1.tables.Keys == st.tables.Keys
    && (forall t :: t in st1.tables ==> AtRest(Only(own, st1.tables[t], mode)))
    && OthersSame(own, st, st1, mode)
    && match mode
       case Vtn(name) => Sound(st1.d) && forall o: Op, t: nat :: (t, name) !in st1.d.vdb.Get(o)
       case Global => st1.d == Fresh(st.d.limit)
       case Virtual => true
  }

  lemma FinishEnds(own: Owner, st0: Store, st: Store, mode: Mode)
    requires SoundIn(st.d, mode) && st.tables.Keys == st0.tables.Keys && OthersSame(own, st0, st, mode)
    requires st.d.limit == st0.d.limit && (mode.Vtn? ==> ClearSafe(st.d, mode.name))
    requires forall t :: t in st.tables ==> Clean(Finish(ViewIn(own, st, t, mode)))
    ensures EndedIn(own, st0, FinishStore(own, st, mode), mode)
  {
    var st1 := FinishStore(own, st, mode);
    forall t | t in st1.tables ensures AtRest(Only(own, st1.tables[t], mode)) { FinishShows(own, st, mode, t); }
    if mode.Vtn? {
      FinishKeepsOthers(own, st, mode);
      forall o: Op, t: nat ensures (t, mode.name) !in st1.d.vdb.Get(o) {
        ClearIsLocal(st.d, mode.name, (t, mode.name), o);
      }
    }
  }

  /** Every table of the store is copied for every operation. */
  ghost predicate CoversAll(st: Store, steps: seq<(nat, Op)>) {
    forall t: nat, op: Op :: t in st.tables ==> (t, op) in steps
  }

  /** The mode's rows of every table hold RUNNING with clean flags. */
  ghost predicate AllMirrored(own: Owner, st: Store, mode: Mode) {
    forall t :: t in st.tables ==> ViewIn(own, st, t, mode).cand == Mirror(ViewIn(own, st, t, mode).run)
  }

  /** Once the copies have done their part, the clears end the transaction. */
  lemma MirroredEnds(own: Owner, st: Store, st2: Store, mode: Mode)
    requires Progress(own, st, st2, mode) && AllMirrored(own, st2, mode)
    requires mode.Vtn? ==> ClearSafe(st.d, mode.name)
    ensures var st1 := FinishStore(own, st2, mode);
            && EndedIn(own, st, st1, mode)
            && forall t :: t in st.tables ==> Only(own, st1.tables[t], mode).run == Only(own, st.tables[t], mode).run
  {
    forall t | t in st.tables
      ensures Clean(Finish(ViewIn(own, st2, t, mode)))
      ensures Only(own, FinishStore(own, st2, mode).tables[t], mode).run == Only(own, st.tables[t], mode).run
    {
      FinishCleans(ViewIn(own, st2, t, mode));
      assert ProgressIn(own, st, st2, t, mode);
      FinishShows(own, st2, mode, t);
    }
    FinishEnds(own, st, st2, mode);
  }

  /** An abort restores the rows of its mode from RUNNING in every table, whatever order its copies are made in. */
  lemma AbortAllIsExact(own: Owner, st: Store, steps: seq<(nat, Op)>, mode: Mode)
    requires Ready(own, st, mode) && CoversAll(st, steps) && (mode.Vtn? ==> ClearSafe(st.d, mode.name))
    ensures var st1 := Apply(own, st, AbortAll(steps), mode);
            && EndedIn(own, st, st1, mode)
            && forall t :: t in st.tables ==> Only(own, st1.tables[t], mode).run == Only(own, st.tables[t], mode).run
  {
    CopyRunWorks(own, st, steps, mode);
    var st2 := CopyRun(own, st, steps, mode);
    forall t | t in st2.tables ensures ViewIn(own, st2, t, mode).cand == Mirror(ViewIn(own, st2, t, mode).run) {
      assert (t, Create) in steps && (t, Update) in steps && (t, Delete) in steps;
      UndoneIsMirrored(ViewIn(own, st2, t, mode));
    }
    MirroredEnds(own, st, st2, mode);
  }

  lemma CommitStaysIn(own: Owner, s: TS, mode: Mode)
    requires StaysIn(own, RowsOf(s), mode)
    ensures StaysIn(own, RowsOf(s.(run := CommitRunning(s))), mode)
  {
    assert CommitRunning(s).Keys <= s.run.Keys + s.cand.Keys;
  }

  lemma WriteShows(own: Owner, st: Store, mode: Mode, t: nat)
    requires t in st.tables
    ensures var s := ViewIn(own, st, t, mode);
            ViewIn(own, WriteStore(own, st, mode), t, mode) == s.(run := CommitRunning(s))
  {
    var s := ViewIn(own, st, t, mode);
    MergeOnly(own, st.tables[t], mode);
    CommitStaysIn(own, s, mode);
    OnlyMerge(own, st.tables[t], RowsOf(s.(run := CommitRunning(s))), mode);
  }

  lemma WriteKeepsOthers(own: Owner, st: Store, mode: Mode)
    ensures OthersSame(own, st, WriteStore(own, st, mode), mode)
  {
    if mode.Vtn? {
      forall t: nat, name: string | t in st.tables && name != mode.name
        ensures ViewIn(own, WriteStore(own, st, mode), t, Vtn(name)) == ViewIn(own, st, t, Vtn(name))
      {
        OnlyOtherMerge(own, st.tables[t],
                       Only(own, st.tables[t], mode).(run := CommitRunning(ViewIn(own, st, t, mode))), mode.name, name);
      }
    }
  }

  /** A commit makes RUNNING equal to CANDIDATE for the rows of its mode in every table. */
  lemma CommitAllIsExact(own: Owner, st: Store, mode: Mode)
    requires SoundIn(st.d, mode) && (mode.Vtn? ==> ClearSafe(st.d, mode.name))
    requires forall t :: t in st.tables ==> Accounted(ViewIn(own, st, t, mode))
    ensures var st1 := Apply(own, st, CommitAll, mode);
            && EndedIn(own, st, st1, mode)
            && forall t :: t in st.tables ==>
                 var r := Only(own, st.tables[t], mode);
                 Only(own, st1.tables[t], mode).run == Contents(r.cand)
  {
    var st2 := WriteStore(own, st, mode);
    forall t | t in st.tables
      ensures Clean(Finish(ViewIn(own, st2, t, mode)))
      ensures Finish(ViewIn(own, st2, t, mode)).run ==
              map k | k in ViewIn(own, st, t, mode).cand :: ViewIn(own, st, t, mode).cand[k].data
    {
      WriteShows(own, st, mode, t);
      CommitIsExact(ViewIn(own, st, t, mode));
    }
    WriteKeepsOthers(own, st, mode);
    FinishEnds(own, st, st2, mode);
    forall t | t in st.tables
      ensures Only(own, FinishStore(own, st2, mode).tables[t], mode).run == Finish(ViewIn(own, st2, t, mode)).run
    { FinishShows(own, st2, mode, t); }
  }
}
