/**
 * What the callers of the DAL mean: two configurations without flags, shadow table or marks.  A creation adds a record,
 * an update replaces the records it matches, a delete removes them; a commit makes RUNNING what CANDIDATE is, an abort
 * CANDIDATE what RUNNING is.  The tracked store does exactly that, and answers with the right result codes.
 */
module PlainStore {
  import opened Common
  import opened DirtyCache
  import opened ChangeTracking
  import opened OdbcManager
  import opened ConfigStore
  import opened StoreEnd
  import opened StoreRuns

  // --------------------------------------------------- what each statement does to a row

  /** A row that an update hits gets the new values, and its update flag unless it is new; every other row stays. */
  lemma UpdateSets(s: TS, p: Pred, f: Setter, k: Pk)
    ensures var t := UpdateRecords(s, p, f).s;
            && t.run == s.run && t.del == s.del && (k in t.cand <==> k in s.cand)
            && (k in s.cand && p(k, s.cand[k].data) ==>
                  t.cand[k].data == f(k, s.cand[k].data) && t.cand[k].c == s.cand[k].c && t.cand[k].u == !s.cand[k].c)
            && (k in s.cand && !p(k, s.cand[k].data) ==> t.cand[k] == s.cand[k])
  {
    assert k in s.cand && p(k, s.cand[k].data) ==> k in Hits(s.cand, p);
  }

  /** A row that is not there is added with its values; one that is there is left alone, and so is every other row. */
  lemma CreateAdds(s: TS, k: Pk, d: Data, again: bool, j: Pk)
    ensures var t := CreateRecord(s, k, d, again).s;
            && t.run == s.run && k in t.cand
            && (k !in s.cand ==> t.cand[k].data == d)
            && (j != k || k in s.cand ==> (j in t.cand <==> j in s.cand) && (j in t.cand ==> t.cand[j] == s.cand[j]))
  {}

  /** A row goes exactly if the clause matches it. */
  lemma DeleteRemoves(s: TS, p: Pred, k: Pk)
    ensures var t := DeleteRecords(s, p).s;
            && t.run == s.run
            && (k in t.cand <==> k in s.cand && !p(k, s.cand[k].data)) && (k in t.cand ==> t.cand[k] == s.cand[k])
  {
    assert k in s.cand && p(k, s.cand[k].data) <==> k in Hits(s.cand, p);
  }

  /** Some row of CANDIDATE matches the clause. */
  predicate Matches(m: map<Pk, Data>, p: Pred) { exists k :: k in m && p(k, m[k]) }

  /** The result codes, while everything is recoverable. */
  lemma ResultCodes(s: TS, e: Edit, again: bool)
    requires Recoverable(s)
    ensures var rc := EditOut(s, e, again).rc;
            match e
            case DoCreate(k, d) => rc == if k in s.cand then RecordAlreadyExists else Success
            case DoUpdate(p, f) => rc == if Matches(Contents(s.cand), p) then Success else RecordNotFound
            case DoDelete(p) => rc == if Matches(Contents(s.cand), p) then Success else RecordNotFound
  {
    match e
    case DoCreate(k, d) => assert RecoverableAt(s, k);
    case DoUpdate(p, f) => HitsIffMatches(s, p);
    case DoDelete(p) => HitsIffMatches(s, p); DeleteNeverCollides(s, p);
  }

  lemma HitsIffMatches(s: TS, p: Pred)
    ensures Hits(s.cand, p) != {} <==> Matches(Contents(s.cand), p)
  {
    if k :| k in Contents(s.cand) && p(k, Contents(s.cand)[k]) { assert k in Hits(s.cand, p); }
    if Hits(s.cand, p) != {} {
      var k :| k in Hits(s.cand, p);
      assert k in Contents(s.cand) && p(k, Contents(s.cand)[k]);
    }
  }

  /** A copy of an abort reports success and marks its operation exactly if it changes CANDIDATE. */
  lemma CopyReports(s: TS, op: Op, again: bool)
    ensures var o := CopyModified(s, op, again);
            && o.rc == (if o.s.cand != s.cand then Success else RecordNotFound)
            && o.marked == (if o.s.cand != s.cand then Some(op) else None)
  {
    var o := CopyModified(s, op, again);
    match op
    case Delete =>
      var extra := set k | k in s.cand && k !in s.run;
      if s.cr && extra != {} { var k :| k in extra; assert k in s.cand && k !in o.s.cand; }
    case Create =>
      var back := map k | k in s.del && k !in s.cand :: CandRow(s.del[k], false, false);
      if s.dl && back != map[] { var k :| k in back; assert k !in s.cand && k in o.s.cand; }
    case Update =>
      var undo := map k | k in s.cand && k in s.run && (s.cand[k].c || s.cand[k].u) :: CandRow(s.run[k], false, false);
      if s.up && undo != map[] { var k :| k in undo; assert o.s.cand[k] != s.cand[k]; }
  }

  // --------------------------------------------------------- the plain configurations

  datatype Plain = Plain(run: map<Pk, Data>, cand: map<Pk, Data>)

  function PlainEdit(m: map<Pk, Data>, e: Edit): map<Pk, Data> {
    match e
    case DoCreate(k, d) => if k in m then m else m[k := d]
    case DoUpdate(p, f) => map k | k in m :: if p(k, m[k]) then f(k, m[k]) else m[k]
    case DoDelete(p) => map k | k in m && !p(k, m[k]) :: m[k]
  }

  lemma UpdateIsPlain(s: TS, p: Pred, f: Setter)
    ensures Contents(UpdateRecords(s, p, f).s.cand) == PlainEdit(Contents(s.cand), DoUpdate(p, f))
  {
    var t := UpdateRecords(s, p, f).s;
    forall k
      ensures k in t.cand <==> k in s.cand
      ensures k in t.cand ==> t.cand[k].data == PlainEdit(Contents(s.cand), DoUpdate(p, f))[k]
    { UpdateSets(s, p, f, k); }
  }

  lemma DeleteIsPlain(s: TS, p: Pred)
    ensures Contents(DeleteRecords(s, p).s.cand) == PlainEdit(Contents(s.cand), DoDelete(p))
  {
    var t := DeleteRecords(s, p).s;
    forall k
      ensures k in t.cand <==> k in PlainEdit(Contents(s.cand), DoDelete(p))
      ensures k in t.cand ==> t.cand[k].data == PlainEdit(Contents(s.cand), DoDelete(p))[k]
    { DeleteRemoves(s, p, k); }
  }

  lemma CreateIsPlain(s: TS, k: Pk, d: Data, again: bool)
    ensures Contents(CreateRecord(s, k, d, again).s.cand) == PlainEdit(Contents(s.cand), DoCreate(k, d))
  {
    var t := CreateRecord(s, k, d, again).s;
    forall j
      ensures j in t.cand <==> j in PlainEdit(Contents(s.cand), DoCreate(k, d))
      ensures j in t.cand ==> t.cand[j].data == PlainEdit(Contents(s.cand), DoCreate(k, d))[j]
    { CreateAdds(s, k, d, again, j); }
  }

  /** An edit does to CANDIDATE what it does to a plain table, whatever is tracked, and leaves RUNNING alone. */
  lemma EditIsPlain(s: TS, e: Edit, again: bool)
    ensures var t := EditOut(s, e, again).s;
            t.run == s.run && Contents(t.cand) == PlainEdit(Contents(s.cand), e)
  {
    match e
    case DoCreate(k, d) => CreateIsPlain(s, k, d, again); CreateAdds(s, k, d, again, k);
    case DoUpdate(p, f) => UpdateIsPlain(s, p, f); UpdateSets(s, p, f, "");
    case DoDelete(p) => DeleteIsPlain(s, p); DeleteRemoves(s, p, "");
  }

  /** With failing writes too: the statement on CANDIDATE stays done; a failed mark is reported and ends the call. */
  lemma UnmarkedEditIsPlain(r: Rows, d: Dirty, t: nat, e: Edit, mode: Mode, w1: bool, w2: bool)
    ensures var o := EditOut(View(r, d, t, mode), e, Again(d, t, mode));
            var res := Complete(r, d, t, o, mode, w1, w2);
            && res.rows.run == r.run && Contents(res.rows.cand) == PlainEdit(Contents(r.cand), e)
            && (MarkOf(d, t, o.marked, mode, w1, w2).1 != Success ==> res.rows.del == r.del && res.rc == GeneralError)
            && (MarkOf(d, t, o.marked, mode, w1, w2).1 == Success ==> res.rc == o.rc)
  {
    EditIsPlain(View(r, d, t, mode), e, Again(d, t, mode));
  }

  /** After an update and a commit RUNNING holds the new values at every key hit and what CANDIDATE held elsewhere. */
  lemma UpdateReachesRunning(s: TS, p: Pred, f: Setter, k: Pk)
    requires Accounted(s)
    ensures var r := Commit(UpdateRecords(s, p, f).s).run;
            && (k in r <==> k in s.cand)
            && (k in s.cand ==> r[k] == if p(k, s.cand[k].data) then f(k, s.cand[k].data) else s.cand[k].data)
  {
    UpdateKeepsAccounted(s, p, f);
    CommitIsExact(UpdateRecords(s, p, f).s);
    UpdateSets(s, p, f, k);
  }

  // --------------------------------------------------------------- the whole store

  function PlainOf(st: Store): map<nat, Plain> {
    map t | t in st.tables :: Plain(st.tables[t].run, Contents(st.tables[t].cand))
  }

  /** A commit or an abort works on the rows of its mode. */
  function PlainApply(own: Owner, ps: map<nat, Plain>, c: StoreCall, mode: Mode): map<nat, Plain> {
    match c
    case EditTable(t, e) => if t in ps then ps[t := Plain(ps[t].run, PlainEdit(ps[t].cand, e))] else ps
    case CommitAll => map t | t in ps :: Plain(MergeMap(own, ps[t].run, ps[t].cand, mode), ps[t].cand)
    case AbortAll(_) => map t | t in ps :: Plain(ps[t].run, MergeMap(own, ps[t].cand, ps[t].run, mode))
  }

  function PlainRun(own: Owner, ps: map<nat, Plain>, calls: seq<(Mode, StoreCall)>): map<nat, Plain>
    decreases calls
  {
    if calls == [] then ps else PlainRun(own, PlainApply(own, ps, calls[0].1, calls[0].0), calls[1..])
  }

  lemma EditStoreIsPlain(own: Owner, st: Store, t: nat, e: Edit, mode: Mode)
    requires t in st.tables
    ensures PlainOf(EditStore(st, t, e, mode)) == PlainApply(own, PlainOf(st), EditTable(t, e), mode)
  {
    EditIsPlain(View(st.tables[t], st.d, t, mode), e, Again(st.d, t, mode));
  }

  /** The rows of key k in a table, as the view of its VTN and that of a mode that has the key show them. */
  lemma RowIsInView(own: Owner, st: Store, t: nat, mode: Mode, k: Pk)
    requires t in st.tables && In(own, k, mode)
    ensures var r, s := st.tables[t], ViewIn(own, st, t, mode);
            && (k in r.run <==> k in s.run) && (k in r.run ==> r.run[k] == s.run[k])
            && (k in r.cand <==> k in s.cand) && (k in r.cand ==> r.cand[k] == s.cand[k])
  {}

  /** The end of a transaction at one key: a row outside the mode stays, one inside is at rest. */
  predicate EndedRow(own: Owner, r: Rows, r1: Rows, mode: Mode, k: Pk) {
    if In(own, k, mode) then
      (k in r1.cand <==> k in r1.run) && (k in r1.cand ==> r1.cand[k].data == r1.run[k])
    else
      && (k in r1.run <==> k in r.run) && (k in r.run ==> r1.run[k] == r.run[k])
      && (k in r1.cand <==> k in r.cand) && (k in r.cand ==> r1.cand[k] == r.cand[k])
  }

  lemma EndedAt(own: Owner, st: Store, st1: Store, t: nat, mode: Mode, k: Pk)
    requires EndedIn(own, st, st1, mode) && t in st.tables && !mode.Virtual?
    ensures t in st1.tables && EndedRow(own, st.tables[t], st1.tables[t], mode, k)
  {
    if In(own, k, mode) {
      assert AtRest(Only(own, st1.tables[t], mode));
      RowIsInView(own, st1, t, mode, k);
    } else {
      assert ViewIn(own, st1, t, Vtn(own(k))) == ViewIn(own, st, t, Vtn(own(k)));
      RowIsInView(own, st, t, Vtn(own(k)), k);
      RowIsInView(own, st1, t, Vtn(own(k)), k);
    }
  }

  lemma SameInMode(own: Owner, a: map<Pk, Data>, b: map<Pk, Data>, mode: Mode, k: Pk)
    requires OnlyMap(own, a, mode) == OnlyMap(own, b, mode) && In(own, k, mode)
    ensures (k in a <==> k in b) && (k in a ==> a[k] == b[k])
  {
    assert k in OnlyMap(own, a, mode) <==> k in a;
    assert k in OnlyMap(own, b, mode) <==> k in b;
    assert k in a ==> OnlyMap(own, a, mode)[k] == a[k];
    assert k in b ==> OnlyMap(own, b, mode)[k] == b[k];
  }

  /** One table after an abort whose rows of the mode hold RUNNING as it was. */
  lemma AbortedTable(own: Owner, r: Rows, r1: Rows, mode: Mode)
    requires forall k :: EndedRow(own, r, r1, mode, k)
    requires OnlyMap(own, r1.run, mode) == OnlyMap(own, r.run, mode)
    ensures r1.run == r.run && Contents(r1.cand) == MergeMap(own, Contents(r.cand), r.run, mode)
  {
    var c := MergeMap(own, Contents(r.cand), r.run, mode);
    forall k
      ensures (k in r1.run <==> k in r.run) && (k in r.run ==> r1.run[k] == r.run[k])
      ensures (k in r1.cand <==> k in c) && (k in c ==> r1.cand[k].data == c[k])
    {
      assert EndedRow(own, r, r1, mode, k);
      if In(own, k, mode) { SameInMode(own, r1.run, r.run, mode, k); }
    }
  }

  /** One table after a commit whose rows of the mode hold in RUNNING what CANDIDATE held. */
  lemma CommittedTable(own: Owner, r: Rows, r1: Rows, mode: Mode)
    requires forall k :: EndedRow(own, r, r1, mode, k)
    requires OnlyMap(own, r1.run, mode) == OnlyMap(own, Contents(r.cand), mode)
    ensures r1.run == MergeMap(own, r.run, Contents(r.cand), mode) && Contents(r1.cand) == Contents(r.cand)
  {
    var c := MergeMap(own, r.run, Contents(r.cand), mode);
    forall k
      ensures (k in r1.run <==> k in c) && (k in c ==> r1.run[k] == c[k])
      ensures (k in r1.cand <==> k in r.cand) && (k in r.cand ==> r1.cand[k].data == r.cand[k].data)
    {
      assert EndedRow(own, r, r1, mode, k);
      if In(own, k, mode) { SameInMode(own, r1.run, Contents(r.cand), mode, k); }
    }
  }

  lemma AbortIsPlain(own: Owner, st: Store, st1: Store, steps: seq<(nat, Op)>, mode: Mode)
    requires EndedIn(own, st, st1, mode) && !mode.Virtual?
    requires forall t :: t in st.tables ==> Only(own, st1.tables[t], mode).run == Only(own, st.tables[t], mode).run
    ensures PlainOf(st1) == PlainApply(own, PlainOf(st), AbortAll(steps), mode)
  {
    forall t | t in st.tables
      ensures st1.tables[t].run == st.tables[t].run
      ensures Contents(st1.tables[t].cand) ==
              MergeMap(own, Contents(st.tables[t].cand), st.tables[t].run, mode)
    {
      forall k ensures EndedRow(own, st.tables[t], st1.tables[t], mode, k) { EndedAt(own, st, st1, t, mode, k); }
      AbortedTable(own, st.tables[t], st1.tables[t], mode);
    }
  }

  lemma CommitIsPlain(own: Owner, st: Store, st1: Store, mode: Mode)
    requires EndedIn(own, st, st1, mode) && !mode.Virtual?
    requires forall t :: t in st.tables ==>
               Only(own, st1.tables[t], mode).run == Contents(Only(own, st.tables[t], mode).cand)
    ensures PlainOf(st1) == PlainApply(own, PlainOf(st), CommitAll, mode)
  {
    forall t | t in st.tables
      ensures Contents(st1.tables[t].cand) == Contents(st.tables[t].cand)
      ensures st1.tables[t].run == MergeMap(own, st.tables[t].run, Contents(st.tables[t].cand), mode)
    {
      forall k ensures EndedRow(own, st.tables[t], st1.tables[t], mode, k) { EndedAt(own, st, st1, t, mode, k); }
      ContentsOfMode(own, st.tables[t].cand, mode);
      CommittedTable(own, st.tables[t], st1.tables[t], mode);
    }
  }

  lemma ContentsOfMode(own: Owner, m: map<Pk, CandRow>, mode: Mode)
    ensures Contents(OnlyMap(own, m, mode)) == OnlyMap(own, Contents(m), mode)
  {}

  lemma CallIsPlain(own: Owner, st: Store, c: StoreCall, mode: Mode)
    requires AllKept(false, own, st) && AllowedCall(false, own, st, c, mode)
    ensures PlainOf(Apply(own, st, c, mode)) == PlainApply(own, PlainOf(st), c, mode)
  {
    match c
    case EditTable(t, e) => if t in st.tables { EditStoreIsPlain(own, st, t, e, mode); }
    case AbortAll(steps) =>
      KeptIsReady(false, own, st, mode);
      AbortAllIsExact(own, st, steps, mode);
      AbortIsPlain(own, st, Apply(own, st, c, mode), steps, mode);
    case CommitAll =>
      KeptIsReady(false, own, st, mode);
      CommitAllIsExact(own, st, mode);
      CommitIsPlain(own, st, Apply(own, st, c, mode), mode);
  }

  /**
   * Refinement: on every run that mixes modes, with overflowing caches, the tracked store holds in every table what two
   * plain configurations hold after the same calls.
   */
  lemma {:induction false} EveryRunIsPlain(own: Owner, st: Store, calls: seq<(Mode, StoreCall)>)
    requires AllKept(false, own, st) && StoreRuns.AllowedRun(false, own, st, calls)
    ensures PlainOf(RunStore(own, st, calls)) == PlainRun(own, PlainOf(st), calls)
    decreases calls
  {
    if calls != [] {
      CallIsPlain(own, st, calls[0].1, calls[0].0);
      CallKeepsAll(false, own, st, calls[0].1, calls[0].0);
      EveryRunIsPlain(own, Apply(own, st, calls[0].1, calls[0].0), calls[1..]);
    }
  }
}
