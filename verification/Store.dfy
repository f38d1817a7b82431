/**
 * All tables and the dirty state together: the calls in global, virtual and VTN mode, and what each of them changes
 * in the view that each mode has of each table.
 */
module ConfigStore {
  import opened Common
  import opened DirtyCache
  import opened ChangeTracking
  import opened OdbcManager

  datatype Store = Store(tables: map<nat, Rows>, d: Dirty)

  /** A table as a mode sees it: the rows of the mode with the mode's answers. */
  function ViewIn(own: Owner, st: Store, t: nat, mode: Mode): TS
    requires t in st.tables
  {
    View(Only(own, st.tables[t], mode), st.d, t, mode)
  }

  // --------------------------------------------------------------- the calls

  function MarkDone(d: Dirty, t: nat, marked: Option<Op>, mode: Mode): Dirty {
    MarkOf(d, t, marked, mode, true, true).0
  }

  /** CreateRecord, UpdateRecords or DeleteRecords: the statements themselves know no mode. */
  function EditStore(st: Store, t: nat, e: Edit, mode: Mode): Store
    requires t in st.tables
  {
    var o := EditOut(View(st.tables[t], st.d, t, mode), e, Again(st.d, t, mode));
    Store(st.tables[t := RowsOf(o.s)], MarkDone(st.d, t, o.marked, mode))
  }

  /** A call on the rows of a mode, put back into the table. */
  function PutBack(own: Owner, st: Store, t: nat, o: Out, mode: Mode): Store
    requires t in st.tables
  {
    Store(st.tables[t := Merge(own, st.tables[t], RowsOf(o.s), mode)], MarkDone(st.d, t, o.marked, mode))
  }

  /** CopyModifiedRecords for an abort. */
  function CopyStore(own: Owner, st: Store, t: nat, op: Op, mode: Mode): Store
    requires t in st.tables
  {
    PutBack(own, st, t, CopyModified(ViewIn(own, st, t, mode), op, Again(st.d, t, mode)), mode)
  }

  /** The copies of an abort in any order; each step's marks are seen by the next. */
  function CopyRun(own: Owner, st: Store, steps: seq<(nat, Op)>, mode: Mode): Store
    decreases steps
  {
    if steps == [] then st
    else CopyRun(own, if steps[0].0 in st.tables then CopyStore(own, st, steps[0].0, steps[0].1, mode) else st,
                 steps[1..], mode)
  }

  /** The dirty state at the end of a transaction. */
  function ClearedIn(d: Dirty, mode: Mode): Dirty {
    match mode
    case Vtn(name) => ClearVtn(d, name)
    case Global => ClearAll(d)
    case Virtual => d
  }

  /** One table after its flags and its CANDIDATE_DEL have been cleared for the mode. */
  function FinishTable(own: Owner, st: Store, t: nat, mode: Mode): Rows
    requires t in st.tables
  {
    Merge(own, st.tables[t], RowsOf(Finish(ViewIn(own, st, t, mode))), mode)
  }

  /** All tables, then the mode's marks. */
  function FinishStore(own: Owner, st: Store, mode: Mode): Store {
    Store(map t | t in st.tables :: FinishTable(own, st, t, mode), ClearedIn(st.d, mode))
  }

  /** One table after the reported records of the mode have been written to RUNNING. */
  function WriteTable(own: Owner, st: Store, t: nat, mode: Mode): Rows
    requires t in st.tables
  {
    Merge(own, st.tables[t], Only(own, st.tables[t], mode).(run := CommitRunning(ViewIn(own, st, t, mode))), mode)
  }

  function WriteStore(own: Owner, st: Store, mode: Mode): Store {
    Store(map t | t in st.tables :: WriteTable(own, st, t, mode), st.d)
  }

  datatype StoreCall =
    | EditTable(t: nat, e: Edit)
    | AbortAll(steps: seq<(nat, Op)>)
    | CommitAll

  function Apply(own: Owner, st: Store, c: StoreCall, mode: Mode): Store {
    match c
    case EditTable(t, e) => if t in st.tables then EditStore(st, t, e, mode) else st
    case AbortAll(steps) => FinishStore(own, CopyRun(own, st, steps, mode), mode)
    case CommitAll => FinishStore(own, WriteStore(own, st, mode), mode)
  }

  // ------------------------------------------------- the rows of a mode

  ghost predicate StaysIn(own: Owner, r: Rows, mode: Mode) {
    forall k :: k in r.run || k in r.cand || k in r.del ==> In(own, k, mode)
  }

  lemma OnlyMerge(own: Owner, r: Rows, part: Rows, mode: Mode)
    requires StaysIn(own, part, mode)
    ensures Only(own, Merge(own, r, part, mode), mode) == part
  {}

  lemma OnlyOtherMergeMap<V>(own: Owner, m: map<Pk, V>, part: map<Pk, V>, name: string, other: string)
    requires name != other
    ensures OnlyMap(own, MergeMap(own, m, part, Vtn(name)), Vtn(other)) == OnlyMap(own, m, Vtn(other))
  {}

  lemma OnlyOtherMerge(own: Owner, r: Rows, part: Rows, name: string, other: string)
    requires name != other
    ensures Only(own, Merge(own, r, part, Vtn(name)), Vtn(other)) == Only(own, r, Vtn(other))
  {
    OnlyOtherMergeMap(own, r.run, part.run, name, other);
    OnlyOtherMergeMap(own, r.cand, part.cand, name, other);
    OnlyOtherMergeMap(own, r.del, part.del, name, other);
  }

  lemma MergeOnly(own: Owner, r: Rows, mode: Mode)
    ensures Merge(own, r, Only(own, r, mode), mode) == r && StaysIn(own, Only(own, r, mode), mode)
    ensures !mode.Vtn? ==> Only(own, r, mode) == r
  {}

  lemma MergeInsert<V>(own: Owner, m: map<Pk, V>, k: Pk, v: V, mode: Mode)
    requires In(own, k, mode)
    ensures MergeMap(own, m, OnlyMap(own, m, mode)[k := v], mode) == m[k := v]
  {}

  lemma MergeRemove<V>(own: Owner, m: map<Pk, V>, ks: set<Pk>, mode: Mode)
    requires forall k :: k in ks ==> In(own, k, mode)
    ensures MergeMap(own, m, OnlyMap(own, m, mode) - ks, mode) == m - ks
  {}

  lemma MergeAdd<V>(own: Owner, m: map<Pk, V>, part: map<Pk, V>, more: map<Pk, V>, mode: Mode)
    requires forall k :: k in more ==> In(own, k, mode)
    ensures MergeMap(own, m, part + more, mode) == MergeMap(own, m, part, mode) + more
  {}

  // ----------------------------------------------------- marks and clears

  /** The VTN caches answer like the database; overflow is allowed. */
  ghost predicate Sound(d: Dirty) { VtnSync(d) && InRange(d) }

  ghost predicate SoundIn(d: Dirty, mode: Mode) { mode.Vtn? ==> Sound(d) }

  /** A VTN-mode answer is the pair's row in the database, or a global mark of its table. */
  lemma AnswersOf(d: Dirty, x: Pair, o: Op)
    requires Sound(d)
    ensures IsDirty(d, o, x.0, Vtn(x.1)) <==> x in d.vdb.Get(o) || x.0 in d.g.Get(o)
  {
    SyncIffAnswers(d);
    assert InVtnDirty(d, o, x) <==> x in d.vdb.Get(o);
  }

  /** A VTN-mode mark adds its own pair and nothing else, a create mark under the recreate rule the update pair too. */
  lemma VtnMarkIsLocal(d: Dirty, p: Pair, op: Op, x: Pair, o: Op)
    requires Sound(d) && p.0 < NUM_TABLES
    ensures var e := Mark(d, p.0, op, Vtn(p.1), true, true).0;
            && Sound(e) && e.g == d.g
            && (x in e.vdb.Get(o) <==>
                  x in d.vdb.Get(o) || (x == p && (o == op || (op == Create && o == Update && RecreateMarks(d, p)))))
  {
    MarkIsSeen(d, p.0, op, Vtn(p.1), true, true);
    MarkPairKeepsSync(d, p, op, true);
    var m := MarkPair(d, p, op, true);
    if m.wrote && op == Create && p in m.d.v.dl && p !in m.d.v.up {
      MarkPairKeepsSync(m.d, p, Update, true);
    }
    assert d.v.Get(Update) <= d.vdb.Get(Update);
    assert op == Create ==> m.d.v.dl == d.v.dl && m.d.v.up == d.v.up;
    assert op == Create ==> (m.wrote <==> p !in d.v.cr && !(|d.v.cr| >= d.limit && p in d.vdb.cr));
  }

  /** In every mode a mark does to the three answers of its table what its bits say. */
  lemma MarkShows(r: Rows, d: Dirty, t: nat, op: Op, mode: Mode)
    requires t < NUM_TABLES && SoundIn(d, mode)
    ensures View(r, Mark(d, t, op, mode, true, true).0, t, mode) == MarkBits(View(r, d, t, mode), op, Again(d, t, mode))
    ensures SoundIn(Mark(d, t, op, mode, true, true).0, mode)
  {
    var e := Mark(d, t, op, mode, true, true).0;
    if mode.Vtn? {
      var p := (t, mode.name);
      VtnMarkIsLocal(d, p, op, p, Create);
      forall o: Op
        ensures IsDirty(e, o, t, mode) <==>
                  IsDirty(d, o, t, mode) || o == op || (op == Create && o == Update && RecreateMarks(d, p))
      {
        VtnMarkIsLocal(d, p, op, p, o);
        AnswersOf(d, p, o);
        AnswersOf(e, p, o);
      }
    } else {
      assert e.v == d.v;
    }
  }

  /** A VTN's answers for a table do not change by another VTN's mark or a mark of another table. */
  lemma MarkElsewhere(r: Rows, d: Dirty, t: nat, op: Op, mode: Mode, x: Pair)
    requires t < NUM_TABLES && Sound(d) && (x.0 != t || (mode.Vtn? && x.1 != mode.name))
    ensures var e := Mark(d, t, op, mode, true, true).0;
            Sound(e) && View(r, e, x.0, Vtn(x.1)) == View(r, d, x.0, Vtn(x.1))
  {
    var e := Mark(d, t, op, mode, true, true).0;
    if mode.Vtn? {
      VtnMarkIsLocal(d, (t, mode.name), op, x, Create);
      forall o: Op ensures IsDirty(e, o, x.0, Vtn(x.1)) <==> IsDirty(d, o, x.0, Vtn(x.1)) {
        VtnMarkIsLocal(d, (t, mode.name), op, x, o);
        AnswersOf(d, x, o);
        AnswersOf(e, x, o);
      }
    } else {
      assert e.v == d.v && e.vdb == d.vdb && e.over == d.over;
    }
  }

  lemma MarkPairKeepsOthers(d: Dirty, p: Pair, op: Op, o: Op)
    requires d.v.Get(op) <= d.vdb.Get(op) && p.0 < NUM_TABLES
    ensures var e := MarkPair(d, p, op, true).d;
            && DropName(e.v.Get(o), p.1) == DropName(d.v.Get(o), p.1)
            && DropName(e.vdb.Get(o), p.1) == DropName(d.vdb.Get(o), p.1) && e.limit == d.limit
  {
    MarkPairAt(d, p, op, true, o);
  }

  lemma MarkPairKeepsClearSafe(d: Dirty, p: Pair, op: Op)
    requires VtnSync(d) && p.0 < NUM_TABLES && ClearSafe(d, p.1)
    ensures ClearSafe(MarkPair(d, p, op, true).d, p.1)
  {
    var e := MarkPair(d, p, op, true).d;
    assert d.v.Get(op) <= d.vdb.Get(op);
    forall o: Op
      ensures DropName(e.v.Get(o), p.1) == DropName(e.vdb.Get(o), p.1) || |DropName(e.v.Get(o), p.1)| >= e.limit
    {
      MarkPairKeepsOthers(d, p, op, o);
      assert DropName(d.v.Get(o), p.1) == DropName(d.vdb.Get(o), p.1) || |DropName(d.v.Get(o), p.1)| >= d.limit;
    }
  }

  /** A mark of a VTN does not make the clear of that VTN unsafe. */
  lemma MarkKeepsClearSafe(d: Dirty, p: Pair, op: Op)
    requires Sound(d) && p.0 < NUM_TABLES && ClearSafe(d, p.1)
    ensures ClearSafe(Mark(d, p.0, op, Vtn(p.1), true, true).0, p.1)
  {
    var m := MarkPair(d, p, op, true);
    MarkPairKeepsSync(d, p, op, true);
    MarkPairKeepsClearSafe(d, p, op);
    if m.wrote && op == Create && p in m.d.v.dl && p !in m.d.v.up { MarkPairKeepsClearSafe(m.d, p, Update); }
  }

  /** A safe clear removes the rows of its VTN and no others. */
  lemma ClearIsLocal(d: Dirty, name: string, x: Pair, o: Op)
    requires Sound(d) && ClearSafe(d, name)
    ensures var e := ClearVtn(d, name);
            && Sound(e) && e.g == d.g
            && (x in e.vdb.Get(o) <==> x in d.vdb.Get(o) && x.1 != name)
  {
    DoKeepsVtnSync(d, DoClearVtn(name));
    DropInRange(d, name, o);
  }

  // ------------------------------------------------------- a call in its own mode

  /** The state of a call's outcome is its rows, marked as the outcome says. */
  predicate WellMarked(s: TS, o: Out, again: bool) {
    match o.marked
    case None => o.s == s
    case Some(op) => o.s == MarkBits(TS(o.s.run, o.s.cand, o.s.del, s.cr, s.up, s.dl), op, again)
  }

  lemma CopyIsWellMarked(s: TS, op: Op, again: bool)
    ensures WellMarked(s, CopyModified(s, op, again), again)
  {}

  lemma EditIsWellMarked(s: TS, e: Edit, again: bool)
    ensures WellMarked(s, EditOut(s, e, again), again)
  {}

  /** What is put back is what the mode then sees. */
  lemma PutBackShows(own: Owner, st: Store, t: nat, o: Out, mode: Mode)
    requires t in st.tables && t < NUM_TABLES && SoundIn(st.d, mode)
    requires WellMarked(ViewIn(own, st, t, mode), o, Again(st.d, t, mode)) && StaysIn(own, RowsOf(o.s), mode)
    ensures var st1 := PutBack(own, st, t, o, mode);
            SoundIn(st1.d, mode) && ViewIn(own, st1, t, mode) == o.s
  {
    OnlyMerge(own, st.tables[t], RowsOf(o.s), mode);
    if o.marked.Some? { MarkShows(RowsOf(o.s), st.d, t, o.marked.value, mode); }
  }

  /** Other VTNs see nothing of it, and other tables see nothing of it in any mode. */
  lemma PutBackElsewhere(own: Owner, st: Store, t: nat, o: Out, mode: Mode, x: Pair)
    requires t in st.tables && x.0 in st.tables && t < NUM_TABLES && Sound(st.d)
    requires x.0 != t || (mode.Vtn? && x.1 != mode.name)
    ensures var st1 := PutBack(own, st, t, o, mode);
            && Sound(st1.d)
            && ViewIn(own, st1, x.0, Vtn(x.1)) == ViewIn(own, st, x.0, Vtn(x.1))
  {
    if x.0 == t { OnlyOtherMerge(own, st.tables[t], RowsOf(o.s), mode.name, x.1); }
    if o.marked.Some? {
      MarkElsewhere(Only(own, st.tables[x.0], Vtn(x.1)), st.d, t, o.marked.value, mode, x);
    }
  }

  // -------------------------------------------------------------- edits

  /** The callers' part in VTN mode: the key created, or every row that the clause can match, is the VTN's. */
  ghost predicate Within(own: Owner, e: Edit, mode: Mode) {
    match e
    case DoCreate(k, _) => In(own, k, mode)
    case DoUpdate(p, _) => forall k: Pk, d: Data :: p(k, d) ==> In(own, k, mode)
    case DoDelete(p) => forall k: Pk, d: Data :: p(k, d) ==> In(own, k, mode)
  }

  /** The rows of a mode with the answers of the whole table. */
  function Part(own: Owner, b: TS, mode: Mode): TS {
    b.(run := OnlyMap(own, b.run, mode), cand := OnlyMap(own, b.cand, mode), del := OnlyMap(own, b.del, mode))
  }

  /** A state in which the rows of the mode are those of s. */
  function Whole(own: Owner, b: TS, s: TS, mode: Mode): TS {
    s.(run := MergeMap(own, b.run, s.run, mode), cand := MergeMap(own, b.cand, s.cand, mode),
       del := MergeMap(own, b.del, s.del, mode))
  }

  lemma WholePart(own: Owner, b: TS, mode: Mode)
    ensures Whole(own, b, Part(own, b, mode), mode) == b
  {
    MergeOnly(own, RowsOf(b), mode);
  }

  /** A creation that happens, in closed form. */
  lemma CreateDoes(b: TS, k: Pk, d: Data, again: bool)
    requires k !in b.cand
    ensures var recreate := b.dl && k in b.del && b.del[k].ext == d.ext;
            CreateRecord(b, k, d, again) ==
              Out(b.(cand := b.cand[k := CandRow(d, !recreate, recreate)],
                     del := if recreate then b.del - {k} else b.del,
                     cr := true, up := b.up || again), Success, Some(Create))
  {}

  lemma CreateIsPutBack(own: Owner, b: TS, k: Pk, d: Data, again: bool, mode: Mode)
    requires In(own, k, mode)
    ensures var o, q := CreateRecord(b, k, d, again), CreateRecord(Part(own, b, mode), k, d, again);
            o.s == Whole(own, b, q.s, mode) && o.marked == q.marked
  {
    WholePart(own, b, mode);
    PartAt(own, b, k, mode);
    var s := Part(own, b, mode);
    if k !in b.cand {
      CreateDoes(b, k, d, again);
      CreateDoes(s, k, d, again);
      var recreate := b.dl && k in b.del && b.del[k].ext == d.ext;
      MergeInsert(own, b.cand, k, CandRow(d, !recreate, recreate), mode);
      if recreate { MergeRemove(own, b.del, {k}, mode); }
    }
  }

  lemma PartAt(own: Owner, b: TS, k: Pk, mode: Mode)
    requires In(own, k, mode)
    ensures var s := Part(own, b, mode);
            (k in s.cand <==> k in b.cand) && (k in s.del <==> k in b.del) && (k in s.del ==> s.del[k] == b.del[k])
  {}

  /** An update that finds a row, in closed form. */
  lemma UpdateDoes(b: TS, p: Pred, f: Setter)
    requires Hits(b.cand, p) != {}
    ensures UpdateRecords(b, p, f) == Out(b.(cand := Updated(b.cand, p, f), up := true), Success, Some(Update))
  {}

  lemma UpdatedIsPutBack(own: Owner, m: map<Pk, CandRow>, p: Pred, f: Setter, mode: Mode)
    requires Within(own, DoUpdate(p, f), mode)
    ensures MergeMap(own, m, Updated(OnlyMap(own, m, mode), p, f), mode) == Updated(m, p, f)
    ensures Hits(OnlyMap(own, m, mode), p) == Hits(m, p)
  {}

  lemma UpdateIsPutBack(own: Owner, b: TS, p: Pred, f: Setter, mode: Mode)
    requires Within(own, DoUpdate(p, f), mode)
    ensures var o, q := UpdateRecords(b, p, f), UpdateRecords(Part(own, b, mode), p, f);
            o.s == Whole(own, b, q.s, mode) && o.marked == q.marked
  {
    WholePart(own, b, mode);
    UpdatedIsPutBack(own, b.cand, p, f, mode);
    if Hits(b.cand, p) != {} {
      UpdateDoes(b, p, f);
      UpdateDoes(Part(own, b, mode), p, f);
    }
  }

  lemma WithoutIsPutBack(own: Owner, m: map<Pk, Data>, p: Pred, mode: Mode)
    requires Within(own, DoDelete(p), mode)
    ensures MergeMap(own, m, Without(OnlyMap(own, m, mode), p), mode) == Without(m, p)
    ensures Matching(OnlyMap(own, m, mode), p) == Matching(m, p)
  {}

  /** A delete that finds a row, in closed form. */
  lemma DeleteDoes(b: TS, p: Pred)
    requires Hits(b.cand, p) != {}
    ensures var kept, copied := Without(b.del, p), Matching(b.run, p);
            var fits := copied.Keys * kept.Keys == {};
            DeleteRecords(b, p) ==
              Out(b.(cand := b.cand - Hits(b.cand, p), del := if fits then kept + copied else kept, dl := true),
                  if fits then Success else GeneralError, Some(Delete))
  {}

  lemma DeleteIsPutBack(own: Owner, b: TS, p: Pred, mode: Mode)
    requires Within(own, DoDelete(p), mode)
    ensures var o, q := DeleteRecords(b, p), DeleteRecords(Part(own, b, mode), p);
            o.s == Whole(own, b, q.s, mode) && o.marked == q.marked
  {
    WholePart(own, b, mode);
    var s := Part(own, b, mode);
    HitsIn(own, b.cand, p, mode);
    if Hits(b.cand, p) != {} {
      DeleteDoes(b, p);
      DeleteDoes(s, p);
      WithoutIsPutBack(own, b.del, p, mode);
      WithoutIsPutBack(own, b.run, p, mode);
      MergeAdd(own, b.del, Without(s.del, p), Matching(s.run, p), mode);
      MergeRemove(own, b.cand, Hits(b.cand, p), mode);
      SameOverlap(own, b, p, mode);
    }
  }

  lemma HitsIn(own: Owner, m: map<Pk, CandRow>, p: Pred, mode: Mode)
    requires Within(own, DoDelete(p), mode)
    ensures Hits(OnlyMap(own, m, mode), p) == Hits(m, p)
  {}

  lemma SameOverlap(own: Owner, b: TS, p: Pred, mode: Mode)
    requires Within(own, DoDelete(p), mode)
    ensures Matching(b.run, p).Keys * Without(OnlyMap(own, b.del, mode), p).Keys
            == Matching(b.run, p).Keys * Without(b.del, p).Keys
  {}

  /** What an edit within a mode makes of the mode's rows are rows of the mode. */
  lemma EditStaysIn(own: Owner, s: TS, e: Edit, again: bool, mode: Mode)
    requires Within(own, e, mode) && StaysIn(own, RowsOf(s), mode)
    ensures StaysIn(own, RowsOf(EditOut(s, e, again).s), mode)
  {
    match e
    case DoCreate(k, d) => if k !in s.cand { CreateDoes(s, k, d, again); }
    case DoUpdate(p, f) =>
      assert EditOut(s, e, again).s.cand.Keys == s.cand.Keys;
    case DoDelete(p) => if Hits(s.cand, p) != {} { DeleteDoes(s, p); }
  }

  /** An edit within a mode is that edit on the rows of the mode, put back. */
  lemma EditIsPutBack(own: Owner, st: Store, t: nat, e: Edit, mode: Mode)
    requires t in st.tables && Within(own, e, mode)
    ensures var o := EditOut(ViewIn(own, st, t, mode), e, Again(st.d, t, mode));
            EditStore(st, t, e, mode) == PutBack(own, st, t, o, mode) && StaysIn(own, RowsOf(o.s), mode)
  {
    var b := View(st.tables[t], st.d, t, mode);
    MergeOnly(own, st.tables[t], mode);
    EditStaysIn(own, ViewIn(own, st, t, mode), e, Again(st.d, t, mode), mode);
    match e
    case DoCreate(k, d) => CreateIsPutBack(own, b, k, d, Again(st.d, t, mode), mode);
    case DoUpdate(p, f) => UpdateIsPutBack(own, b, p, f, mode);
    case DoDelete(p) => DeleteIsPutBack(own, b, p, mode);
  }

  /** In its own mode an edit shows exactly what change tracking says. */
  lemma EditShows(own: Owner, st: Store, t: nat, e: Edit, mode: Mode)
    requires t in st.tables && t < NUM_TABLES && SoundIn(st.d, mode) && Within(own, e, mode)
    ensures var st1 := EditStore(st, t, e, mode);
            && SoundIn(st1.d, mode) && st1.tables.Keys == st.tables.Keys
            && ViewIn(own, st1, t, mode) == EditOut(ViewIn(own, st, t, mode), e, Again(st.d, t, mode)).s
  {
    EditIsPutBack(own, st, t, e, mode);
    EditIsWellMarked(ViewIn(own, st, t, mode), e, Again(st.d, t, mode));
    PutBackShows(own, st, t, EditOut(ViewIn(own, st, t, mode), e, Again(st.d, t, mode)), mode);
  }

  /** Other VTNs see nothing of it, and other tables see nothing of it. */
  lemma EditElsewhere(own: Owner, st: Store, t: nat, e: Edit, mode: Mode, x: Pair)
    requires t in st.tables && x.0 in st.tables && t < NUM_TABLES && Sound(st.d) && Within(own, e, mode)
    requires x.0 != t || (mode.Vtn? && x.1 != mode.name)
    ensures var st1 := EditStore(st, t, e, mode);
            && Sound(st1.d) && st1.tables.Keys == st.tables.Keys
            && ViewIn(own, st1, x.0, Vtn(x.1)) == ViewIn(own, st, x.0, Vtn(x.1))
  {
    EditIsPutBack(own, st, t, e, mode);
    PutBackElsewhere(own, st, t, EditOut(ViewIn(own, st, t, mode), e, Again(st.d, t, mode)), mode, x);
  }
}
