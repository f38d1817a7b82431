/**
 * Change tracking between CANDIDATE and RUNNING for one table and one scope: all rows in
 * global and virtual mode, the rows of one VTN in VTN mode.  The code never compares the two
 * configurations; it keeps flags on candidate rows, the shadow table CANDIDATE_DEL and one
 * dirty bit per operation.
 */
module ChangeTracking {
  import opened Common
  import opened DirtyCache

  type Pk = string

  /** A row without its primary key; ext: the controller and domain columns that extend the identity. */
  datatype Data = Data(ext: string, val: string)

  datatype CandRow = CandRow(data: Data, c: bool, u: bool)

  /** The WHERE clause and the SET list of a statement. */
  type Pred = (Pk, Data) -> bool
  type Setter = (Pk, Data) -> Data

  /** RUNNING, CANDIDATE, CANDIDATE_DEL and the answers of IsTblDirty for the three operations. */
  datatype TS = TS(run: map<Pk, Data>, cand: map<Pk, CandRow>, del: map<Pk, Data>, cr: bool, up: bool, dl: bool)

  /** A mark; again: a create mark is one that marks update too, which the dirty sets decide. */
  function MarkBits(s: TS, op: Op, again: bool): TS {
    match op
    case Create => s.(cr := true, up := s.up || again)
    case Update => s.(up := true)
    case Delete => s.(dl := true)
  }

  /** Result of a call: new state, return code, and the operation passed to SetTableDirty, if any. */
  datatype Out = Out(s: TS, rc: Rc, marked: Option<Op>)

  // --------------------------------------------------------- the statements

  function Hits(m: map<Pk, CandRow>, p: Pred): set<Pk> {
    set k | k in m && p(k, m[k].data)
  }

  function Without(m: map<Pk, Data>, p: Pred): map<Pk, Data> {
    map k | k in m && !p(k, m[k]) :: m[k]
  }

  function Matching(m: map<Pk, Data>, p: Pred): map<Pk, Data> {
    map k | k in m && p(k, m[k]) :: m[k]
  }

  /** What CANDIDATE looks like when it holds RUNNING with clean flags. */
  function Mirror(m: map<Pk, Data>): map<Pk, CandRow> {
    map k | k in m :: CandRow(m[k], false, false)
  }

  /** What an update makes of the rows: every row it hits gets its update flag unless it is a new one. */
  function Updated(m: map<Pk, CandRow>, p: Pred, f: Setter): map<Pk, CandRow> {
    map k | k in m :: if p(k, m[k].data) then CandRow(f(k, m[k].data), m[k].c, !m[k].c) else m[k]
  }

  /** The rows without their flags. */
  function Contents(m: map<Pk, CandRow>): map<Pk, Data> {
    map k | k in m :: m[k].data
  }

  // -------------------------------------------------------------- the edits

  /** CreateRecord on CANDIDATE. */
  function CreateRecord(s: TS, k: Pk, d: Data, again: bool): Out {
    var recreate := s.dl && k in s.del && s.del[k].ext == d.ext;
    if k in s.cand then Out(s, RecordAlreadyExists, None)
    else
      var s1 := MarkBits(s.(cand := s.cand[k := CandRow(d, !recreate, recreate)]), Create, again);
      if !recreate then Out(s1, Success, Some(Create))
      else if !s1.dl || k !in s1.del then Out(s1, RecordNotFound, Some(Create))
      else Out(s1.(del := s1.del - {k}), Success, Some(Create))
  }

  /** UpdateRecords on CANDIDATE. */
  function UpdateRecords(s: TS, p: Pred, f: Setter): Out {
    if Hits(s.cand, p) == {} then Out(s, RecordNotFound, None)
    else
      Out(MarkBits(s.(cand := Updated(s.cand, p, f)), Update, false), Success, Some(Update))
  }

  /** DeleteRecords on CANDIDATE without truncation and with a WHERE clause. */
  function DeleteRecords(s: TS, p: Pred): Out {
    var hits := Hits(s.cand, p);
    if hits == {} then Out(s, RecordNotFound, None)
    else
      var s1 := MarkBits(s.(cand := s.cand - hits), Delete, false);
      var kept := if s1.dl then Without(s1.del, p) else s1.del;
      var copied := Matching(s1.run, p);
      if copied.Keys * kept.Keys != {} then Out(s1.(del := kept), GeneralError, Some(Delete))
      else Out(s1.(del := kept + copied), Success, Some(Delete))
  }

  /**
   * DeleteRecords on CANDIDATE without truncation and without a WHERE clause: every row goes,
   * but the copy into CANDIDATE_DEL refuses to be built without a WHERE clause.
   */
  function DeleteAllRecords(s: TS): Out {
    if s.cand == map[] then Out(s, RecordNotFound, None)
    else Out(MarkBits(s.(cand := map[], del := map[]), Delete, false), GeneralError, Some(Delete))
  }

  datatype Edit =
    | DoCreate(k: Pk, d: Data)
    | DoUpdate(p: Pred, f: Setter)
    | DoDelete(p: Pred)

  function EditOut(s: TS, e: Edit, again: bool): Out {
    match e
    case DoCreate(k, d) => CreateRecord(s, k, d, again)
    case DoUpdate(p, f) => UpdateRecords(s, p, f)
    case DoDelete(p) => DeleteRecords(s, p)
  }

  // -------------------------------------------------------------- the abort

  /** CopyModifiedRecords(CANDIDATE, RUNNING, op): skipped when the swapped operation is clean. */
  function CopyModified(s: TS, op: Op, again: bool): Out {
    match op
    case Delete =>
      var extra := set k | k in s.cand && k !in s.run;
      if !s.cr || extra == {} then Out(s, RecordNotFound, None)
      else Out(MarkBits(s.(cand := s.cand - extra), Delete, again), Success, Some(Delete))
    case Create =>
      var back := map k | k in s.del && k !in s.cand :: CandRow(s.del[k], false, false);
      if !s.dl || back == map[] then Out(s, RecordNotFound, None)
      else Out(MarkBits(s.(cand := s.cand + back), Create, again), Success, Some(Create))
    case Update =>
      var undo := map k | k in s.cand && k in s.run && (s.cand[k].c || s.cand[k].u) :: CandRow(s.run[k], false, false);
      if !s.up || undo == map[] then Out(s, RecordNotFound, None)
      else Out(MarkBits(s.(cand := s.cand + undo), Update, again), Success, Some(Update))
  }

  /** A sequence of copies, each with what its mark does. */
  function CopySteps(s: TS, steps: seq<(Op, bool)>): TS
    decreases steps
  {
    if steps == [] then s else CopySteps(CopyModified(s, steps[0].0, steps[0].1).s, steps[1..])
  }

  /** ClearCreateUpdateFlags, skipped when neither create nor update is dirty. */
  function ClearFlags(s: TS): TS {
    if s.cr || s.up then s.(cand := map k | k in s.cand :: CandRow(s.cand[k].data, false, false)) else s
  }

  /** The end of every transaction: flags, then CANDIDATE_DEL (skipped when delete is clean), then dirty marks. */
  function Finish(s: TS): TS {
    var s1 := ClearFlags(s);
    s1.(del := if s1.dl then map[] else s1.del, cr := false, up := false, dl := false)
  }

  function Abort(s: TS, steps: seq<(Op, bool)>): TS {
    Finish(CopySteps(s, steps))
  }

  // ------------------------------------------------------------- the commit

  /** GetDeletedRecords, GetCreatedRecords and GetUpdatedRecords, each skipped when its operation is clean. */
  function GetDeleted(s: TS): map<Pk, Data> {
    if s.dl then s.del else map[]
  }

  function GetCreated(s: TS): map<Pk, Data> {
    if s.cr then map k | k in s.cand && s.cand[k].c :: s.cand[k].data else map[]
  }

  function GetUpdated(s: TS): map<Pk, Data> {
    if s.up then map k | k in s.cand && s.cand[k].u :: s.cand[k].data else map[]
  }

  function Reported(s: TS, op: Op): map<Pk, Data> {
    match op
    case Delete => GetDeleted(s)
    case Create => GetCreated(s)
    case Update => GetUpdated(s)
  }

  /** TxCopyCandidateToRunning: the three differences are applied to RUNNING in this order. */
  function CommitRunning(s: TS): map<Pk, Data> {
    s.run - GetDeleted(s).Keys + GetCreated(s) + GetUpdated(s)
  }

  function Commit(s: TS): TS {
    Finish(s.(run := CommitRunning(s)))
  }

  // --------------------------------------------------------- the invariants

  /** The record of primary key k is the same record in both configurations: key and extension agree. */
  predicate SameRecord(s: TS, k: Pk) {
    k in s.run && k in s.cand && s.cand[k].data.ext == s.run[k].ext
  }

  /** The candidate row of k is not a newly created one: it stands for a row of RUNNING. */
  predicate OldRow(s: TS, k: Pk) {
    k in s.run && k in s.cand && !s.cand[k].c
  }

  /** Enough is recorded about key k to restore it; each abort step keeps this too. */
  predicate RecoverableAt(s: TS, k: Pk) {
    && (k in s.del ==> k in s.run && s.del[k] == s.run[k] && s.dl)
    && (k in s.run && k !in s.cand ==> k in s.del)
    && (k in s.cand && k !in s.run ==> s.cr)
    && (k in s.cand && k in s.run && s.cand[k].data != s.run[k] ==> s.cand[k].c || s.cand[k].u)
    && (k in s.cand && k in s.run && (s.cand[k].c || s.cand[k].u) ==> s.up)
  }

  ghost predicate Recoverable(s: TS) {
    forall k :: RecoverableAt(s, k)
  }

  /**
   * Every change at key k is accounted for: CANDIDATE_DEL holds the running row exactly if no old candidate row
   * stands for it, a changed row has a flag, and each of these has the dirty bit under which commit and abort
   * will look for it.
   */
  predicate AccountedAt(s: TS, k: Pk) {
    && (k in s.del <==> k in s.run && !OldRow(s, k))
    && (k in s.del ==> s.del[k] == s.run[k] && s.dl)
    && (k in s.cand ==>
          && !(s.cand[k].c && s.cand[k].u) && (!s.cand[k].c ==> k in s.run)
          && (k in s.run && s.cand[k].data != s.run[k] ==> s.cand[k].c || s.cand[k].u)
          && (s.cand[k].c ==> s.cr)
          && (s.cand[k].u || (s.cand[k].c && k in s.run) ==> s.up))
  }

  ghost predicate Accounted(s: TS) {
    forall k :: AccountedAt(s, k)
  }

  /**
   * At key k, CANDIDATE_DEL holds the running record exactly if it is gone from CANDIDATE, the create flag
   * is up exactly if the candidate record is not in RUNNING, a changed common record has its update flag,
   * and every one of these has the dirty bit under which commit and abort will look for it.
   */
  predicate TrackedAt(s: TS, k: Pk) {
    && (k in s.del <==> k in s.run && !SameRecord(s, k))
    && (k in s.del ==> s.del[k] == s.run[k] && s.dl)
    && (k in s.cand ==>
          && (s.cand[k].c <==> !SameRecord(s, k))
          && !(s.cand[k].c && s.cand[k].u)
          && (k in s.run && s.cand[k].data != s.run[k] ==> s.cand[k].c || s.cand[k].u)
          && (s.cand[k].c ==> s.cr)
          && (s.cand[k].u || (s.cand[k].c && k in s.run) ==> s.up))
  }

  /** The flags, CANDIDATE_DEL and the dirty bits are the difference of the two configurations. */
  ghost predicate Tracked(s: TS) {
    forall k :: TrackedAt(s, k)
  }

  /** Accounted, and if exact even tracked: what the two have in common is proved once. */
  predicate KeptAt(exact: bool, s: TS, k: Pk) {
    AccountedAt(s, k) && (exact && k in s.cand ==> (s.cand[k].c <==> !SameRecord(s, k)))
  }

  ghost predicate Kept(exact: bool, s: TS) {
    forall k :: KeptAt(exact, s, k)
  }

  ghost predicate Clean(s: TS) {
    s.cand == Mirror(s.run) && s.del == map[] && !s.cr && !s.up && !s.dl
  }

  /** Tracked is accounted with exact create flags; all of them can be recovered from. */
  lemma KeptMeans(s: TS)
    ensures Kept(true, s) <==> Tracked(s)
    ensures Kept(false, s) <==> Accounted(s)
    ensures Tracked(s) ==> Accounted(s)
    ensures Accounted(s) ==> Recoverable(s)
  {
    forall k ensures KeptAt(true, s, k) <==> TrackedAt(s, k) {}
    forall k ensures KeptAt(false, s, k) <==> AccountedAt(s, k) {}
    if Tracked(s) { forall k ensures AccountedAt(s, k) { assert TrackedAt(s, k); } }
    if Accounted(s) { forall k ensures RecoverableAt(s, k) { assert AccountedAt(s, k); } }
  }

  lemma KeptIsRecoverable(exact: bool, s: TS)
    requires Kept(exact, s)
    ensures Accounted(s) && Recoverable(s)
  {
    forall k ensures AccountedAt(s, k) { assert KeptAt(exact, s, k); }
    KeptMeans(s);
  }

  lemma CleanIsKept(exact: bool, s: TS)
    requires Clean(s)
    ensures Kept(exact, s)
  {
    forall k ensures KeptAt(exact, s, k) {}
  }

  /** What tracking needs of the dirty bits is monotone: more dirt never hurts. */
  lemma MoreDirtIsHarmless(exact: bool, s: TS, t: TS)
    requires Kept(exact, s) && t.run == s.run && t.cand == s.cand && t.del == s.del
    requires (s.cr ==> t.cr) && (s.up ==> t.up) && (s.dl ==> t.dl)
    ensures Kept(exact, t)
  {
    forall k ensures KeptAt(exact, t, k) { assert KeptAt(exact, s, k); }
  }

  // ----------------------------------------------------------------- creation

  /** The update mark of a recreated row is missed: the mark does not make it and the table is not update-dirty yet. */
  predicate MissesUpdate(s: TS, k: Pk, again: bool) {
    k in s.del && !again && !s.up
  }

  lemma CreateKeeps(exact: bool, s: TS, k: Pk, d: Data, again: bool)
    requires Kept(exact, s) && k !in s.cand && !MissesUpdate(s, k, again)
    ensures Kept(exact, CreateRecord(s, k, d, again).s)
    ensures CreateRecord(s, k, d, again).rc == Success
  {
    assert KeptAt(exact, s, k);
    var t := CreateRecord(s, k, d, again).s;
    forall j ensures KeptAt(exact, t, j) { assert KeptAt(exact, s, j); }
  }

  /** A creation leaves a flagged row without its mark exactly if its update mark is missed. */
  lemma CreateKeepsIff(exact: bool, s: TS, k: Pk, d: Data, again: bool)
    requires Kept(exact, s) && k !in s.cand
    ensures Kept(exact, CreateRecord(s, k, d, again).s) <==> !MissesUpdate(s, k, again)
  {
    if MissesUpdate(s, k, again) {
      assert KeptAt(exact, s, k);
      assert !KeptAt(exact, CreateRecord(s, k, d, again).s, k);
    } else {
      CreateKeeps(exact, s, k, d, again);
    }
  }

  // ------------------------------------------------------------------- update

  /** The update gives no common record another controller or domain, and takes none back to that of RUNNING. */
  ghost predicate KeepsIdentity(s: TS, p: Pred, f: Setter) {
    forall k :: k in s.run && k in s.cand && p(k, s.cand[k].data) ==>
      (f(k, s.cand[k].data).ext == s.run[k].ext <==> s.cand[k].data.ext == s.run[k].ext)
  }

  /** Whatever an update sets outside the primary key, every change stays accounted for: commit and abort stay exact. */
  lemma UpdateKeepsAccounted(s: TS, p: Pred, f: Setter)
    requires Accounted(s)
    ensures Accounted(UpdateRecords(s, p, f).s)
  {
    var t := UpdateRecords(s, p, f).s;
    forall k ensures AccountedAt(t, k) { assert AccountedAt(s, k); }
  }

  /** The difference stays exact exactly if the update keeps the identity of the records it hits. */
  lemma UpdateKeepsTrackedIff(s: TS, p: Pred, f: Setter)
    requires Tracked(s)
    ensures Tracked(UpdateRecords(s, p, f).s) <==> KeepsIdentity(s, p, f)
  {
    var t := UpdateRecords(s, p, f).s;
    assert Hits(s.cand, p) == {} ==> forall k :: k in s.cand ==> !p(k, s.cand[k].data) by {
      forall k | k in s.cand && p(k, s.cand[k].data) ensures Hits(s.cand, p) != {} { assert k in Hits(s.cand, p); }
    }
    forall k ensures TrackedAt(t, k) <==>
      (k in s.run && k in s.cand && p(k, s.cand[k].data) ==>
        (f(k, s.cand[k].data).ext == s.run[k].ext <==> s.cand[k].data.ext == s.run[k].ext))
    {
      assert TrackedAt(s, k);
    }
  }

  /** A record that an update moves to another controller: reported as updated, not as deleted and created. */
  lemma ControllerUpdateBreaksTracking()
    ensures exists s: TS, p: Pred, f: Setter ::
              && Clean(s) && !Tracked(UpdateRecords(s, p, f).s)
              && "a" in GetUpdated(UpdateRecords(s, p, f).s) && GetDeleted(UpdateRecords(s, p, f).s) == map[]
  {
    var run := map["a" := Data("ctrlr1", "1")];
    var s := TS(run, Mirror(run), map[], false, false, false);
    var p: Pred := (k, d: Data) => true;
    var f: Setter := (k, d: Data) => Data("ctrlr2", d.val);
    CleanIsKept(true, s);
    KeptMeans(s);
    assert "a" in Hits(s.cand, p);
    UpdateKeepsTrackedIff(s, p, f);
    assert p("a", s.cand["a"].data);
  }

  // ----------------------------------------------------------------- deletion

  /** No old row is matched in one configuration and missed in the other. */
  ghost predicate NoStraddle(s: TS, p: Pred) {
    forall k :: OldRow(s, k) ==> (p(k, s.cand[k].data) <==> p(k, s.run[k]))
  }

  /** A WHERE clause on the primary key never straddles; one on controller and domain too does not while tracked. */
  lemma KeyPredicateNeverStraddles(s: TS, p: Pred)
    requires || (forall k: Pk, d: Data, e: Data :: p(k, d) == p(k, e))
             || (Tracked(s) && forall k: Pk, d: Data, e: Data :: d.ext == e.ext ==> p(k, d) == p(k, e))
    ensures NoStraddle(s, p)
  {
    forall k | OldRow(s, k) ensures p(k, s.cand[k].data) <==> p(k, s.run[k]) {
      assert Tracked(s) ==> TrackedAt(s, k);
    }
  }

  /** The copy into CANDIDATE_DEL meets no duplicate key and its guard never skips, whatever the WHERE clause. */
  lemma DeleteNeverCollides(s: TS, p: Pred)
    requires Recoverable(s)
    ensures DeleteRecords(s, p).rc == (if Hits(s.cand, p) == {} then RecordNotFound else Success)
    ensures Hits(s.cand, p) != {} ==> DeleteRecords(s, p).s.del == Without(s.del, p) + Matching(s.run, p)
  {
    forall k | k in Matching(s.run, p).Keys ensures k !in Without(s.del, p).Keys { assert RecoverableAt(s, k); }
    assert Matching(s.run, p).Keys * Without(s.del, p).Keys == {};
  }

  /** What a delete that finds a row does at one key. */
  lemma DeleteAt(s: TS, p: Pred, k: Pk)
    requires Recoverable(s) && Hits(s.cand, p) != {}
    ensures var t := DeleteRecords(s, p).s;
            && t.run == s.run && t.cr == s.cr && t.up == s.up && t.dl
            && (k in t.cand <==> k in s.cand && !p(k, s.cand[k].data))
            && (k in t.cand ==> t.cand[k] == s.cand[k])
            && (k in t.del <==> (k in s.del && !p(k, s.del[k])) || (k in s.run && p(k, s.run[k])))
            && (k in t.del ==> k in s.run && t.del[k] == s.run[k])
  {
    DeleteNeverCollides(s, p);
    assert RecoverableAt(s, k);
    assert k in Hits(s.cand, p) <==> k in s.cand && p(k, s.cand[k].data);
  }

  /** Exactly when a delete that finds a row keeps the record of changes right. */
  lemma DeleteKeepsIff(exact: bool, s: TS, p: Pred)
    requires Kept(exact, s) && Hits(s.cand, p) != {}
    ensures Kept(exact, DeleteRecords(s, p).s) <==> NoStraddle(s, p)
  {
    KeptIsRecoverable(exact, s);
    var t := DeleteRecords(s, p).s;
    forall k ensures KeptAt(exact, t, k) <==> (OldRow(s, k) ==> (p(k, s.cand[k].data) <==> p(k, s.run[k]))) {
      assert KeptAt(exact, s, k);
      DeleteAt(s, p, k);
    }
  }

  /** Exactly when such a delete can still be undone: no deleted row hides a running row that the clause misses. */
  lemma DeleteIsUndoableIff(s: TS, p: Pred)
    requires Accounted(s) && Hits(s.cand, p) != {}
    ensures Recoverable(DeleteRecords(s, p).s) <==>
            forall k :: OldRow(s, k) && p(k, s.cand[k].data) ==> p(k, s.run[k])
  {
    KeptMeans(s);
    var t := DeleteRecords(s, p).s;
    forall k ensures RecoverableAt(t, k) <==> (OldRow(s, k) && p(k, s.cand[k].data) ==> p(k, s.run[k])) {
      assert AccountedAt(s, k) && RecoverableAt(s, k);
      DeleteAt(s, p, k);
    }
  }

  /** A clause on a value column saves a row that is still there and so reports it as deleted. */
  lemma ValuePredicateBreaksTracking()
    ensures exists s: TS, p: Pred :: Tracked(s) && !Tracked(DeleteRecords(s, p).s)
  {
    var one, two := Data("", "1"), Data("", "2");
    var s0 := TS(map["a" := one, "b" := one], Mirror(map["a" := one, "b" := one]), map[], false, false, false);
    CleanIsKept(true, s0);
    KeptMeans(s0);
    var onA: Pred := (k, d: Data) => k == "a";
    var f: Setter := (k, d: Data) => Data("", "2");
    UpdateKeepsTrackedIff(s0, onA, f);
    var s := UpdateRecords(s0, onA, f).s;
    assert "a" in Hits(s0.cand, onA);
    var p: Pred := (k, d: Data) => d.val == "1";
    assert OldRow(s, "a") && !p("a", s.cand["a"].data) && p("a", s.run["a"]);
    assert "b" in Hits(s.cand, p);
    KeptMeans(s);
    DeleteKeepsIff(true, s, p);
    KeptMeans(DeleteRecords(s, p).s);
  }

  /** A row deleted by a value it did not have in RUNNING is saved nowhere. */
  lemma DeleteCanLoseARow()
    ensures exists s: TS, p: Pred :: Tracked(s) && !Recoverable(DeleteRecords(s, p).s)
  {
    var one := Data("", "1");
    var s0 := TS(map["a" := one], Mirror(map["a" := one]), map[], false, false, false);
    CleanIsKept(true, s0);
    KeptMeans(s0);
    var all: Pred := (k, d: Data) => true;
    var f: Setter := (k, d: Data) => Data("", "2");
    UpdateKeepsTrackedIff(s0, all, f);
    var s := UpdateRecords(s0, all, f).s;
    assert "a" in Hits(s0.cand, all);
    var p: Pred := (k, d: Data) => d.val == "2";
    assert OldRow(s, "a") && p("a", s.cand["a"].data) && !p("a", s.run["a"]);
    assert "a" in Hits(s.cand, p);
    KeptMeans(s);
    DeleteIsUndoableIff(s, p);
  }

  // --------------------------------------------------------- abort is exact

  /** What the copy for one operation is to achieve at key k. */
  predicate UndoneAt(s: TS, op: Op, k: Pk) {
    match op
    case Delete => k in s.cand ==> k in s.run
    case Create => k in s.run ==> k in s.cand
    case Update => k in s.cand && k in s.run ==> s.cand[k] == CandRow(s.run[k], false, false)
  }

  ghost predicate Undone(s: TS, op: Op) {
    forall k :: UndoneAt(s, op, k)
  }

  /** At key k, going from s to t keeps what is recoverable and what is undone. */
  ghost predicate ProgressAt(s: TS, t: TS, k: Pk) {
    && t.run == s.run && RecoverableAt(t, k)
    && forall o: Op :: UndoneAt(s, o, k) ==> UndoneAt(t, o, k)
  }

  /** The three abort steps, run or skipped, seen at one key. */
  lemma CopyDeleteAt(s: TS, again: bool, k: Pk)
    requires RecoverableAt(s, k)
    ensures var t := CopyModified(s, Delete, again).s; ProgressAt(s, t, k) && UndoneAt(t, Delete, k)
  {
    var extra := set j | j in s.cand && j !in s.run;
    assert k in extra <==> k in s.cand && k !in s.run;
    var t := CopyModified(s, Delete, again).s;
    assert k in t.cand <==> k in s.cand && k in s.run;
    assert k in t.cand ==> t.cand[k] == s.cand[k];
  }

  lemma CopyCreateAt(s: TS, again: bool, k: Pk)
    requires RecoverableAt(s, k)
    ensures var t := CopyModified(s, Create, again).s; ProgressAt(s, t, k) && UndoneAt(t, Create, k)
  {
    var back := map j | j in s.del && j !in s.cand :: CandRow(s.del[j], false, false);
    assert k in back <==> k in s.del && k !in s.cand;
    var t := CopyModified(s, Create, again).s;
    assert k in t.cand <==> k in s.cand || k in back;
    assert k in s.cand ==> t.cand[k] == s.cand[k];
  }

  lemma CopyUpdateAt(s: TS, again: bool, k: Pk)
    requires RecoverableAt(s, k)
    ensures var t := CopyModified(s, Update, again).s; ProgressAt(s, t, k) && UndoneAt(t, Update, k)
  {
    var undo := map j | j in s.cand && j in s.run && (s.cand[j].c || s.cand[j].u) :: CandRow(s.run[j], false, false);
    assert k in undo <==> k in s.cand && k in s.run && (s.cand[k].c || s.cand[k].u);
    var t := CopyModified(s, Update, again).s;
    assert k in t.cand <==> k in s.cand;
    assert k in t.cand ==> t.cand[k] == if k in undo then undo[k] else s.cand[k];
  }

  /** One abort step does its own part and undoes none of the others. */
  lemma CopyStepWorks(s: TS, op: Op, again: bool)
    requires Recoverable(s)
    ensures var t := CopyModified(s, op, again).s;
            && Recoverable(t) && t.run == s.run && Undone(t, op)
            && (forall o: Op :: Undone(s, o) ==> Undone(t, o))
  {
    var t := CopyModified(s, op, again).s;
    forall k ensures ProgressAt(s, t, k) && UndoneAt(t, op, k) {
      assert RecoverableAt(s, k);
      match op
      case Delete => CopyDeleteAt(s, again, k);
      case Create => CopyCreateAt(s, again, k);
      case Update => CopyUpdateAt(s, again, k);
    }
    assert ProgressAt(s, t, "");
    forall k ensures RecoverableAt(t, k) { assert ProgressAt(s, t, k); }
    forall o: Op, k | Undone(s, o) ensures UndoneAt(t, o, k) { assert ProgressAt(s, t, k) && UndoneAt(s, o, k); }
  }

  predicate HasStep(steps: seq<(Op, bool)>, op: Op) {
    exists i :: 0 <= i < |steps| && steps[i].0 == op
  }

  lemma {:induction false} CopyStepsWork(s: TS, steps: seq<(Op, bool)>)
    requires Recoverable(s)
    ensures var t := CopySteps(s, steps);
            && Recoverable(t) && t.run == s.run
            && (forall o: Op :: HasStep(steps, o) || Undone(s, o) ==> Undone(t, o))
    decreases steps
  {
    if steps != [] {
      CopyStepWorks(s, steps[0].0, steps[0].1);
      CopyStepsWork(CopyModified(s, steps[0].0, steps[0].1).s, steps[1..]);
      forall o: Op | HasStep(steps, o) ensures o == steps[0].0 || HasStep(steps[1..], o) {
        var i :| 0 <= i < |steps| && steps[i].0 == o;
        assert i > 0 ==> steps[1..][i - 1].0 == o;
      }
    }
  }

  lemma UndoneIsMirrored(s: TS)
    requires Undone(s, Delete) && Undone(s, Create) && Undone(s, Update)
    ensures s.cand == Mirror(s.run)
  {
    forall k ensures (k in s.cand <==> k in s.run) && (k in s.cand ==> s.cand[k] == CandRow(s.run[k], false, false)) {
      assert UndoneAt(s, Delete, k) && UndoneAt(s, Create, k) && UndoneAt(s, Update, k);
    }
  }

  lemma FinishCleans(s: TS)
    requires Recoverable(s)
    requires s.cand.Keys == s.run.Keys && forall k :: k in s.run ==> s.cand[k].data == s.run[k]
    ensures Clean(Finish(s)) && Finish(s).run == s.run
  {
    forall k | k in s.run ensures Finish(s).cand[k] == CandRow(s.run[k], false, false) { assert RecoverableAt(s, k); }
    assert Finish(s).cand == Mirror(s.run);
    forall k ensures k !in Finish(s).del { assert RecoverableAt(s, k); }
  }

  /** Abort restores CANDIDATE from RUNNING: any sequence of steps that has each of the three, with every skip. */
  lemma AbortIsExact(s: TS, steps: seq<(Op, bool)>)
    requires Recoverable(s) && HasStep(steps, Create) && HasStep(steps, Update) && HasStep(steps, Delete)
    ensures CopySteps(s, steps).cand == Mirror(s.run)
    ensures Clean(Abort(s, steps)) && Abort(s, steps).run == s.run
  {
    CopyStepsWork(s, steps);
    UndoneIsMirrored(CopySteps(s, steps));
    FinishCleans(CopySteps(s, steps));
  }

  // -------------------------------------------------------- commit is exact

  /** The reported differences at one key. */
  predicate CommitAt(s: TS, k: Pk) {
    var left := s.run - GetDeleted(s).Keys;
    && (k in GetCreated(s) <==> k in s.cand && s.cand[k].c)
    && (k in GetUpdated(s) <==> k in s.cand && s.cand[k].u)
    && (k in GetCreated(s) ==> k !in left && GetCreated(s)[k] == s.cand[k].data)
    && (k in GetUpdated(s) ==> k in left && GetUpdated(s)[k] == s.cand[k].data)
    && (k !in GetCreated(s) && k !in GetUpdated(s) ==>
          (k in left <==> k in s.cand) && (k in left ==> left[k] == s.cand[k].data))
  }

  lemma ReportedAt(s: TS, k: Pk)
    requires AccountedAt(s, k)
    ensures CommitAt(s, k)
  {}

  /** The three reported differences, applied to RUNNING with every skip, give CANDIDATE. */
  lemma CommitCopiesCandidate(s: TS)
    requires Accounted(s)
    ensures CommitRunning(s) == Contents(s.cand)
  {
    var r := CommitRunning(s);
    forall k ensures (k in r <==> k in s.cand) && (k in r ==> r[k] == s.cand[k].data) {
      assert AccountedAt(s, k);
      ReportedAt(s, k);
    }
  }

  /** No insert of the commit meets a duplicate key, and no update or delete misses its row. */
  lemma CommitMeetsNoConflict(s: TS)
    requires Accounted(s)
    ensures GetDeleted(s).Keys <= s.run.Keys
    ensures GetCreated(s).Keys !! (s.run - GetDeleted(s).Keys).Keys
    ensures GetUpdated(s).Keys <= (s.run - GetDeleted(s).Keys).Keys
  {
    forall k | k in GetDeleted(s) ensures k in s.run { assert AccountedAt(s, k); }
    forall k | k in GetCreated(s) || k in GetUpdated(s) ensures CommitAt(s, k) {
      assert AccountedAt(s, k);
      ReportedAt(s, k);
    }
  }

  /** Commit makes RUNNING equal to CANDIDATE and leaves everything clean. */
  lemma CommitIsExact(s: TS)
    requires Accounted(s)
    ensures Clean(Commit(s)) && Commit(s).run == Contents(s.cand)
  {
    CommitCopiesCandidate(s);
    var t := Commit(s);
    forall k | k in s.cand ensures k in t.cand && t.cand[k] == CandRow(s.cand[k].data, false, false) {
      assert AccountedAt(s, k);
    }
    assert t.cand.Keys == s.cand.Keys;
    assert t.cand == Mirror(t.run);
    forall k ensures k !in t.del { assert AccountedAt(s, k); }
  }

  /** The same rows with every dirty bit up: what is recorded, apart from what commit and abort will look at. */
  function Lit(s: TS): TS { s.(cr := true, up := true, dl := true) }

  /** Everything that a commit of these rows has to change is looked at. */
  predicate CommitSeesAt(s: TS, k: Pk) {
    && (k in s.del && k !in s.cand ==> s.dl)
    && (k in s.cand && s.cand[k].c && k !in s.run ==> s.cr)
    && (k in s.cand && s.cand[k].c && k in s.run ==>
          (s.cr && s.dl) || (!s.cr && !s.dl && s.cand[k].data == s.run[k]))
    && (k in s.cand && s.cand[k].u && k in s.run ==> s.up || s.cand[k].data == s.run[k])
  }

  ghost predicate CommitSees(s: TS) {
    forall k :: CommitSeesAt(s, k)
  }

  /** No write of the commit fails, and RUNNING becomes CANDIDATE. */
  ghost predicate CommitWorks(s: TS) {
    && GetDeleted(s).Keys <= s.run.Keys
    && GetCreated(s).Keys !! (s.run - GetDeleted(s).Keys).Keys
    && GetUpdated(s).Keys <= (s.run - GetDeleted(s).Keys).Keys
    && CommitRunning(s) == Contents(s.cand)
  }

  predicate CommitWorksAt(s: TS, k: Pk) {
    var left := s.run - GetDeleted(s).Keys;
    var r := CommitRunning(s);
    && (k in GetDeleted(s) ==> k in s.run) && !(k in GetCreated(s) && k in left) && (k in GetUpdated(s) ==> k in left)
    && (k in r <==> k in s.cand) && (k in r ==> r[k] == s.cand[k].data)
  }

  lemma CommitWorksAtIff(s: TS, k: Pk)
    requires AccountedAt(Lit(s), k)
    ensures CommitWorksAt(s, k) <==> CommitSeesAt(s, k)
  {}

  lemma WorksAtEveryKey(s: TS)
    requires forall k :: CommitWorksAt(s, k)
    ensures CommitWorks(s)
  {
    var r := CommitRunning(s);
    forall k | k in GetDeleted(s).Keys ensures k in s.run { assert CommitWorksAt(s, k); }
    forall k | k in GetCreated(s).Keys ensures k !in (s.run - GetDeleted(s).Keys).Keys { assert CommitWorksAt(s, k); }
    forall k | k in GetUpdated(s).Keys ensures k in (s.run - GetDeleted(s).Keys).Keys { assert CommitWorksAt(s, k); }
    forall k ensures (k in r <==> k in Contents(s.cand)) && (k in r ==> r[k] == Contents(s.cand)[k]) {
      assert CommitWorksAt(s, k);
    }
    assert r == Contents(s.cand);
  }

  /** With all changes recorded but any of the marks missing: exactly when a commit is still right. */
  lemma CommitWorksIff(s: TS)
    requires Accounted(Lit(s))
    ensures CommitWorks(s) <==> CommitSees(s)
  {
    forall k ensures CommitWorksAt(s, k) <==> CommitSeesAt(s, k) {
      assert AccountedAt(Lit(s), k);
      CommitWorksAtIff(s, k);
    }
    if CommitWorks(s) {
      forall k ensures CommitWorksAt(s, k) { assert k in CommitRunning(s) <==> k in Contents(s.cand); }
    }
    if CommitSees(s) {
      forall k ensures CommitWorksAt(s, k) { assert CommitSeesAt(s, k); }
      WorksAtEveryKey(s);
    }
  }

  /** A row that RUNNING does not have, a row of RUNNING that is gone, and a row that differs from RUNNING. */
  predicate HasExtra(s: TS) { exists k :: k in s.cand && k !in s.run }

  predicate HasGap(s: TS) { exists k :: k in s.run && k !in s.cand }

  predicate HasChange(s: TS) { exists k :: k in s.cand && k in s.run && s.cand[k].data != s.run[k] }

  /** Each of them is looked at, also by a mark that the abort has itself made before. */
  predicate AbortSees(s: TS, again: bool) {
    (HasExtra(s) ==> s.cr) && (HasGap(s) ==> s.dl || HasExtra(s)) && (HasChange(s) ==> s.up || (HasGap(s) && again))
  }

  lemma CopyDeleteIs(s: TS, again: bool)
    ensures var t := CopyModified(s, Delete, again).s;
            && t.run == s.run && t.del == s.del && t.up == s.up && t.dl == (s.dl || (s.cr && HasExtra(s)))
            && (forall k :: k in t.cand <==> k in s.cand && (s.cr ==> k in s.run))
            && (forall k :: k in t.cand ==> t.cand[k] == s.cand[k])
  {
    var extra := set k | k in s.cand && k !in s.run;
    assert forall k :: k in extra <==> k in s.cand && k !in s.run;
    if k :| k in extra { assert HasExtra(s); }
  }

  /** With CANDIDATE_DEL holding the rows of RUNNING that are gone. */
  predicate GapIsSaved(s: TS, k: Pk) {
    (k in s.del && k !in s.cand <==> k in s.run && k !in s.cand) && (k in s.del ==> k in s.run && s.del[k] == s.run[k])
  }

  lemma CopyCreateIs(s: TS, again: bool)
    requires forall k :: GapIsSaved(s, k)
    ensures var t := CopyModified(s, Create, again).s;
            && t.run == s.run && t.up == (s.up || (s.dl && HasGap(s) && again))
            && (forall k :: k in t.cand <==> k in s.cand || (s.dl && k in s.run))
            && (forall k :: k in t.cand ==>
                  t.cand[k] == if k in s.cand then s.cand[k] else CandRow(s.run[k], false, false))
  {
    var back := map k | k in s.del && k !in s.cand :: CandRow(s.del[k], false, false);
    forall k ensures k in back <==> k in s.run && k !in s.cand { assert GapIsSaved(s, k); }
    forall k | k in back ensures back[k] == CandRow(s.run[k], false, false) { assert GapIsSaved(s, k); }
    if k :| k in back { assert HasGap(s); }
  }

  predicate ChangeIsFlagged(s: TS, k: Pk) {
    k in s.cand && k in s.run && s.cand[k].data != s.run[k] ==> s.cand[k].c || s.cand[k].u
  }

  lemma CopyUpdateIs(s: TS, again: bool)
    requires forall k :: ChangeIsFlagged(s, k)
    ensures var t := CopyModified(s, Update, again).s;
            && t.run == s.run && t.cand.Keys == s.cand.Keys
            && forall k :: k in t.cand ==>
                 t.cand[k].data == if s.up && k in s.run then s.run[k] else s.cand[k].data
  {
    var undo := map k | k in s.cand && k in s.run && (s.cand[k].c || s.cand[k].u) :: CandRow(s.run[k], false, false);
    var t := CopyModified(s, Update, again).s;
    assert t.cand == if s.up then s.cand + undo else s.cand;
    forall k | k in t.cand ensures t.cand[k].data == if s.up && k in s.run then s.run[k] else s.cand[k].data {
      assert ChangeIsFlagged(s, k);
    }
  }

  /** The rows and marks before the last of the three copies. */
  lemma TwoCopiesAre(s: TS, again: bool)
    requires Accounted(Lit(s))
    ensures var t := CopyModified(CopyModified(s, Delete, again).s, Create, again).s;
            var saves := s.dl || (s.cr && HasExtra(s));
            && t.run == s.run && t.up == (s.up || (saves && HasGap(s) && again))
            && (forall k :: k in t.cand <==> (k in s.cand && (s.cr ==> k in s.run)) || (saves && k in s.run))
            && (forall k :: k in t.cand ==>
                  t.cand[k] == if k in s.cand then s.cand[k] else CandRow(s.run[k], false, false))
  {
    CopyDeleteIs(s, again);
    var t := CopyModified(s, Delete, again).s;
    forall k ensures GapIsSaved(t, k) { assert AccountedAt(Lit(s), k); }
    assert HasGap(s) <==> HasGap(t) by {
      if k :| k in s.run && k !in s.cand { assert k !in t.cand; }
      if k :| k in t.run && k !in t.cand { assert k !in s.cand; }
    }
    CopyCreateIs(t, again);
  }

  /** CANDIDATE after the three copies, key by key. */
  ghost predicate Restored(s: TS, t: TS, again: bool) {
    var saves := s.dl || (s.cr && HasExtra(s));
    var up := s.up || (saves && HasGap(s) && again);
    && t.run == s.run
    && (forall k :: k in t.cand <==> (k in s.cand && (s.cr ==> k in s.run)) || (saves && k in s.run))
    && (forall k :: k in t.cand ==>
          t.cand[k].data == if k in s.run && (up || k !in s.cand) then s.run[k] else s.cand[k].data)
  }

  /** The copies of an abort in the order of the transaction manager; only a create mark asks for `again`. */
  function ThreeCopies(s: TS, again: bool): TS {
    CopyModified(CopyModified(CopyModified(s, Delete, again).s, Create, again).s, Update, again).s
  }

  lemma ThreeCopiesRestore(s: TS, again: bool)
    requires Accounted(Lit(s))
    ensures Restored(s, ThreeCopies(s, again), again)
  {
    TwoCopiesAre(s, again);
    var t := CopyModified(CopyModified(s, Delete, again).s, Create, again).s;
    forall k ensures ChangeIsFlagged(t, k) { assert AccountedAt(Lit(s), k); }
    CopyUpdateIs(t, again);
  }

  lemma RestoredIsRight(s: TS, t: TS, again: bool)
    requires Restored(s, t, again) && AbortSees(s, again)
    ensures Contents(t.cand) == s.run
  {
    forall k ensures k in t.cand <==> k in s.run {}
    forall k | k in t.cand ensures t.cand[k].data == s.run[k] {}
  }

  lemma RightIsSeen(s: TS, t: TS, again: bool)
    requires Restored(s, t, again) && Contents(t.cand) == s.run
    ensures AbortSees(s, again)
  {
    assert forall k :: k in t.cand <==> k in Contents(t.cand);
    if k :| k in s.cand && k !in s.run { assert k !in t.cand; }
    if k :| k in s.run && k !in s.cand { assert k in t.cand; }
    if k :| k in s.cand && k in s.run && s.cand[k].data != s.run[k] { assert Contents(t.cand)[k] == t.cand[k].data; }
  }

  lemma FinishKeepsContents(s: TS)
    ensures Finish(s).run == s.run && Contents(Finish(s).cand) == Contents(s.cand)
  {}

  /**
   * With all changes recorded but any of the marks missing: exactly when an abort still restores CANDIDATE, with its
   * copies in the order of the transaction manager.
   */
  lemma AbortWorksIff(s: TS, again: bool)
    requires Accounted(Lit(s))
    ensures var t := Finish(ThreeCopies(s, again));
            t.run == s.run && (Contents(t.cand) == s.run <==> AbortSees(s, again))
  {
    ThreeCopiesRestore(s, again);
    var t := ThreeCopies(s, again);
    FinishKeepsContents(t);
    if AbortSees(s, again) { RestoredIsRight(s, t, again); }
    if Contents(t.cand) == s.run { RightIsSeen(s, t, again); }
  }

  // --------------------------------------------------------------- all runs

  /** Exactly what keeps an edit from making the record of changes wrong. */
  ghost predicate Fine(exact: bool, s: TS, e: Edit, again: bool) {
    match e
    case DoCreate(k, _) => k !in s.cand ==> !MissesUpdate(s, k, again)
    case DoUpdate(p, f) => exact ==> KeepsIdentity(s, p, f)
    case DoDelete(p) => Hits(s.cand, p) != {} ==> NoStraddle(s, p)
  }

  /** An edit keeps the difference exact, or every change accounted for, if and only if it is fine. */
  lemma EditKeepsIff(exact: bool, s: TS, e: Edit, again: bool)
    requires Kept(exact, s)
    ensures Kept(exact, EditOut(s, e, again).s) <==> Fine(exact, s, e, again)
  {
    KeptMeans(s);
    KeptMeans(EditOut(s, e, again).s);
    match e
    case DoCreate(k, d) => if k !in s.cand { CreateKeepsIff(exact, s, k, d, again); }
    case DoUpdate(p, f) => if exact { UpdateKeepsTrackedIff(s, p, f); } else { UpdateKeepsAccounted(s, p, f); }
    case DoDelete(p) => if Hits(s.cand, p) != {} { DeleteKeepsIff(exact, s, p); }
  }

  /** An edit, with what its mark does if it is a creation; the copies of an abort likewise. */
  datatype Call =
    | DoEdit(e: Edit, again: bool)
    | DoAbort(steps: seq<(Op, bool)>)
    | DoCommit

  function Step(s: TS, c: Call): TS {
    match c
    case DoEdit(e, again) => EditOut(s, e, again).s
    case DoAbort(steps) => Abort(s, steps)
    case DoCommit => Commit(s)
  }

  ghost predicate Allowed(exact: bool, s: TS, c: Call) {
    match c
    case DoEdit(e, again) => Fine(exact, s, e, again)
    case DoAbort(steps) => HasStep(steps, Create) && HasStep(steps, Update) && HasStep(steps, Delete)
    case DoCommit => true
  }

  ghost predicate AllowedRun(exact: bool, s: TS, calls: seq<Call>)
    decreases calls
  {
    calls != [] ==> Allowed(exact, s, calls[0]) && AllowedRun(exact, Step(s, calls[0]), calls[1..])
  }

  function RunCalls(s: TS, calls: seq<Call>): TS
    decreases calls
  {
    if calls == [] then s else RunCalls(Step(s, calls[0]), calls[1..])
  }

  lemma StepKeeps(exact: bool, s: TS, c: Call)
    requires Kept(exact, s) && Allowed(exact, s, c)
    ensures Kept(exact, Step(s, c))
  {
    KeptIsRecoverable(exact, s);
    match c
    case DoEdit(e, again) => EditKeepsIff(exact, s, e, again);
    case DoAbort(steps) =>
      AbortIsExact(s, steps);
      CleanIsKept(exact, Abort(s, steps));
    case DoCommit =>
      CommitIsExact(s);
      CleanIsKept(exact, Commit(s));
  }

  lemma {:induction false} KeptOnEveryRun(exact: bool, s: TS, calls: seq<Call>)
    requires Kept(exact, s) && AllowedRun(exact, s, calls)
    ensures Kept(exact, RunCalls(s, calls))
    decreases calls
  {
    if calls != [] {
      StepKeeps(exact, s, calls[0]);
      KeptOnEveryRun(exact, Step(s, calls[0]), calls[1..]);
    }
  }

  /** On every run of edits, aborts and commits the tracked difference is the real one. */
  lemma TrackedOnEveryRun(s: TS, calls: seq<Call>)
    requires Tracked(s) && AllowedRun(true, s, calls)
    ensures Tracked(RunCalls(s, calls))
  {
    KeptMeans(s);
    KeptOnEveryRun(true, s, calls);
    KeptMeans(RunCalls(s, calls));
  }

  /** On every run, with updates of any column outside the primary key, the next commit and the next abort are exact. */
  lemma ExactEndOnEveryRun(s: TS, calls: seq<Call>, steps: seq<(Op, bool)>)
    requires Accounted(s) && AllowedRun(false, s, calls)
    requires HasStep(steps, Create) && HasStep(steps, Update) && HasStep(steps, Delete)
    ensures var t := RunCalls(s, calls);
            && Clean(Abort(t, steps)) && Abort(t, steps).run == t.run
            && Clean(Commit(t)) && Commit(t).run == Contents(t.cand)
  {
    KeptMeans(s);
    KeptOnEveryRun(false, s, calls);
    KeptIsRecoverable(false, RunCalls(s, calls));
    AbortIsExact(RunCalls(s, calls), steps);
    CommitIsExact(RunCalls(s, calls));
  }

  /** An unconditional non-truncating delete reports an error with the rows gone and nothing saved for an abort. */
  lemma DeleteAllCannotBeUndone(s: TS)
    requires Accounted(s) && s.cand != map[]
    ensures DeleteAllRecords(s).rc == GeneralError
    ensures Recoverable(DeleteAllRecords(s).s) <==> s.run == map[]
  {
    var t := DeleteAllRecords(s).s;
    forall k ensures RecoverableAt(t, k) <==> k !in s.run {}
  }
}
