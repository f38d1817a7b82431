/**
 * Runs that mix global mode, virtual mode and any number of VTNs.  The rows of one VTN in one table are tracked by that
 * VTN's pairs or by global marks, whether the pairs are cached or have overflowed to the database; what holds for
 * every VTN of a table holds for the table in global mode.
 */
module StoreRuns {
  import opened Common
  import opened DirtyCache
  import opened ChangeTracking
  import opened OdbcManager
  import opened ConfigStore
  import opened StoreEnd

  // ------------------------------------------- what every VTN and the whole table see

  /** The rows of every VTN in every table are tracked, or accounted for, under that VTN's answers. */
  ghost predicate AllKept(exact: bool, own: Owner, st: Store) {
    && Sound(st.d)
    && forall t :: t in st.tables ==>
         t < NUM_TABLES && forall name: string :: Kept(exact, ViewIn(own, st, t, Vtn(name)))
  }

  /** No dirty pair of the table is hidden from a lookup without a VTN name. */
  ghost predicate GlobalSees(d: Dirty, t: nat) {
    forall o: Op, p: Pair :: p in d.vdb.Get(o) && p.0 == t ==> IsDirty(d, o, t, Global)
  }

  lemma NoOverflowIsSeen(d: Dirty, t: nat)
    requires NoOverflow(d)
    ensures GlobalSees(d, t)
  {}

  predicate SameAt(a: TS, b: TS, k: Pk) {
    && (k in a.run <==> k in b.run) && (k in a.run ==> a.run[k] == b.run[k])
    && (k in a.cand <==> k in b.cand) && (k in a.cand ==> a.cand[k] == b.cand[k])
    && (k in a.del <==> k in b.del) && (k in a.del ==> a.del[k] == b.del[k])
  }

  /** The answers that the rows of key k need. */
  predicate Covers(b: TS, k: Pk) {
    && (k in b.del ==> b.dl)
    && (k in b.cand && b.cand[k].c ==> b.cr)
    && (k in b.cand && (b.cand[k].u || (b.cand[k].c && k in b.run)) ==> b.up)
  }

  lemma TransferAt(exact: bool, a: TS, b: TS, k: Pk)
    requires KeptAt(exact, a, k) && SameAt(a, b, k) && Covers(b, k)
    ensures KeptAt(exact, b, k)
  {}

  lemma CoveredAt(exact: bool, a: TS, k: Pk)
    requires KeptAt(exact, a, k)
    ensures Covers(a, k)
  {}

  lemma ViewsAgreeAt(own: Owner, st: Store, t: nat, mode: Mode, k: Pk)
    requires t in st.tables && !mode.Vtn?
    ensures SameAt(ViewIn(own, st, t, mode), ViewIn(own, st, t, Vtn(own(k))), k)
  {}

  /** What is recorded for all VTNs of a table is recorded for the table, whatever global mode sees of the marks. */
  lemma VtnsMakeLit(exact: bool, own: Owner, st: Store, t: nat, mode: Mode)
    requires AllKept(exact, own, st) && t in st.tables && !mode.Vtn?
    ensures Kept(exact, Lit(ViewIn(own, st, t, mode)))
  {
    var s := Lit(ViewIn(own, st, t, mode));
    forall k ensures KeptAt(exact, s, k) {
      var v := ViewIn(own, st, t, Vtn(own(k)));
      assert KeptAt(exact, v, k);
      ViewsAgreeAt(own, st, t, mode, k);
      TransferAt(exact, v, s, k);
    }
  }

  /** Global mode has, for every change in the table, the mark that it will look for. */
  ghost predicate GlobalCovers(own: Owner, st: Store, t: nat)
    requires t in st.tables
  {
    forall k :: Covers(ViewIn(own, st, t, Global), k)
  }

  /** What holds for all VTNs of a table holds for the table in global mode exactly if global mode has those marks. */
  lemma VtnsMakeGlobalIff(exact: bool, own: Owner, st: Store, t: nat)
    requires AllKept(exact, own, st) && t in st.tables
    ensures Kept(exact, ViewIn(own, st, t, Global)) <==> GlobalCovers(own, st, t)
  {
    var s := ViewIn(own, st, t, Global);
    VtnsMakeLit(exact, own, st, t, Global);
    forall k ensures KeptAt(exact, s, k) <==> Covers(s, k) {
      assert KeptAt(exact, Lit(s), k);
      if KeptAt(exact, s, k) { CoveredAt(exact, s, k); }
      if Covers(s, k) { TransferAt(exact, Lit(s), s, k); }
    }
  }

  /** So it is when no dirty pair of the table is hidden by an overflow. */
  lemma SeeingCovers(exact: bool, own: Owner, st: Store, t: nat)
    requires AllKept(exact, own, st) && t in st.tables && GlobalSees(st.d, t)
    ensures GlobalCovers(own, st, t) && Kept(exact, ViewIn(own, st, t, Global))
  {
    var s := ViewIn(own, st, t, Global);
    forall k ensures Covers(s, k) {
      var v := ViewIn(own, st, t, Vtn(own(k)));
      assert KeptAt(exact, v, k);
      CoveredAt(exact, v, k);
      ViewsAgreeAt(own, st, t, Global, k);
      forall o: Op ensures IsDirty(st.d, o, t, Vtn(own(k))) ==> IsDirty(st.d, o, t, Global) {
        AnswersOf(st.d, (t, own(k)), o);
      }
    }
    VtnsMakeGlobalIff(exact, own, st, t);
  }

  // ------------------------------------------------------- edits keep all of it

  /** A creation in global or virtual mode: its update mark is not missed, and a returning record is recognised. */
  predicate CreateFine(exact: bool, own: Owner, st: Store, t: nat, k: Pk, d: Data, mode: Mode)
    requires t in st.tables
  {
    var v := ViewIn(own, st, t, Vtn(own(k)));
    k !in v.cand ==>
      && !MissesUpdate(v, k, Again(st.d, t, mode))
      && (exact && k in v.del && v.del[k].ext == d.ext ==> IsDirty(st.d, Delete, t, mode))
  }

  /** Exactly what keeps an edit right for every VTN, in each mode. */
  ghost predicate FineIn(exact: bool, own: Owner, st: Store, t: nat, e: Edit, mode: Mode)
    requires t in st.tables
  {
    if e.DoCreate? && !mode.Vtn? then CreateFine(exact, own, st, t, e.k, e.d, mode)
    else Fine(exact, ViewIn(own, st, t, mode), e, Again(st.d, t, mode))
  }

  /** A global mark is seen by every VTN. */
  lemma GlobalMarkSeenByVtn(d: Dirty, t: nat, op: Op, mode: Mode, name: string, o: Op)
    requires Sound(d) && t < NUM_TABLES && !mode.Vtn?
    ensures var e := Mark(d, t, op, mode, true, true).0;
            && Sound(e)
            && (IsDirty(e, o, t, Vtn(name)) <==>
                  IsDirty(d, o, t, Vtn(name)) || o == op || (op == Create && o == Update && t in d.g.dl))
  {
    var e := Mark(d, t, op, mode, true, true).0;
    assert e.v == d.v && e.vdb == d.vdb && e.over == d.over;
  }

  /** Where new rows and flags can come from. */
  lemma EditTouches(exact: bool, s: TS, e: Edit, again: bool, k: Pk)
    requires Kept(exact, s)
    ensures var o := EditOut(s, e, again);
            && (k in o.s.del ==> k in s.del || o.marked == Some(Delete))
            && (k in o.s.cand && o.s.cand[k].c ==> (k in s.cand && s.cand[k].c) || o.marked == Some(Create))
            && (k in o.s.cand && (o.s.cand[k].u || (o.s.cand[k].c && k in s.run)) ==>
                  || (k in s.cand && (s.cand[k].u || (s.cand[k].c && k in s.run))) || o.marked == Some(Update)
                  || (e.DoCreate? && e.k == k && k !in s.cand && k in s.del))
            && o.s.run == s.run
  {
    assert KeptAt(exact, s, k);
    match e
    case DoCreate(j, d) => if j !in s.cand { CreateDoes(s, j, d, again); }
    case DoUpdate(p, f) =>
    case DoDelete(p) => if Hits(s.cand, p) != {} { DeleteDoes(s, p); }
  }

  predicate Bit(s: TS, op: Op) {
    match op
    case Create => s.cr
    case Update => s.up
    case Delete => s.dl
  }

  /** Answers that only grow, and have the edit's own, still cover key k. */
  lemma CoversAfter(exact: bool, s: TS, v: TS, e: Edit, again: bool, v1: TS, k: Pk)
    requires Kept(exact, s) && SameAt(s, v, k) && Covers(v, k) && SameAt(EditOut(s, e, again).s, v1, k)
    requires forall op: Op :: Bit(v, op) || EditOut(s, e, again).marked == Some(op) ==> Bit(v1, op)
    requires e.DoCreate? && e.k == k && k !in s.cand && k in s.del ==> v1.up
    ensures Covers(v1, k)
  {
    EditTouches(exact, s, e, again, k);
    assert (Bit(v, Create) ==> Bit(v1, Create)) && (Bit(v, Update) ==> Bit(v1, Update));
    assert Bit(v, Delete) ==> Bit(v1, Delete);
  }

  /** What a VTN's answers are after a global edit. */
  lemma GlobalEditBits(own: Owner, st: Store, t: nat, e: Edit, mode: Mode, name: string, op: Op)
    requires Sound(st.d) && t in st.tables && t < NUM_TABLES && !mode.Vtn?
    ensures var o := EditOut(ViewIn(own, st, t, mode), e, Again(st.d, t, mode));
            var st1 := EditStore(st, t, e, mode);
            && t in st1.tables
            && (Bit(ViewIn(own, st, t, Vtn(name)), op) || o.marked == Some(op) ==>
                  Bit(ViewIn(own, st1, t, Vtn(name)), op))
            && (o.marked == Some(Create) && t in st.d.g.dl ==> ViewIn(own, st1, t, Vtn(name)).up)
  {
    EditIsPutBack(own, st, t, e, mode) by { assert Within(own, e, mode); }
    var o := EditOut(ViewIn(own, st, t, mode), e, Again(st.d, t, mode));
    if o.marked.Some? {
      GlobalMarkSeenByVtn(st.d, t, o.marked.value, mode, name, op);
      GlobalMarkSeenByVtn(st.d, t, o.marked.value, mode, name, Update);
    }
  }

  /** The rows that an update or a delete leaves do not depend on the marks. */
  lemma RowsIgnoreMarks(s: TS, e: Edit, again: bool)
    requires !e.DoCreate?
    ensures RowsOf(EditOut(s, e, again).s) == RowsOf(EditOut(Lit(s), e, again).s)
    ensures EditOut(s, e, again).marked == EditOut(Lit(s), e, again).marked
  {
    match e
    case DoUpdate(p, f) => if Hits(s.cand, p) != {} { UpdateDoes(s, p, f); UpdateDoes(Lit(s), p, f); }
    case DoDelete(p) => if Hits(s.cand, p) != {} { DeleteDoes(s, p); DeleteDoes(Lit(s), p); }
  }

  /** The marks of the lit view say what the rows alone say. */
  lemma FineIgnoresMarks(exact: bool, s: TS, e: Edit, again: bool)
    requires !e.DoCreate?
    ensures Fine(exact, s, e, again) <==> Fine(exact, Lit(s), e, again)
  {
    match e
    case DoUpdate(p, f) => assert KeepsIdentity(s, p, f) <==> KeepsIdentity(Lit(s), p, f);
    case DoDelete(p) =>
      assert forall k :: OldRow(s, k) <==> OldRow(Lit(s), k);
      assert NoStraddle(s, p) <==> NoStraddle(Lit(s), p);
  }

  /** After an update or a delete in global mode a VTN's view is right at a key exactly if the lit view is. */
  lemma PlainEditAt(exact: bool, own: Owner, st: Store, t: nat, e: Edit, mode: Mode, k: Pk)
    requires AllKept(exact, own, st) && t in st.tables && !mode.Vtn? && !e.DoCreate?
    ensures var st1 := EditStore(st, t, e, mode);
            && t in st1.tables
            && (KeptAt(exact, ViewIn(own, st1, t, Vtn(own(k))), k) <==>
                KeptAt(exact, EditOut(Lit(ViewIn(own, st, t, mode)), e, Again(st.d, t, mode)).s, k))
  {
    var again := Again(st.d, t, mode);
    var s, v := ViewIn(own, st, t, mode), ViewIn(own, st, t, Vtn(own(k)));
    var st1 := EditStore(st, t, e, mode);
    var v1, l1 := ViewIn(own, st1, t, Vtn(own(k))), EditOut(Lit(s), e, again).s;
    VtnsMakeLit(exact, own, st, t, mode);
    assert KeptAt(exact, v, k);
    CoveredAt(exact, v, k);
    ViewsAgreeAt(own, st, t, mode, k);
    EditShows(own, st, t, e, mode) by { assert Within(own, e, mode); }
    ViewsAgreeAt(own, st1, t, mode, k);
    RowsIgnoreMarks(s, e, again);
    forall op: Op ensures Bit(v, op) || EditOut(Lit(s), e, again).marked == Some(op) ==> Bit(v1, op) {
      GlobalEditBits(own, st, t, e, mode, own(k), op);
    }
    CoversAfter(exact, Lit(s), v, e, again, v1, k);
    StaysLit(s, e, again);
    if KeptAt(exact, l1, k) { TransferAt(exact, l1, v1, k); }
    if KeptAt(exact, v1, k) { TransferAt(exact, v1, l1, k); }
  }

  lemma StaysLit(s: TS, e: Edit, again: bool)
    ensures var t := EditOut(Lit(s), e, again).s; t.cr && t.up && t.dl
  {}

  /** A creation in global mode leaves every other key as its VTN sees it. */
  lemma CreateSameElsewhere(own: Owner, st: Store, t: nat, k: Pk, d: Data, mode: Mode, j: Pk)
    requires Sound(st.d) && t < NUM_TABLES && t in st.tables && !mode.Vtn? && (j != k || k in st.tables[t].cand)
    ensures var st1 := EditStore(st, t, DoCreate(k, d), mode);
            t in st1.tables && SameAt(ViewIn(own, st, t, Vtn(own(j))), ViewIn(own, st1, t, Vtn(own(j))), j)
  {
    var e, s := DoCreate(k, d), ViewIn(own, st, t, mode);
    MergeOnly(own, st.tables[t], mode);
    ViewsAgreeAt(own, st, t, mode, j);
    EditShows(own, st, t, e, mode) by { assert Within(own, e, mode); }
    ViewsAgreeAt(own, EditStore(st, t, e, mode), t, mode, j);
    if k !in s.cand { CreateDoes(s, k, d, Again(st.d, t, mode)); }
  }

  /** So every other key is as right as before. */
  lemma CreateElsewhere(exact: bool, own: Owner, st: Store, t: nat, k: Pk, d: Data, mode: Mode, j: Pk)
    requires AllKept(exact, own, st) && t in st.tables && !mode.Vtn? && (j != k || k in st.tables[t].cand)
    ensures var st1 := EditStore(st, t, DoCreate(k, d), mode);
            t in st1.tables && KeptAt(exact, ViewIn(own, st1, t, Vtn(own(j))), j)
  {
    var e, v := DoCreate(k, d), ViewIn(own, st, t, Vtn(own(j)));
    assert KeptAt(exact, v, j);
    CoveredAt(exact, v, j);
    CreateSameElsewhere(own, st, t, k, d, mode, j);
    GlobalEditBits(own, st, t, e, mode, own(j), Create);
    GlobalEditBits(own, st, t, e, mode, own(j), Update);
    GlobalEditBits(own, st, t, e, mode, own(j), Delete);
    TransferAt(exact, v, ViewIn(own, EditStore(st, t, e, mode), t, Vtn(own(j))), j);
  }

  /** What a VTN sees of a creation in global mode at the key created. */
  lemma CreateSeen(own: Owner, st: Store, t: nat, k: Pk, d: Data, mode: Mode)
    requires Sound(st.d) && t in st.tables && t < NUM_TABLES && !mode.Vtn? && k !in st.tables[t].cand
    ensures var st1 := EditStore(st, t, DoCreate(k, d), mode);
            var v := ViewIn(own, st, t, Vtn(own(k)));
            && t in st1.tables
            && var v1 := ViewIn(own, st1, t, Vtn(own(k)));
            var back := IsDirty(st.d, Delete, t, mode) && k in v.del && v.del[k].ext == d.ext;
            && k in v1.cand && v1.cand[k] == CandRow(d, !back, back)
            && (k in v1.run <==> k in v.run) && (k in v.run ==> v1.run[k] == v.run[k])
            && (k in v1.del <==> k in v.del && !back) && (k in v1.del ==> v1.del[k] == v.del[k])
            && v1.cr && v1.up == (v.up || Again(st.d, t, mode)) && v1.dl == v.dl
  {
    var e := DoCreate(k, d);
    var s := ViewIn(own, st, t, mode);
    var st1 := EditStore(st, t, e, mode);
    MergeOnly(own, st.tables[t], mode);
    ViewsAgreeAt(own, st, t, mode, k);
    EditShows(own, st, t, e, mode) by { assert Within(own, e, mode); }
    ViewsAgreeAt(own, st1, t, mode, k);
    CreateDoes(s, k, d, Again(st.d, t, mode));
    EditIsPutBack(own, st, t, e, mode);
    GlobalMarkSeenByVtn(st.d, t, Create, mode, own(k), Create);
    GlobalMarkSeenByVtn(st.d, t, Create, mode, own(k), Update);
    GlobalMarkSeenByVtn(st.d, t, Create, mode, own(k), Delete);
  }

  /** At the key created: exactly the condition. */
  lemma CreateAtIff(exact: bool, own: Owner, st: Store, t: nat, k: Pk, d: Data, mode: Mode)
    requires AllKept(exact, own, st) && t in st.tables && !mode.Vtn? && k !in st.tables[t].cand
    ensures var st1 := EditStore(st, t, DoCreate(k, d), mode);
            && t in st1.tables
            && (KeptAt(exact, ViewIn(own, st1, t, Vtn(own(k))), k) <==> CreateFine(exact, own, st, t, k, d, mode))
  {
    CreateSeen(own, st, t, k, d, mode);
    assert KeptAt(exact, ViewIn(own, st, t, Vtn(own(k))), k);
  }

  /** A view of one VTN is right if it is so at the VTN's own keys. */
  lemma OwnKeysSuffice(exact: bool, own: Owner, st: Store, t: nat, name: string)
    requires t in st.tables && forall k :: own(k) == name ==> KeptAt(exact, ViewIn(own, st, t, Vtn(name)), k)
    ensures Kept(exact, ViewIn(own, st, t, Vtn(name)))
  {
    forall k ensures KeptAt(exact, ViewIn(own, st, t, Vtn(name)), k) {}
  }

  /** An edit in global or virtual mode keeps every VTN of its table right if and only if it is fine. */
  lemma GlobalEditKeepsIff(exact: bool, own: Owner, st: Store, t: nat, e: Edit, mode: Mode)
    requires AllKept(exact, own, st) && t in st.tables && !mode.Vtn?
    ensures t in EditStore(st, t, e, mode).tables
    ensures (forall name: string :: Kept(exact, ViewIn(own, EditStore(st, t, e, mode), t, Vtn(name)))) <==>
            FineIn(exact, own, st, t, e, mode)
  {
    var st1 := EditStore(st, t, e, mode);
    var s := ViewIn(own, st, t, mode);
    MergeOnly(own, st.tables[t], mode);
    if e.DoCreate? {
      forall k | k != e.k || e.k in s.cand ensures KeptAt(exact, ViewIn(own, st1, t, Vtn(own(k))), k) {
        CreateElsewhere(exact, own, st, t, e.k, e.d, mode, k);
      }
      if e.k !in s.cand { CreateAtIff(exact, own, st, t, e.k, e.d, mode); }
      ViewsAgreeAt(own, st, t, mode, e.k);
      GlobalCreateSplits(exact, own, st1, t, e.k, FineIn(exact, own, st, t, e, mode));
    } else {
      var l1 := EditOut(Lit(s), e, Again(st.d, t, mode)).s;
      forall k ensures KeptAt(exact, ViewIn(own, st1, t, Vtn(own(k))), k) <==> KeptAt(exact, l1, k) {
        PlainEditAt(exact, own, st, t, e, mode, k);
      }
      VtnsMakeLit(exact, own, st, t, mode);
      EditKeepsIff(exact, Lit(s), e, Again(st.d, t, mode));
      FineIgnoresMarks(exact, s, e, Again(st.d, t, mode));
      KeysDecide(exact, own, st1, t, l1);
    }
  }

  lemma GlobalCreateSplits(exact: bool, own: Owner, st1: Store, t: nat, k: Pk, fine: bool)
    requires t in st1.tables
    requires forall j :: j != k ==> KeptAt(exact, ViewIn(own, st1, t, Vtn(own(j))), j)
    requires KeptAt(exact, ViewIn(own, st1, t, Vtn(own(k))), k) <==> fine
    ensures (forall name: string :: Kept(exact, ViewIn(own, st1, t, Vtn(name)))) <==> fine
  {
    if fine {
      forall name: string ensures Kept(exact, ViewIn(own, st1, t, Vtn(name))) {
        forall j | own(j) == name ensures KeptAt(exact, ViewIn(own, st1, t, Vtn(name)), j) {
          assert KeptAt(exact, ViewIn(own, st1, t, Vtn(own(j))), j);
        }
        OwnKeysSuffice(exact, own, st1, t, name);
      }
    } else {
      assert !Kept(exact, ViewIn(own, st1, t, Vtn(own(k))));
    }
  }

  lemma KeysDecide(exact: bool, own: Owner, st1: Store, t: nat, l1: TS)
    requires t in st1.tables
    requires forall k :: KeptAt(exact, ViewIn(own, st1, t, Vtn(own(k))), k) <==> KeptAt(exact, l1, k)
    ensures (forall name: string :: Kept(exact, ViewIn(own, st1, t, Vtn(name)))) <==> Kept(exact, l1)
  {
    if Kept(exact, l1) {
      forall name: string ensures Kept(exact, ViewIn(own, st1, t, Vtn(name))) {
        forall j | own(j) == name ensures KeptAt(exact, ViewIn(own, st1, t, Vtn(name)), j) {
          assert KeptAt(exact, l1, j);
        }
        OwnKeysSuffice(exact, own, st1, t, name);
      }
    }
    if forall name: string :: Kept(exact, ViewIn(own, st1, t, Vtn(name))) {
      forall k ensures KeptAt(exact, l1, k) {
        assert Kept(exact, ViewIn(own, st1, t, Vtn(own(k))));
        assert KeptAt(exact, ViewIn(own, st1, t, Vtn(own(k))), k);
      }
    }
  }

  /** An edit in any mode keeps every VTN of every table right if and only if it is fine, overflow or not. */
  lemma EditKeepsAllIff(exact: bool, own: Owner, st: Store, t: nat, e: Edit, mode: Mode)
    requires AllKept(exact, own, st) && t in st.tables && Within(own, e, mode)
    ensures AllKept(exact, own, EditStore(st, t, e, mode)) <==> FineIn(exact, own, st, t, e, mode)
  {
    var st1 := EditStore(st, t, e, mode);
    EditIsPutBack(own, st, t, e, mode);
    SoundAfterEdit(own, st, t, e, mode);
    forall x: nat, name: string | x in st1.tables && (x != t || (mode.Vtn? && name != mode.name))
      ensures Kept(exact, ViewIn(own, st1, x, Vtn(name)))
    { EditElsewhere(own, st, t, e, mode, (x, name)); }
    if mode.Vtn? {
      EditShows(own, st, t, e, mode);
      EditKeepsIff(exact, ViewIn(own, st, t, mode), e, Again(st.d, t, mode));
      assert Kept(exact, ViewIn(own, st1, t, Vtn(mode.name))) <==> FineIn(exact, own, st, t, e, mode);
    } else {
      GlobalEditKeepsIff(exact, own, st, t, e, mode);
    }
  }

  lemma SoundAfterEdit(own: Owner, st: Store, t: nat, e: Edit, mode: Mode)
    requires Sound(st.d) && t in st.tables && t < NUM_TABLES
    ensures Sound(EditStore(st, t, e, mode).d)
  {
    var o := EditOut(View(st.tables[t], st.d, t, mode), e, Again(st.d, t, mode));
    if o.marked.Some? {
      if mode.Vtn? {
        VtnMarkIsLocal(st.d, (t, mode.name), o.marked.value, (t, ""), Create);
      } else {
        GlobalMarkSeenByVtn(st.d, t, o.marked.value, mode, "", Create);
      }
    }
  }

  // ------------------------------------------------------------- every run

  /** What the callers keep to, and the situations in which the marks would fall short. */
  ghost predicate AllowedCall(exact: bool, own: Owner, st: Store, c: StoreCall, mode: Mode) {
    match c
    case EditTable(t, e) =>
      t in st.tables ==> Within(own, e, mode) && FineIn(exact, own, st, t, e, mode)
    case AbortAll(steps) => EndAllowed(own, st, mode) && CoversAll(st, steps)
    case CommitAll => EndAllowed(own, st, mode)
  }

  /** A VTN's clear is safe; a global end has the marks for all changes. */
  ghost predicate EndAllowed(own: Owner, st: Store, mode: Mode) {
    match mode
    case Vtn(name) => ClearSafe(st.d, name)
    case Global => forall t :: t in st.tables ==> GlobalCovers(own, st, t)
    case Virtual => false
  }

  lemma RestIsKept(exact: bool, own: Owner, r: Rows, d: Dirty, t: nat, name: string)
    requires AtRest(Only(own, r, Vtn(name))) || AtRest(r)
    ensures Kept(exact, View(Only(own, r, Vtn(name)), d, t, Vtn(name)))
  {
    var q := Only(own, r, Vtn(name));
    assert AtRest(r) ==> q.cand == Mirror(q.run) && q.del == map[];
    var s := TS(q.run, q.cand, q.del, false, false, false);
    CleanIsKept(exact, s);
    MoreDirtIsHarmless(exact, s, View(q, d, t, Vtn(name)));
  }

  lemma EndKeepsAll(exact: bool, own: Owner, st: Store, st1: Store, mode: Mode)
    requires AllKept(exact, own, st) && EndedIn(own, st, st1, mode) && !mode.Virtual?
    ensures AllKept(exact, own, st1)
  {
    forall t: nat, name: string | t in st1.tables ensures Kept(exact, ViewIn(own, st1, t, Vtn(name))) {
      if mode.Global? {
        MergeOnly(own, st1.tables[t], mode);
        RestIsKept(exact, own, st1.tables[t], st1.d, t, name);
      } else if name == mode.name {
        RestIsKept(exact, own, st1.tables[t], st1.d, t, name);
      } else {
        assert Kept(exact, ViewIn(own, st, t, Vtn(name)));
      }
    }
  }

  /** Every VTN's views can be undone, and so can the whole table's where global mode sees all pairs. */
  lemma KeptIsReady(exact: bool, own: Owner, st: Store, mode: Mode)
    requires AllKept(exact, own, st) && EndAllowed(own, st, mode)
    ensures Ready(own, st, mode) && forall t :: t in st.tables ==> Accounted(ViewIn(own, st, t, mode))
  {
    forall t | t in st.tables ensures Recoverable(ViewIn(own, st, t, mode)) && Accounted(ViewIn(own, st, t, mode)) {
      if mode.Global? { VtnsMakeGlobalIff(exact, own, st, t); }
      KeptIsRecoverable(exact, ViewIn(own, st, t, mode));
    }
  }

  lemma CallKeepsAll(exact: bool, own: Owner, st: Store, c: StoreCall, mode: Mode)
    requires AllKept(exact, own, st) && AllowedCall(exact, own, st, c, mode)
    ensures AllKept(exact, own, Apply(own, st, c, mode))
  {
    match c
    case EditTable(t, e) => if t in st.tables { EditKeepsAllIff(exact, own, st, t, e, mode); }
    case AbortAll(steps) =>
      KeptIsReady(exact, own, st, mode);
      AbortAllIsExact(own, st, steps, mode);
      EndKeepsAll(exact, own, st, Apply(own, st, c, mode), mode);
    case CommitAll =>
      KeptIsReady(exact, own, st, mode);
      CommitAllIsExact(own, st, mode);
      EndKeepsAll(exact, own, st, Apply(own, st, c, mode), mode);
  }

  ghost predicate AllowedRun(exact: bool, own: Owner, st: Store, calls: seq<(Mode, StoreCall)>)
    decreases calls
  {
    calls != [] ==>
      && AllowedCall(exact, own, st, calls[0].1, calls[0].0)
      && AllowedRun(exact, own, Apply(own, st, calls[0].1, calls[0].0), calls[1..])
  }

  function RunStore(own: Owner, st: Store, calls: seq<(Mode, StoreCall)>): Store
    decreases calls
  {
    if calls == [] then st else RunStore(own, Apply(own, st, calls[0].1, calls[0].0), calls[1..])
  }

  lemma {:induction false} AllKeptOnEveryRun(exact: bool, own: Owner, st: Store, calls: seq<(Mode, StoreCall)>)
    requires AllKept(exact, own, st) && AllowedRun(exact, own, st, calls)
    ensures AllKept(exact, own, RunStore(own, st, calls))
    decreases calls
  {
    if calls != [] {
      CallKeepsAll(exact, own, st, calls[0].1, calls[0].0);
      AllKeptOnEveryRun(exact, own, Apply(own, st, calls[0].1, calls[0].0), calls[1..]);
    }
  }

  /**
   * On every run that mixes edits, commits and aborts in global mode, edits in virtual mode and edits, commits and
   * aborts of any number of VTNs, with overflowing caches: in every table the tracked difference of every VTN is the
   * real one, and that of the whole table is exactly if global mode has the marks for all its changes.
   */
  lemma EveryRunIsTracked(own: Owner, st: Store, calls: seq<(Mode, StoreCall)>, t: nat, name: string)
    requires AllKept(true, own, st) && AllowedRun(true, own, st, calls) && t in RunStore(own, st, calls).tables
    ensures var st1 := RunStore(own, st, calls);
            && Tracked(ViewIn(own, st1, t, Vtn(name)))
            && (Tracked(ViewIn(own, st1, t, Global)) <==> GlobalCovers(own, st1, t))
  {
    AllKeptOnEveryRun(true, own, st, calls);
    var st1 := RunStore(own, st, calls);
    KeptMeans(ViewIn(own, st1, t, Vtn(name)));
    KeptMeans(ViewIn(own, st1, t, Global));
    VtnsMakeGlobalIff(true, own, st1, t);
  }

  /**
   * And on every run, with updates of any column outside the primary key, the next commit or abort in global or VTN
   * mode is exact.
   */
  lemma EveryRunEndsExactly(own: Owner, st: Store, calls: seq<(Mode, StoreCall)>, steps: seq<(nat, Op)>, mode: Mode)
    requires AllKept(false, own, st) && AllowedRun(false, own, st, calls)
    requires EndAllowed(own, RunStore(own, st, calls), mode) && CoversAll(RunStore(own, st, calls), steps)
    ensures var st1 := RunStore(own, st, calls);
            && EndedIn(own, st1, Apply(own, st1, AbortAll(steps), mode), mode)
            && EndedIn(own, st1, Apply(own, st1, CommitAll, mode), mode)
            && forall t :: t in st1.tables ==>
                 var r := Only(own, st1.tables[t], mode);
                 && Only(own, Apply(own, st1, AbortAll(steps), mode).tables[t], mode).run == r.run
                 && Only(own, Apply(own, st1, CommitAll, mode).tables[t], mode).run == Contents(r.cand)
  {
    AllKeptOnEveryRun(false, own, st, calls);
    var st1 := RunStore(own, st, calls);
    KeptIsReady(false, own, st1, mode);
    AbortAllIsExact(own, st1, steps, mode);
    CommitAllIsExact(own, st1, mode);
  }

  // ------------------------------------------------------- one mode at a time

  /** An edit keeps its own mode's view right if and only if it is fine there, whatever the other modes have marked. */
  lemma EditInModeKeepsIff(exact: bool, own: Owner, st: Store, t: nat, e: Edit, mode: Mode)
    requires t in st.tables && t < NUM_TABLES && SoundIn(st.d, mode) && Within(own, e, mode)
    requires Kept(exact, ViewIn(own, st, t, mode))
    ensures t in EditStore(st, t, e, mode).tables
    ensures Kept(exact, ViewIn(own, EditStore(st, t, e, mode), t, mode)) <==>
            Fine(exact, ViewIn(own, st, t, mode), e, Again(st.d, t, mode))
  {
    EditShows(own, st, t, e, mode);
    EditKeepsIff(exact, ViewIn(own, st, t, mode), e, Again(st.d, t, mode));
  }

  ghost predicate GlobalKept(exact: bool, own: Owner, st: Store) {
    forall t :: t in st.tables ==> t < NUM_TABLES && Kept(exact, ViewIn(own, st, t, Global))
  }

  ghost predicate GlobalAllowed(exact: bool, own: Owner, st: Store, c: StoreCall) {
    match c
    case EditTable(t, e) => t in st.tables ==> Fine(exact, ViewIn(own, st, t, Global), e, Again(st.d, t, Global))
    case AbortAll(steps) => CoversAll(st, steps)
    case CommitAll => true
  }

  lemma GlobalCallKeeps(exact: bool, own: Owner, st: Store, c: StoreCall)
    requires GlobalKept(exact, own, st) && GlobalAllowed(exact, own, st, c)
    ensures GlobalKept(exact, own, Apply(own, st, c, Global))
  {
    var st1 := Apply(own, st, c, Global);
    match c
    case EditTable(t, e) =>
      if t in st.tables {
        assert Within(own, e, Global);
        EditInModeKeepsIff(exact, own, st, t, e, Global);
        EditIsPutBack(own, st, t, e, Global);
        var o := EditOut(ViewIn(own, st, t, Global), e, Again(st.d, t, Global));
        forall x | x in st1.tables && x != t ensures ViewIn(own, st1, x, Global) == ViewIn(own, st, x, Global) {
          PutBackOtherTable(own, st, t, o, Global, x);
        }
      }
    case AbortAll(steps) =>
      forall t | t in st.tables ensures Recoverable(ViewIn(own, st, t, Global)) {
        KeptIsRecoverable(exact, ViewIn(own, st, t, Global));
      }
      AbortAllIsExact(own, st, steps, Global);
      GlobalRestIsKept(exact, own, st1);
    case CommitAll =>
      forall t | t in st.tables ensures Accounted(ViewIn(own, st, t, Global)) {
        KeptIsRecoverable(exact, ViewIn(own, st, t, Global));
      }
      CommitAllIsExact(own, st, Global);
      GlobalRestIsKept(exact, own, st1);
  }

  lemma GlobalRestIsKept(exact: bool, own: Owner, st: Store)
    requires forall t :: t in st.tables ==> t < NUM_TABLES && AtRest(Only(own, st.tables[t], Global))
    ensures GlobalKept(exact, own, st)
  {
    forall t | t in st.tables ensures Kept(exact, ViewIn(own, st, t, Global)) {
      var q := Only(own, st.tables[t], Global);
      var s := TS(q.run, q.cand, q.del, false, false, false);
      CleanIsKept(exact, s);
      MoreDirtIsHarmless(exact, s, ViewIn(own, st, t, Global));
    }
  }

  ghost predicate GlobalAllowedRun(exact: bool, own: Owner, st: Store, calls: seq<StoreCall>)
    decreases calls
  {
    calls != [] ==>
      && GlobalAllowed(exact, own, st, calls[0])
      && GlobalAllowedRun(exact, own, Apply(own, st, calls[0], Global), calls[1..])
  }

  function GlobalRun(own: Owner, st: Store, calls: seq<StoreCall>): Store
    decreases calls
  {
    if calls == [] then st else GlobalRun(own, Apply(own, st, calls[0], Global), calls[1..])
  }

  /**
   * In global mode alone, and from any state of the VTN caches and their database table, even a wrong one: every
   * table's tracked difference is the real one on every run over all tables.
   */
  lemma {:induction false} EveryTableIsTracked(exact: bool, own: Owner, st: Store, calls: seq<StoreCall>)
    requires GlobalKept(exact, own, st) && GlobalAllowedRun(exact, own, st, calls)
    ensures GlobalKept(exact, own, GlobalRun(own, st, calls))
    decreases calls
  {
    if calls != [] {
      GlobalCallKeeps(exact, own, st, calls[0]);
      EveryTableIsTracked(exact, own, Apply(own, st, calls[0], Global), calls[1..]);
    }
  }

  /** Without VTN pairs a creation in global mode is always fine: the one rule the marks need is kept. */
  lemma GlobalCreateIsFine(exact: bool, own: Owner, st: Store, t: nat, k: Pk, d: Data)
    requires t in st.tables && Kept(exact, ViewIn(own, st, t, Global)) && st.d.v == NO_PAIRS
    ensures Fine(exact, ViewIn(own, st, t, Global), DoCreate(k, d), Again(st.d, t, Global))
  {
    assert KeptAt(exact, ViewIn(own, st, t, Global), k);
  }
}
