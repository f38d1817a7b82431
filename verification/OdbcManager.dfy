/**
 * DalOdbcMgr: the object whose methods keep the dirty caches, the dirty tables in the database and the
 * configuration tables, each proved against the functions of DirtyCache and ChangeTracking.
 * A database write is a parameter saying whether it succeeds where the code reacts to a failure.
 */
module OdbcManager {
  import opened Common
  import opened DirtyCache
  import opened ChangeTracking

  /** The ru_, ca_ and ca_del_ tables of one table index. */
  datatype Rows = Rows(run: map<Pk, Data>, cand: map<Pk, CandRow>, del: map<Pk, Data>)

  function RowsOf(s: TS): Rows {
    Rows(s.run, s.cand, s.del)
  }

  /** The VTN that a primary key belongs to; VTN mode works on the rows of one VTN. */
  type Owner = Pk -> string

  predicate In(own: Owner, k: Pk, mode: Mode) {
    mode.Vtn? ==> own(k) == mode.name
  }

  function OnlyMap<V>(own: Owner, m: map<Pk, V>, mode: Mode): map<Pk, V> {
    map k | k in m && In(own, k, mode) :: m[k]
  }

  function MergeMap<V>(own: Owner, m: map<Pk, V>, part: map<Pk, V>, mode: Mode): map<Pk, V> {
    map k | k in m.Keys + part.Keys && (if In(own, k, mode) then k in part else k in m)
      :: if In(own, k, mode) then part[k] else m[k]
  }

  /** The rows that a mode works on, and a table in which these rows have been replaced. */
  function Only(own: Owner, r: Rows, mode: Mode): Rows {
    Rows(OnlyMap(own, r.run, mode), OnlyMap(own, r.cand, mode), OnlyMap(own, r.del, mode))
  }

  function Merge(own: Owner, r: Rows, part: Rows, mode: Mode): Rows {
    Rows(MergeMap(own, r.run, part.run, mode), MergeMap(own, r.cand, part.cand, mode),
         MergeMap(own, r.del, part.del, mode))
  }

  /** One table as change tracking sees it in a mode. */
  function View(r: Rows, d: Dirty, t: nat, mode: Mode): TS {
    TS(r.run, r.cand, r.del, IsDirty(d, Create, t, mode), IsDirty(d, Update, t, mode), IsDirty(d, Delete, t, mode))
  }

  /** The mark of a call; w1, w2: whether its database writes succeed. */
  function MarkOf(d: Dirty, t: nat, marked: Option<Op>, mode: Mode, w1: bool, w2: bool): (Dirty, Rc) {
    match marked
    case None => (d, Success)
    case Some(op) => Mark(d, t, op, mode, w1, w2)
  }

  /** What a call leaves: a failed mark ends it with the statement on CANDIDATE done and nothing after it. */
  datatype Result = Result(rows: Rows, d: Dirty, rc: Rc)

  function Complete(r: Rows, d: Dirty, t: nat, o: Out, mode: Mode, w1: bool, w2: bool): Result {
    var (d1, rc) := MarkOf(d, t, o.marked, mode, w1, w2);
    if rc == Success then Result(RowsOf(o.s), d1, o.rc) else Result(Rows(r.run, o.s.cand, r.del), d1, GeneralError)
  }

  function Flagged(m: map<Pk, CandRow>): set<Pk> {
    set k | k in m && (m[k].c || m[k].u)
  }

  class DalOdbcMgr {
    // the database
    var tables: map<nat, Rows>
    var cfgTblDirty: PerOp<set<nat>>
    var vtnCfgTblDirty: PerOp<set<Pair>>
    // the caches
    var createDirty: set<nat>
    var updateDirty: set<nat>
    var deleteDirty: set<nat>
    var createVtnDirty: set<Pair>
    var updateVtnDirty: set<Pair>
    var deleteVtnDirty: set<Pair>
    var maxCacheReachedCr: bool
    var maxCacheReachedUp: bool
    var maxCacheReachedDl: bool
    const maxCacheLimit: nat
    const own: Owner

    ghost function State(): (d: Dirty)
      reads this
    {
      Dirty(PerOp(createDirty, updateDirty, deleteDirty), cfgTblDirty,
            PerOp(createVtnDirty, updateVtnDirty, deleteVtnDirty), vtnCfgTblDirty,
            PerOp(maxCacheReachedCr, maxCacheReachedUp, maxCacheReachedDl), maxCacheLimit)
    }

    /** A manager on a database with any contents: empty caches, no overflow flag up. */
    constructor (limit: nat, owner: Owner, db: map<nat, Rows>, global: PerOp<set<nat>>, vtn: PerOp<set<Pair>>)
      ensures State() == Fresh(limit).(gdb := global, vdb := vtn) && tables == db && own == owner
    {
      own := owner;
      tables, cfgTblDirty, vtnCfgTblDirty := db, global, vtn;
      createDirty, updateDirty, deleteDirty := {}, {}, {};
      createVtnDirty, updateVtnDirty, deleteVtnDirty := {}, {}, {};
      maxCacheReachedCr, maxCacheReachedUp, maxCacheReachedDl := false, false, false;
      maxCacheLimit := limit;
    }

    // ---------------------------------------------------------------- lookups

    method IsTblInGlobalDirty(op: Op, t: nat) returns (rc: Rc)
      ensures rc == if t in State().g.Get(op) then Success else RecordNotFound
    {
      match op
      case Delete => rc := if t in deleteDirty then Success else RecordNotFound;
      case Create => rc := if t in createDirty then Success else RecordNotFound;
      case Update => rc := if t in updateDirty then Success else RecordNotFound;
    }

    /** The walk over a VTN cache when no VTN name is given. */
    method FindTable(s: set<Pair>, t: nat) returns (rc: Rc)
      ensures rc == if AnyPair(s, t) then Success else RecordNotFound
    {
      rc := RecordNotFound;
      var rest := s;
      while rest != {}
        invariant rest <= s
        invariant rc == RecordNotFound
        invariant forall p :: p in s && p !in rest ==> p.0 != t
        decreases rest
      {
        var p :| p in rest;
        if p.0 == t {
          rc := Success;
          break;
        }
        rest := rest - {p};
      }
    }

    method IsTblInVtnDirty(op: Op, t: nat, mode: Mode) returns (rc: Rc)
      ensures mode.Vtn? ==> rc == if InVtnDirty(State(), op, (t, mode.name)) then Success else RecordNotFound
      ensures !mode.Vtn? ==> rc == if AnyPair(State().v.Get(op), t) then Success else RecordNotFound
    {
      var cache, exceeded;
      match op {
        case Delete => cache, exceeded := deleteVtnDirty, maxCacheReachedDl;
        case Create => cache, exceeded := createVtnDirty, maxCacheReachedCr;
        case Update => cache, exceeded := updateVtnDirty, maxCacheReachedUp;
      }
      if mode.Vtn? {
        var pair := (t, mode.name);
        rc := if pair in cache then Success else RecordNotFound;
        if rc == RecordNotFound && exceeded {
          rc := if pair in vtnCfgTblDirty.Get(op) then Success else RecordNotFound;
        }
      } else {
        rc := FindTable(cache, t);
      }
    }

    method IsTblDirty(op: Op, t: nat, mode: Mode) returns (rc: Rc)
      ensures rc == if IsDirty(State(), op, t, mode) then Success else RecordNotFound
    {
      if mode.Vtn? {
        rc := IsTblInVtnDirty(op, t, mode);
        if rc == RecordNotFound { rc := IsTblInGlobalDirty(op, t); }
      } else {
        rc := IsTblInGlobalDirty(op, t);
        if rc == RecordNotFound { rc := IsTblInVtnDirty(op, t, mode); }
      }
    }

    // ---------------------------------------------------------------- marking

    /** SetCfgTblDirtyInDB. */
    method SetCfgTblDirtyInDB(op: Op, t: nat, flag: bool, w: bool) returns (rc: Rc)
      modifies this`cfgTblDirty
      ensures rc == if w && t < NUM_TABLES then Success else GeneralError
      ensures cfgTblDirty == if rc != Success then old(cfgTblDirty)
                             else old(cfgTblDirty).Put(op, if flag then old(cfgTblDirty).Get(op) + {t}
                                                           else old(cfgTblDirty).Get(op) - {t})
    {
      if t >= NUM_TABLES || !w { return GeneralError; }
      if flag {
        cfgTblDirty := cfgTblDirty.Put(op, cfgTblDirty.Get(op) + {t});
      } else {
        cfgTblDirty := cfgTblDirty.Put(op, cfgTblDirty.Get(op) - {t});
      }
      rc := Success;
    }

    method SetTableDirtyForGblAndVirMode(t: nat, op: Op, w1: bool, w2: bool) returns (rc: Rc)
      modifies this
      ensures (State(), rc) == MarkGlobal(old(State()), t, op, w1, w2)
      ensures tables == old(tables)
    {
      rc := Success;
      if op == Delete {
        if t !in deleteDirty {
          rc := SetCfgTblDirtyInDB(op, t, true, w1);
          if rc != Success { return GeneralError; }
          deleteDirty := deleteDirty + {t};
        }
      } else if op == Create {
        if t !in createDirty {
          rc := SetCfgTblDirtyInDB(op, t, true, w1);
          if rc != Success { return GeneralError; }
          createDirty := createDirty + {t};
        }
        if t in deleteDirty {
          if t !in updateDirty {
            rc := SetCfgTblDirtyInDB(Update, t, true, w2);
            if rc != Success { return GeneralError; }
            updateDirty := updateDirty + {t};
          }
        }
      } else {
        if t !in updateDirty {
          rc := SetCfgTblDirtyInDB(op, t, true, w1);
          if rc != Success { return GeneralError; }
          updateDirty := updateDirty + {t};
        }
      }
    }

    /** The cache half of one pass; known: the pair was cached already. */
    method InsertPair(pair: Pair, op: Op) returns (known: bool, exceeded: bool)
      modifies this
      ensures known == (pair in old(State()).v.Get(op))
      ensures exceeded == (!known && |old(State()).v.Get(op)| >= maxCacheLimit)
      ensures State() == (if known then old(State()) else CachePair(old(State()), pair, op))
      ensures tables == old(tables)
    {
      known, exceeded := false, false;
      match op
      case Delete =>
        if pair in deleteVtnDirty { known := true; }
        else if |deleteVtnDirty| < maxCacheLimit { deleteVtnDirty := deleteVtnDirty + {pair}; }
        else { maxCacheReachedDl, exceeded := true, true; }
      case Update =>
        if pair in updateVtnDirty { known := true; }
        else if |updateVtnDirty| < maxCacheLimit { updateVtnDirty := updateVtnDirty + {pair}; }
        else { maxCacheReachedUp, exceeded := true, true; }
      case Create =>
        if pair in createVtnDirty { known := true; }
        else if |createVtnDirty| < maxCacheLimit { createVtnDirty := createVtnDirty + {pair}; }
        else { maxCacheReachedCr, exceeded := true, true; }
    }

    /** One pass of SetTableDirtyForVtnMode. */
    method SetPairDirty(pair: Pair, op: Op, w: bool) returns (rc: Rc, wrote: bool)
      modifies this
      ensures VtnMark(State(), wrote, rc) == MarkPair(old(State()), pair, op, w)
      ensures tables == old(tables)
    {
      var known, exceeded := InsertPair(pair, op);
      if known { return Success, false; }
      if exceeded && pair in vtnCfgTblDirty.Get(op) { return Success, false; }
      if !w || pair.0 >= NUM_TABLES { return GeneralError, false; }
      vtnCfgTblDirty := vtnCfgTblDirty.Put(op, vtnCfgTblDirty.Get(op) + {pair});
      return Success, true;
    }

    method SetTableDirtyForVtnMode(pair: Pair, op: Op, w1: bool, w2: bool) returns (rc: Rc)
      modifies this
      ensures (State(), rc) == MarkVtn(old(State()), pair, op, w1, w2)
      ensures tables == old(tables)
    {
      var wrote;
      rc, wrote := SetPairDirty(pair, op, w1);
      if wrote && op == Create {
        if pair in deleteVtnDirty && pair !in updateVtnDirty {
          rc, wrote := SetPairDirty(pair, Update, w2);
        }
      }
    }

    method SetTableDirty(t: nat, op: Op, mode: Mode, w1: bool, w2: bool) returns (rc: Rc)
      modifies this
      ensures (State(), rc) == Mark(old(State()), t, op, mode, w1, w2)
      ensures tables == old(tables)
    {
      if mode.Vtn? {
        rc := SetTableDirtyForVtnMode((t, mode.name), op, w1, w2);
      } else {
        rc := SetTableDirtyForGblAndVirMode(t, op, w1, w2);
      }
    }

    // --------------------------------------------------------------- clearing

    /** The erase loop over all tables. */
    method ErasePairs(name: string)
      modifies this`createVtnDirty, this`updateVtnDirty, this`deleteVtnDirty
      ensures createVtnDirty == DropNameInRange(old(createVtnDirty), name)
      ensures updateVtnDirty == DropNameInRange(old(updateVtnDirty), name)
      ensures deleteVtnDirty == DropNameInRange(old(deleteVtnDirty), name)
    {
      ghost var c, u, e := createVtnDirty, updateVtnDirty, deleteVtnDirty;
      var t := 0;
      DropBelowSteps(c, name, t);
      DropBelowSteps(u, name, t);
      DropBelowSteps(e, name, t);
      while t <= NUM_TABLES
        invariant t <= NUM_TABLES + 1
        invariant createVtnDirty == DropBelow(c, name, t)
        invariant updateVtnDirty == DropBelow(u, name, t)
        invariant deleteVtnDirty == DropBelow(e, name, t)
      {
        DropBelowSteps(c, name, t);
        DropBelowSteps(u, name, t);
        DropBelowSteps(e, name, t);
        createVtnDirty := createVtnDirty - {(t, name)};
        updateVtnDirty := updateVtnDirty - {(t, name)};
        deleteVtnDirty := deleteVtnDirty - {(t, name)};
        t := t + 1;
      }
    }

    method ClearDirtyTblCacheInVtnMode(name: string)
      modifies this
      ensures State() == ClearVtnCache(old(State()), name) && tables == old(tables)
    {
      ErasePairs(name);
      if |createVtnDirty| < maxCacheLimit { maxCacheReachedCr := false; }
      if |deleteVtnDirty| < maxCacheLimit { maxCacheReachedDl := false; }
      if |updateVtnDirty| < maxCacheLimit { maxCacheReachedUp := false; }
    }

    /** ClearAllDirtyTblInDB and then ClearDirtyTblCache, as at the end of a commit or an abort. */
    method ClearDirty(mode: Mode)
      modifies this
      ensures State() == match mode
                         case Vtn(name) => ClearVtn(old(State()), name)
                         case Global => ClearAll(old(State()))
                         case Virtual => old(State())
      ensures tables == old(tables)
    {
      match mode
      case Vtn(name) =>
        vtnCfgTblDirty := PerOp(DropName(vtnCfgTblDirty.cr, name), DropName(vtnCfgTblDirty.up, name),
                                DropName(vtnCfgTblDirty.dl, name));
        ClearDirtyTblCacheInVtnMode(name);
      case Global =>
        cfgTblDirty, vtnCfgTblDirty := NO_TABLES, NO_PAIRS;
        maxCacheReachedCr, maxCacheReachedUp, maxCacheReachedDl := false, false, false;
        createDirty, updateDirty, deleteDirty := {}, {}, {};
        createVtnDirty, updateVtnDirty, deleteVtnDirty := {}, {}, {};
      case Virtual =>
    }

    method ClearGlobalDirtyTblCacheAndDB(t: nat, op: Op, w: bool) returns (rc: Rc)
      modifies this
      ensures (State(), rc) == ClearOne(old(State()), t, op, w) && tables == old(tables)
    {
      rc := Success;
      if op == Create {
        if t in createDirty {
          rc := SetCfgTblDirtyInDB(op, t, false, w);
          if rc != Success { return; }
          createDirty := createDirty - {t};
        }
      } else if op == Update {
        if t in updateDirty {
          rc := SetCfgTblDirtyInDB(op, t, false, w);
          if rc != Success { return; }
          updateDirty := updateDirty - {t};
        }
      } else {
        if t in deleteDirty {
          rc := SetCfgTblDirtyInDB(op, t, false, w);
          if rc != Success { return; }
          deleteDirty := deleteDirty - {t};
        }
      }
    }

    /** The insert loop over the records of one operation; a read error ends it after `count` records. */
    static method Fetch<T(==)>(records: set<T>, count: nat) returns (cache: set<T>, left: nat, ok: bool)
      ensures cache <= records && (ok <==> |records| <= count) && (ok ==> cache == records)
      ensures ok ==> left == count - |records|
    {
      cache, left := {}, count;
      var rest := records;
      while rest != {}
        invariant rest <= records && cache == records - rest
        invariant left <= count && |rest| + (count - left) == |records|
        decreases rest
      {
        if left == 0 { return cache, left, false; }
        var r :| r in rest;
        cache, rest, left := cache + {r}, rest - {r}, left - 1;
      }
      ok := true;
    }

    /** The loop over a cursor with the records of all operations. */
    static method ReadCursor<T(==)>(db: PerOp<set<T>>, count: nat) returns (cache: PerOp<set<T>>, ok: bool)
      ensures ok <==> |db.cr| + |db.up| + |db.dl| <= count
      ensures ok ==> cache == db
      ensures cache.cr <= db.cr && cache.up <= db.up && cache.dl <= db.dl
    {
      cache := PerOp({}, {}, {});
      var left, s;
      s, left, ok := Fetch(db.cr, count);
      cache := cache.(cr := s);
      if !ok { return; }
      s, left, ok := Fetch(db.up, left);
      cache := cache.(up := s);
      if !ok { return; }
      s, left, ok := Fetch(db.dl, left);
      cache := cache.(dl := s);
    }

    /** UpdateDirtyTblCacheFromDB: clear and refill the global cache, then the VTN cache; a read error stops it. */
    method UpdateDirtyTblCacheFromDB(gReads: nat, vReads: nat) returns (rc: Rc)
      modifies this
      ensures rc == Success ==> State() == Reload(old(State()))
      ensures rc == Success || rc == GeneralError
      ensures var g, v := State().gdb, State().vdb;
              rc == Success <==>
              |g.cr| + |g.up| + |g.dl| <= gReads && |v.cr| + |v.up| + |v.dl| <= vReads
      ensures State().gdb == old(State()).gdb && State().vdb == old(State()).vdb && State().over == old(State()).over
      ensures forall op: Op :: State().g.Get(op) <= State().gdb.Get(op)
      ensures State().v == old(State()).v || forall op: Op :: State().v.Get(op) <= State().vdb.Get(op)
      ensures tables == old(tables)
    {
      var g, ok := ReadCursor(cfgTblDirty, gReads);
      createDirty, updateDirty, deleteDirty := g.cr, g.up, g.dl;
      if !ok { return GeneralError; }
      var v;
      v, ok := ReadCursor(vtnCfgTblDirty, vReads);
      createVtnDirty, updateVtnDirty, deleteVtnDirty := v.cr, v.up, v.dl;
      rc := if ok then Success else GeneralError;
    }

    // ------------------------------------------------------------ the records

    /** A statement on CANDIDATE and its mark. */
    method StoreAndMark(t: nat, rows: Rows, op: Op, mode: Mode, w1: bool, w2: bool) returns (rc: Rc)
      modifies this
      ensures tables == old(tables)[t := rows] && State() == Mark(old(State()), t, op, mode, w1, w2).0
      ensures rc == if Mark(old(State()), t, op, mode, w1, w2).1 == Success then Success else GeneralError
      ensures rc == Success ==> IsDirty(State(), op, t, mode)
    {
      tables := tables[t := rows];
      rc := SetTableDirty(t, op, mode, w1, w2);
      MarkIsSeen(old(State()), t, op, mode, w1, w2);
      if rc != Success { rc := GeneralError; }
    }

    /** DeleteRecords on CANDIDATE_DEL with a WHERE clause: skipped when no delete is marked. */
    method DeleteFromCandidateDel(t: nat, p: Pred, mode: Mode) returns (rc: Rc)
      requires t in tables
      modifies this`tables
      ensures var rows := old(tables[t]);
              && tables == old(tables)[t := if IsDirty(State(), Delete, t, mode) then rows.(del := Without(rows.del, p))
                                            else rows]
              && rc == if IsDirty(State(), Delete, t, mode) && Matching(rows.del, p) != map[] then Success
                       else RecordNotFound
    {
      var rows := tables[t];
      rc := IsTblDirty(Delete, t, mode);
      if rc != Success {
        tables := tables[t := rows];
        return;
      }
      rc := if Matching(rows.del, p) == map[] then RecordNotFound else Success;
      tables := tables[t := rows.(del := Without(rows.del, p))];
    }

    /** CopyMatchingRecords from RUNNING to CANDIDATE_DEL. */
    method CopyMatchingRecords(t: nat, p: Pred) returns (ok: bool)
      requires t in tables
      modifies this`tables
      ensures var rows := old(tables[t]);
              var copied := Matching(rows.run, p);
              && ok == (copied.Keys * rows.del.Keys == {})
              && tables == old(tables)[t := if ok then rows.(del := rows.del + copied) else rows]
    {
      var rows := tables[t];
      var copied := Matching(rows.run, p);
      ok := copied.Keys * rows.del.Keys == {};
      tables := tables[t := if ok then rows.(del := rows.del + copied) else rows];
    }

    method CreateRecord(t: nat, k: Pk, d: Data, mode: Mode, w1: bool, w2: bool) returns (rc: Rc)
      requires t in tables
      modifies this
      ensures var o := ChangeTracking.CreateRecord(old(View(tables[t], State(), t, mode)), k, d,
                                                   old(Again(State(), t, mode)));
              var r := Complete(old(tables[t]), old(State()), t, o, mode, w1, w2);
              rc == r.rc && tables == old(tables)[t := r.rows] && State() == r.d
    {
      var rows := tables[t];
      var recreate := false;
      rc := IsTblDirty(Delete, t, mode);
      if rc == Success {
        recreate := k in rows.del && rows.del[k].ext == d.ext;
      }
      if k in rows.cand {
        tables := tables[t := rows];
        return RecordAlreadyExists;
      }
      rc := InsertCandidate(t, k, d, recreate, mode, w1, w2);
    }

    /** The INSERT, its mark and, for a recreated record, the cleanup in CANDIDATE_DEL. */
    method InsertCandidate(t: nat, k: Pk, d: Data, recreate: bool, mode: Mode, w1: bool, w2: bool) returns (rc: Rc)
      requires t in tables && (recreate ==> k in tables[t].del && IsDirty(State(), Delete, t, mode))
      modifies this
      ensures var (d1, rc1) := Mark(old(State()), t, Create, mode, w1, w2);
              var rows := old(tables[t]);
              && State() == d1 && rc == (if rc1 == Success then Success else GeneralError)
              && tables == old(tables)[t := Rows(rows.run, rows.cand[k := CandRow(d, !recreate, recreate)],
                                                 if recreate && rc1 == Success then rows.del - {k} else rows.del)]
    {
      var rows0 := tables[t];
      rc := StoreAndMark(t, rows0.(cand := rows0.cand[k := CandRow(d, !recreate, recreate)]), Create, mode, w1, w2);
      if rc != Success { return; }
      if recreate {
        CreateMarkKeepsDelete(old(State()), t, mode, w1, w2);
        var onKey: Pred := (j, e: Data) => j == k;
        assert Without(rows0.del, onKey) == rows0.del - {k} && k in Matching(rows0.del, onKey);
        rc := DeleteFromCandidateDel(t, onKey, mode);
      }
    }

    method UpdateRecords(t: nat, p: Pred, f: Setter, mode: Mode, w1: bool, w2: bool) returns (rc: Rc)
      requires t in tables
      modifies this
      ensures var o := ChangeTracking.UpdateRecords(old(View(tables[t], State(), t, mode)), p, f);
              var r := Complete(old(tables[t]), old(State()), t, o, mode, w1, w2);
              rc == r.rc && tables == old(tables)[t := r.rows] && State() == r.d
    {
      var rows := tables[t];
      if Hits(rows.cand, p) == {} {
        tables := tables[t := rows];
        return RecordNotFound;
      }
      rc := StoreAndMark(t, rows.(cand := Updated(rows.cand, p, f)), Update, mode, w1, w2);
    }

    method DeleteRecords(t: nat, p: Pred, mode: Mode, w1: bool, w2: bool) returns (rc: Rc)
      requires t in tables
      modifies this
      ensures var o := ChangeTracking.DeleteRecords(old(View(tables[t], State(), t, mode)), p);
              var r := Complete(old(tables[t]), old(State()), t, o, mode, w1, w2);
              rc == r.rc && tables == old(tables)[t := r.rows] && State() == r.d
    {
      if Hits(tables[t].cand, p) == {} {
        tables := tables[t := tables[t]];
        return RecordNotFound;
      }
      rc := DeleteCandidate(t, p, mode, w1, w2);
    }

    /** The DELETE, its mark and the move of the running rows to CANDIDATE_DEL. */
    method DeleteCandidate(t: nat, p: Pred, mode: Mode, w1: bool, w2: bool) returns (rc: Rc)
      requires t in tables
      modifies this
      ensures var (d1, rc1) := Mark(old(State()), t, Delete, mode, w1, w2);
              var rows := old(tables[t]);
              var kept, copied := Without(rows.del, p), Matching(rows.run, p);
              var fits := copied.Keys * kept.Keys == {};
              && State() == d1 && rc == (if rc1 == Success && fits then Success else GeneralError)
              && tables == old(tables)[t := Rows(rows.run, rows.cand - Hits(rows.cand, p),
                                                 if rc1 != Success then rows.del
                                                 else if fits then kept + copied else kept)]
    {
      var rows := tables[t];
      rc := StoreAndMark(t, rows.(cand := rows.cand - Hits(rows.cand, p)), Delete, mode, w1, w2);
      if rc != Success { return; }
      rc := MoveToCandidateDel(t, p, mode);
    }

    /** The part of a delete after its mark: forget earlier copies, then save the matching rows of RUNNING. */
    method MoveToCandidateDel(t: nat, p: Pred, mode: Mode) returns (rc: Rc)
      requires t in tables && IsDirty(State(), Delete, t, mode)
      modifies this`tables
      ensures var rows := old(tables[t]);
              var kept, copied := Without(rows.del, p), Matching(rows.run, p);
              if copied.Keys * kept.Keys != {} then
                rc == GeneralError && tables == old(tables)[t := rows.(del := kept)]
              else
                rc == Success && tables == old(tables)[t := rows.(del := kept + copied)]
    {
      rc := DeleteFromCandidateDel(t, p, mode);
      var ok := CopyMatchingRecords(t, p);
      rc := if ok then Success else GeneralError;
    }

    /** The statement that an abort runs for an operation. */
    static method RunCopy(rows: Rows, op: Op) returns (r: Rows, touched: bool)
      ensures forall cr: bool, up: bool, dl: bool, again: bool ::
                var s := TS(rows.run, rows.cand, rows.del, cr, up, dl);
                var o := CopyModified(s, op, again);
                (if op == Create then dl else if op == Delete then cr else up) ==>
                  r == RowsOf(o.s) && touched == (o.rc == Success) && o.marked == if touched then Some(op) else None
    {
      match op
      case Delete =>
        var extra := set k | k in rows.cand && k !in rows.run;
        r, touched := rows.(cand := rows.cand - extra), extra != {};
      case Create =>
        var back := map k | k in rows.del && k !in rows.cand :: CandRow(rows.del[k], false, false);
        r, touched := rows.(cand := rows.cand + back), back != map[];
      case Update =>
        var undo := map k | k in rows.cand && k in rows.run && (rows.cand[k].c || rows.cand[k].u)
          :: CandRow(rows.run[k], false, false);
        r, touched := rows.(cand := rows.cand + undo), undo != map[];
    }

    /** The statement on the rows of the mode, or none when the swapped operation is clean. */
    method RunCopyIfDirty(t: nat, op: Op, mode: Mode) returns (part: Rows, touched: bool)
      requires t in tables
      ensures var r := Only(own, tables[t], mode);
              var o := CopyModified(View(r, State(), t, mode), op, Again(State(), t, mode));
              && part == RowsOf(o.s) && part.run == r.run && part.del == r.del
              && o.rc == (if touched then Success else RecordNotFound)
              && o.marked == (if touched then Some(op) else None)
    {
      part, touched := Only(own, tables[t], mode), false;
      var op2 := if op == Create then Delete else if op == Delete then Create else op;
      var rc := IsTblDirty(op2, t, mode);
      if rc == Success { part, touched := RunCopy(part, op); }
    }

    /** CopyModifiedRecords from RUNNING to CANDIDATE. */
    method CopyModifiedRecords(t: nat, op: Op, mode: Mode, w1: bool, w2: bool) returns (rc: Rc)
      requires t in tables
      modifies this
      ensures var r := Only(own, old(tables[t]), mode);
              var o := CopyModified(old(View(r, State(), t, mode)), op, old(Again(State(), t, mode)));
              var res := Complete(r, old(State()), t, o, mode, w1, w2);
              rc == res.rc && tables == old(tables)[t := Merge(own, old(tables[t]), res.rows, mode)] && State() == res.d
    {
      ghost var r := Only(own, tables[t], mode);
      var part, touched := RunCopyIfDirty(t, op, mode);
      assert part == Rows(r.run, part.cand, r.del);
      var rows := Merge(own, tables[t], part, mode);
      if touched {
        rc := StoreAndMark(t, rows, op, mode, w1, w2);
      } else {
        tables := tables[t := rows];
        rc := RecordNotFound;
      }
    }

    /** ClearCreateUpdateFlags on CANDIDATE, for both flags. */
    method ClearCreateUpdateFlags(t: nat, mode: Mode) returns (rc: Rc)
      requires t in tables
      modifies this`tables
      ensures var s := old(View(Only(own, tables[t], mode), State(), t, mode));
              && tables == old(tables)[t := Merge(own, old(tables[t]), RowsOf(ClearFlags(s)), mode)]
              && rc == if (s.cr || s.up) && Flagged(s.cand) != {} then Success else RecordNotFound
    {
      var part := Only(own, tables[t], mode);
      rc := IsTblDirty(Create, t, mode);
      if rc == RecordNotFound { rc := IsTblDirty(Update, t, mode); }
      if rc == Success {
        rc := if Flagged(part.cand) == {} then RecordNotFound else Success;
        part := part.(cand := map k | k in part.cand :: CandRow(part.cand[k].data, false, false));
      }
      tables := tables[t := Merge(own, tables[t], part, mode)];
    }

    /** GetDeletedRecords, GetCreatedRecords and GetUpdatedRecords of CANDIDATE against RUNNING. */
    method GetModifiedRecords(t: nat, op: Op, mode: Mode) returns (records: map<Pk, Data>)
      requires t in tables
      ensures records == Reported(View(Only(own, tables[t], mode), State(), t, mode), op)
    {
      var rc := IsTblDirty(op, t, mode);
      if rc != Success { return map[]; }
      var rows := Only(own, tables[t], mode);
      match op
      case Delete => records := rows.del;
      case Create => records := map k | k in rows.cand && rows.cand[k].c :: rows.cand[k].data;
      case Update => records := map k | k in rows.cand && rows.cand[k].u :: rows.cand[k].data;
    }

    /** CreateRecord, UpdateRecords and DeleteRecords of one record on RUNNING. */
    method WriteRunning(t: nat, op: Op, k: Pk, d: Data) returns (rc: Rc)
      requires t in tables
      modifies this`tables
      ensures rc == (if op == Create then if k in old(tables)[t].run then RecordAlreadyExists else Success
                     else if k in old(tables)[t].run then Success else RecordNotFound)
      ensures tables == if rc != Success then old(tables)
                        else old(tables)[t := old(tables)[t].(run := if op == Delete then old(tables)[t].run - {k}
                                                                     else old(tables)[t].run[k := d])]
    {
      var rows := tables[t];
      if op == Create && k in rows.run { return RecordAlreadyExists; }
      if op != Create && k !in rows.run { return RecordNotFound; }
      tables := tables[t := rows.(run := if op == Delete then rows.run - {k} else rows.run[k := d])];
      rc := Success;
    }

    /** DeleteRecords on CANDIDATE_DEL with truncation, or DeleteRecordsInVtnMode: skipped when no delete is marked. */
    method TruncateCandidateDel(t: nat, mode: Mode) returns (rc: Rc)
      requires t in tables
      modifies this`tables
      ensures var s := old(View(Only(own, tables[t], mode), State(), t, mode));
              tables == old(tables)[t := Merge(own, old(tables[t]),
                                               Rows(s.run, s.cand, if s.dl then map[] else s.del), mode)]
      ensures rc == if IsDirty(State(), Delete, t, mode) then Success else RecordNotFound
    {
      var part := Only(own, tables[t], mode);
      rc := IsTblDirty(Delete, t, mode);
      if rc == Success { part := part.(del := map[]); }
      tables := tables[t := Merge(own, tables[t], part, mode)];
    }
  }

  /** A mark that succeeds is seen at once, even past the cap; with working writes it does succeed. */
  lemma MarkIsSeen(d: Dirty, t: nat, op: Op, mode: Mode, w1: bool, w2: bool)
    ensures Mark(d, t, op, mode, w1, w2).1 == Success ==> IsDirty(Mark(d, t, op, mode, w1, w2).0, op, t, mode)
    ensures t < NUM_TABLES && w1 && w2 ==> Mark(d, t, op, mode, w1, w2).1 == Success
  {}

  /** A create mark does not touch the answer for delete. */
  lemma CreateMarkKeepsDelete(d: Dirty, t: nat, mode: Mode, w1: bool, w2: bool)
    ensures IsDirty(Mark(d, t, Create, mode, w1, w2).0, Delete, t, mode) <==> IsDirty(d, Delete, t, mode)
  {
    var e := Mark(d, t, Create, mode, w1, w2).0;
    assert e.g.dl == d.g.dl && e.v.dl == d.v.dl && e.vdb.dl == d.vdb.dl && e.over.dl == d.over.dl;
  }
}
