/**
 * DalBindInfo: the list of column bindings with its three counters, the role of each entry, and the
 * numbering under which inputs, matches and outputs are handed to a statement.
 */
module BindList {
  import opened Common
  import opened BufferCopy

  const DAL_COL_STD_INTEGER: nat := 0xFFFE

  datatype Io = Input | Output | Match

  datatype IoType = IoNone | InputOnly | OutputOnly | MatchOnly | InputAndMatch | OutputAndMatch

  datatype Column = Column(dal: DalType, size: nat)

  /** A call of BindInput, BindOutput or BindMatch. */
  datatype Request = Request(io: Io, col: nat, app: AppType, size: nat, hasAddr: bool)

  /** A list entry; inOut, mat: how often db_in_out_addr_ and db_match_addr_ were allocated. */
  datatype Entry = Entry(col: nat, io: IoType, app: AppType, size: nat, inOut: nat, mat: nat)

  /** How a request ends: bound, refused with no role given, or refused after the role was given. */
  datatype Outcome = Bound | Early | Late

  datatype Availability = Reuse | Append | Refused

  predicate Holds(t: IoType, io: Io) {
    match io
    case Input => t == InputOnly || t == InputAndMatch
    case Output => t == OutputOnly || t == OutputAndMatch
    case Match => t == MatchOnly || t == InputAndMatch || t == OutputAndMatch
  }

  /** GetBindAvailability. */
  function AvailabilityOf(t: IoType, io: Io): Availability {
    match io
    case Input => if t == IoNone || t == MatchOnly then Reuse else Refused
    case Output =>
      if t == IoNone || t == MatchOnly then Reuse
      else if t == OutputOnly || t == OutputAndMatch then Append else Refused
    case Match => if t == IoNone || t == InputOnly || t == OutputOnly then Reuse else Append
  }

  /** ComputeIoType. */
  function ComputeIoType(t: IoType, io: Io): Option<IoType> {
    match (t, io)
    case (IoNone, Input) => Some(InputOnly)
    case (IoNone, Output) => Some(OutputOnly)
    case (IoNone, Match) => Some(MatchOnly)
    case (InputOnly, Match) => Some(InputAndMatch)
    case (OutputOnly, Output) => Some(OutputOnly)
    case (OutputOnly, Match) => Some(OutputAndMatch)
    case (MatchOnly, Input) => Some(InputAndMatch)
    case (MatchOnly, Output) => Some(OutputAndMatch)
    case (MatchOnly, Match) => Some(MatchOnly)
    case (InputAndMatch, Match) => Some(InputAndMatch)
    case (OutputAndMatch, Output) => Some(OutputAndMatch)
    case (OutputAndMatch, Match) => Some(OutputAndMatch)
    case _ => None
  }

  /** Reusing an entry adds exactly the requested role: the two tables agree wherever a request gets through. */
  lemma ReuseAddsTheRole(t: IoType, io: Io)
    requires AvailabilityOf(t, io) == Reuse
    ensures ComputeIoType(t, io).Some? && !Holds(t, io)
    ensures forall o: Io :: Holds(ComputeIoType(t, io).value, o) <==> Holds(t, o) || o == io
  {
    var u := ComputeIoType(t, io).value;
    forall o: Io ensures Holds(u, o) <==> Holds(t, o) || o == io {}
  }

  /** The roles of an entry rule a request out: an input beside an input or an output, an output beside an input. */
  predicate RuledOut(t: IoType, io: Io) {
    (io == Input && (Holds(t, Input) || Holds(t, Output))) || (io == Output && Holds(t, Input))
  }

  /** When an entry is available: reused unless ruled out, and another one appended if it holds the role already. */
  lemma AvailabilityIff(t: IoType, io: Io)
    ensures AvailabilityOf(t, io) == Refused <==> RuledOut(t, io)
    ensures !RuledOut(t, io) ==> (AvailabilityOf(t, io) == Append <==> Holds(t, io))
  {}

  /** A role can be added to the roles of an entry exactly if they do not rule it out, and then it is just added. */
  lemma ComputeIff(t: IoType, io: Io)
    ensures ComputeIoType(t, io).Some? <==> !RuledOut(t, io)
    ensures !RuledOut(t, io) ==> forall o: Io :: Holds(ComputeIoType(t, io).value, o) <==> Holds(t, o) || o == io
  {
    if !RuledOut(t, io) {
      var u := ComputeIoType(t, io).value;
      forall o: Io ensures Holds(u, o) <==> Holds(t, o) || o == io {}
    }
  }

  // ------------------------------------------------------------ one entry

  function ColumnOf(cols: seq<Column>, col: nat): Option<Column> {
    if col == DAL_COL_STD_INTEGER then Some(Column(UBigInt, 1))
    else if col < |cols| then Some(cols[col]) else None
  }

  /** The array size in the column's own unit: bytes for a binary column. */
  function EffectiveSize(c: Column, r: Request): nat {
    if c.dal == Binary && r.size == 1 then AppWidth(r.app) else r.size
  }

  function Fresh(col: nat): Entry { Entry(col, IoNone, AppInvalid, 0, 0, 0) }

  /** UpdateColumnInfo. */
  function Update(c: Column, e: Entry, r: Request): (Entry, Outcome) {
    if !Compatible(r.app, c.dal) || r.size == 0 || EffectiveSize(c, r) != c.size then (e, Early)
    else match ComputeIoType(e.io, r.io)
      case None => (e, Early)
      case Some(io) =>
        var e1 := if io == InputOnly || io == OutputOnly || io == MatchOnly
                  then e.(io := io, app := r.app, size := EffectiveSize(c, r)) else e.(io := io);
        var e2 := if r.io == Match then e1.(mat := e1.mat + 1) else e1.(inOut := e1.inOut + 1);
        var copies := r.io == Output || (c.dal == Binary ==> BinarySizeOk(e1.app, e1.size));
        (e2, if copies then Bound else Late)
  }

  /** Each role owns one buffer, allocated once. */
  predicate EntryOk(e: Entry) {
    && e.inOut == (if Holds(e.io, Input) || Holds(e.io, Output) then 1 else 0)
    && e.mat == (if Holds(e.io, Match) then 1 else 0)
  }

  lemma UpdateAddsTheRole(c: Column, e: Entry, r: Request)
    requires EntryOk(e) && AvailabilityOf(e.io, r.io) == Reuse
    ensures var (e2, out) := Update(c, e, r);
            && EntryOk(e2) && e2.col == e.col
            && (out == Early ==> e2 == e)
            && (out != Early ==> forall o: Io :: Holds(e2.io, o) <==> Holds(e.io, o) || o == r.io)
            && (out != Early && e.io == IoNone ==> e2.app == r.app && e2.size == c.size)
            && (e.io != IoNone ==> e2.app == e.app && e2.size == e.size)
  {
    ReuseAddsTheRole(e.io, r.io);
  }

  // ------------------------------------------------------------- the list

  /** The first entry of a column, or the length of the list. */
  function FirstOf(list: seq<Entry>, col: nat): (i: nat)
    ensures i <= |list|
    ensures i < |list| ==> list[i].col == col
    ensures forall j :: 0 <= j < i ==> list[j].col != col
  {
    if list == [] || list[0].col == col then 0 else 1 + FirstOf(list[1..], col)
  }

  /** ValidateInputParams. */
  predicate ValidParams(cols: seq<Column>, r: Request) {
    ColumnOf(cols, r.col).Some? && r.app != AppInvalid && r.size != 0 && r.hasAddr
  }

  /** The list and the entry that a request works on, if it is not refused before. */
  function Target(list: seq<Entry>, r: Request): Option<(seq<Entry>, nat)> {
    var i := FirstOf(list, r.col);
    if i == |list| then Some((list + [Fresh(r.col)], |list|))
    else match AvailabilityOf(list[i].io, r.io)
      case Refused => None
      case Reuse => Some((list, i))
      case Append => Some((list + [Fresh(r.col)], |list|))
  }

  /** BindAttribute. */
  function BindAttribute(cols: seq<Column>, list: seq<Entry>, r: Request): (seq<Entry>, Outcome) {
    if !ValidParams(cols, r) then (list, Early)
    else match Target(list, r)
      case None => (list, Early)
      case Some((list1, i)) =>
        var (e, out) := Update(ColumnOf(cols, r.col).value, list1[i], r);
        (list1[i := e], out)
  }

  /** The number of entries that hold a role. */
  function Holding(list: seq<Entry>, io: Io): (n: nat) {
    if list == [] then 0
    else Holding(list[..|list| - 1], io) + if Holds(list[|list| - 1].io, io) then 1 else 0
  }

  lemma {:induction false} HoldingAfterUpdate(list: seq<Entry>, i: nat, e: Entry, io: Io)
    requires i < |list|
    ensures Holding(list[i := e], io) + (if Holds(list[i].io, io) then 1 else 0)
            == Holding(list, io) + (if Holds(e.io, io) then 1 else 0)
  {
    var m := |list| - 1;
    if i < m {
      assert list[i := e][..m] == list[..m][i := e];
      HoldingAfterUpdate(list[..m], i, e, io);
    } else {
      assert list[i := e][..m] == list[..m];
    }
  }

  lemma HoldingAfterAppend(list: seq<Entry>, col: nat, io: Io)
    ensures Holding(list + [Fresh(col)], io) == Holding(list, io)
  {
    assert (list + [Fresh(col)])[..|list|] == list;
  }

  ghost predicate ListOk(list: seq<Entry>) {
    forall i :: 0 <= i < |list| ==> EntryOk(list[i])
  }

  lemma TargetHolds(list: seq<Entry>, r: Request, io: Io)
    requires ListOk(list) && Target(list, r).Some?
    ensures var (list1, i) := Target(list, r).value;
            && ListOk(list1) && i < |list1| && AvailabilityOf(list1[i].io, r.io) == Reuse
            && Holding(list1, io) == Holding(list, io)
  {
    HoldingAfterAppend(list, r.col, io);
  }

  /** An entry that gets a role, or is refused it, among the others. */
  lemma UpdateHolds(c: Column, list: seq<Entry>, i: nat, r: Request, io: Io)
    requires ListOk(list) && i < |list| && AvailabilityOf(list[i].io, r.io) == Reuse
    ensures var (e, out) := Update(c, list[i], r);
            && ListOk(list[i := e])
            && Holding(list[i := e], io) == Holding(list, io) + if out != Early && io == r.io then 1 else 0
  {
    UpdateAddsTheRole(c, list[i], r);
    ReuseAddsTheRole(list[i].io, r.io);
    HoldingAfterUpdate(list, i, Update(c, list[i], r).0, io);
  }

  /** A request gives one entry the role it asks for, unless it is refused early; no other role changes hands. */
  lemma BindAddsOneRole(cols: seq<Column>, list: seq<Entry>, r: Request, io: Io)
    requires ListOk(list)
    ensures var (list1, out) := BindAttribute(cols, list, r);
            && ListOk(list1)
            && Holding(list1, io) == Holding(list, io) + if out != Early && io == r.io then 1 else 0
  {
    if ValidParams(cols, r) && Target(list, r).Some? {
      var (list1, i) := Target(list, r).value;
      TargetHolds(list, r, io);
      UpdateHolds(ColumnOf(cols, r.col).value, list1, i, r, io);
    }
  }

  /** Only an entry of the requested column changes, and at most one entry is added. */
  lemma BindTouchesItsColumn(cols: seq<Column>, list: seq<Entry>, r: Request, j: nat)
    requires ListOk(list) && j < |list|
    ensures var list1 := BindAttribute(cols, list, r).0;
            && |list| <= |list1| <= |list| + 1
            && list1[j].col == list[j].col
            && (list[j].col != r.col ==> list1[j] == list[j])
            && (|list1| > |list| ==> list1[j] == list[j] && list1[|list|].col == r.col)
  {
    if ValidParams(cols, r) && Target(list, r).Some? {
      var (list1, i) := Target(list, r).value;
      UpdateAddsTheRole(ColumnOf(cols, r.col).value, list1[i], r);
    }
  }

  /**
   * Behind the first entry of a column there is no input, and an output only if the first entry has one too.
   */
  predicate BehindFirst(list: seq<Entry>, j: nat)
    requires j < |list|
  {
    var f := FirstOf(list, list[j].col);
    j == f || (f < |list| && !Holds(list[j].io, Input) && (Holds(list[j].io, Output) ==> Holds(list[f].io, Output)))
  }

  ghost predicate InputsFirst(list: seq<Entry>) {
    forall j :: 0 <= j < |list| ==> BehindFirst(list, j)
  }

  lemma {:induction false} FirstOfIs(list: seq<Entry>, col: nat, i: nat)
    requires i <= |list| && (forall j :: 0 <= j < i ==> list[j].col != col)
    requires i < |list| ==> list[i].col == col
    ensures FirstOf(list, col) == i
  {}

  lemma UpdateKeepsInputsFirst(c: Column, list: seq<Entry>, i: nat, r: Request)
    requires InputsFirst(list) && ListOk(list) && i < |list| && list[i].col == r.col
    requires AvailabilityOf(list[i].io, r.io) == Reuse
    requires var f := FirstOf(list, r.col); i == f || (r.io != Input && (r.io == Output ==> Holds(list[f].io, Output)))
    ensures InputsFirst(list[i := Update(c, list[i], r).0])
  {
    var list1 := list[i := Update(c, list[i], r).0];
    UpdateAddsTheRole(c, list[i], r);
    forall j | 0 <= j < |list1| ensures BehindFirst(list1, j) {
      assert BehindFirst(list, j);
      FirstOfIs(list1, list1[j].col, FirstOf(list, list[j].col));
    }
  }

  lemma AppendKeepsInputsFirst(list: seq<Entry>, col: nat)
    requires InputsFirst(list)
    ensures InputsFirst(list + [Fresh(col)])
    ensures FirstOf(list + [Fresh(col)], col) == FirstOf(list, col)
  {
    var list1 := list + [Fresh(col)];
    FirstOfIs(list1, col, FirstOf(list, col));
    forall j | 0 <= j < |list| ensures BehindFirst(list1, j) {
      assert BehindFirst(list, j);
      FirstOfIs(list1, list1[j].col, FirstOf(list, list[j].col));
    }
    assert BehindFirst(list1, |list|);
  }

  lemma BindKeepsInputsFirst(cols: seq<Column>, list: seq<Entry>, r: Request)
    requires InputsFirst(list) && ListOk(list)
    ensures InputsFirst(BindAttribute(cols, list, r).0)
  {
    if ValidParams(cols, r) && Target(list, r).Some? {
      var (list1, i) := Target(list, r).value;
      AppendKeepsInputsFirst(list, r.col);
      UpdateKeepsInputsFirst(ColumnOf(cols, r.col).value, list1, i, r);
    }
  }

  /** So no two entries give a value to the same column, and none that gives one shares its column with an output. */
  lemma InputColumnsAreDistinct(list: seq<Entry>, i: nat, j: nat)
    requires InputsFirst(list) && i < |list| && j < |list| && i != j && list[i].col == list[j].col
    requires Holds(list[i].io, Input)
    ensures !Holds(list[j].io, Input) && !Holds(list[j].io, Output)
  {
    assert BehindFirst(list, i) && BehindFirst(list, j);
  }

  /**
   * Exactly when a request fails after its role was given: a 16-, 32- or 64-bit value copied into a binary column of
   * another size.
   */
  lemma LateIff(c: Column, e: Entry, r: Request)
    requires AvailabilityOf(e.io, r.io) == Reuse && Update(c, e, r).1 != Early
    ensures Update(c, e, r).1 == Late <==>
            && r.io != Output && c.dal == Binary
            && !(if e.io == IoNone then BinarySizeOk(r.app, c.size) else BinarySizeOk(e.app, e.size))
  {}

  /** The request's size is the column's; on a binary column an element count of 1 stands for the element's bytes. */
  predicate SizeFits(c: Column, r: Request) {
    || (c.dal == Binary && r.size == 1 && AppWidth(r.app) == c.size)
    || ((c.dal != Binary || r.size != 1) && r.size == c.size)
  }

  lemma UpdateIsEarlyIff(c: Column, e: Entry, r: Request)
    requires AvailabilityOf(e.io, r.io) == Reuse
    ensures Update(c, e, r).1 == Early <==> r.size == 0 || !Accepts(r.app, c.dal) || !SizeFits(c, r)
  {
    ReuseAddsTheRole(e.io, r.io);
    CompatibleIff(r.app, c.dal);
  }

  /**
   * Exactly when a request is refused with no role given: its parameters are invalid, the first entry of its column has
   * roles that rule it out, the column does not take the type, or the size is not the column's.
   */
  lemma EarlyIff(cols: seq<Column>, list: seq<Entry>, r: Request)
    ensures BindAttribute(cols, list, r).1 == Early <==>
            || (r.col >= |cols| && r.col != DAL_COL_STD_INTEGER)
            || r.app == AppInvalid || r.size == 0 || !r.hasAddr
            || (FirstOf(list, r.col) < |list| && RuledOut(list[FirstOf(list, r.col)].io, r.io))
            || !Accepts(r.app, ColumnOf(cols, r.col).value.dal) || !SizeFits(ColumnOf(cols, r.col).value, r)
  {
    if ValidParams(cols, r) {
      var f := FirstOf(list, r.col);
      if f < |list| { AvailabilityIff(list[f].io, r.io); }
      if Target(list, r).Some? {
        var (list1, i) := Target(list, r).value;
        UpdateIsEarlyIff(ColumnOf(cols, r.col).value, list1[i], r);
      }
    }
  }

  /** So on a column that is not in the list yet, a valid request of the column's size is refused by its type alone. */
  lemma NewColumnIsEarlyIff(cols: seq<Column>, list: seq<Entry>, r: Request)
    requires ValidParams(cols, r) && FirstOf(list, r.col) == |list| && SizeFits(ColumnOf(cols, r.col).value, r)
    ensures BindAttribute(cols, list, r).1 == Early <==> !Accepts(r.app, ColumnOf(cols, r.col).value.dal)
  {
    EarlyIff(cols, list, r);
  }

  /** The column that stands for a plain integer, such as a count of records, takes one value of any type. */
  lemma StandardIntegerTakesAny(cols: seq<Column>, list: seq<Entry>, r: Request)
    requires r.col == DAL_COL_STD_INTEGER && FirstOf(list, r.col) == |list|
    requires r.app != AppInvalid && r.size == 1 && r.hasAddr
    ensures BindAttribute(cols, list, r).1 == Bound
  {
    CompatibleIff(r.app, UBigInt);
    EarlyIff(cols, list, r);
  }

  /** On an entry without a role, an element count of 1 or a byte type is never late. */
  lemma NaturalSizeIsNeverLate(c: Column, col: nat, r: Request)
    requires r.size == 1 || r.app == Char || r.app == U8
    ensures Update(c, Fresh(col), r).1 != Late
  {}

  // ------------------------------------------------- the counters on every run

  /** DalBindInfo as a value; the counters are 16 bits wide. */
  datatype Binds = Binds(list: seq<Entry>, inputs: nat, outputs: nat, matches: nat) {
    function Counter(io: Io): nat {
      match io
      case Input => inputs
      case Output => outputs
      case Match => matches
    }
  }

  const NO_BINDS := Binds([], 0, 0, 0)

  function Inc(n: nat): nat { if n == 0xFFFF then 0 else n + 1 }

  /** A bind is counted for its role. */
  function Count(b: Binds, io: Io): Binds {
    match io
    case Input => b.(inputs := Inc(b.inputs))
    case Output => b.(outputs := Inc(b.outputs))
    case Match => b.(matches := Inc(b.matches))
  }

  function Bind(cols: seq<Column>, b: Binds, r: Request): (Binds, Outcome) {
    var (list1, out) := BindAttribute(cols, b.list, r);
    var b1 := b.(list := list1);
    (if out == Bound then Count(b1, r.io) else b1, out)
  }

  function RunBinds(cols: seq<Column>, b: Binds, rs: seq<Request>): Binds
    decreases rs
  {
    if rs == [] then b else RunBinds(cols, Bind(cols, b, rs[0]).0, rs[1..])
  }

  /** The requests for a role that were refused late. */
  function LateCount(cols: seq<Column>, b: Binds, rs: seq<Request>, io: Io): nat
    decreases rs
  {
    if rs == [] then 0
    else (if Bind(cols, b, rs[0]).1 == Late && rs[0].io == io then 1 else 0)
         + LateCount(cols, Bind(cols, b, rs[0]).0, rs[1..], io)
  }

  /** A counter, the late refusals it does not count and its wrap-arounds make up the number of holders. */
  predicate Counted(b: Binds, io: Io, late: nat, wraps: nat) {
    b.Counter(io) < 0x1_0000 && b.Counter(io) + late + wraps * 0x1_0000 == Holding(b.list, io)
  }

  lemma BindSteps(cols: seq<Column>, b: Binds, r: Request, io: Io)
    requires ListOk(b.list)
    ensures var (b1, out) := Bind(cols, b, r);
            && ListOk(b1.list)
            && Holding(b1.list, io) == Holding(b.list, io) + (if out != Early && io == r.io then 1 else 0)
            && b1.Counter(io) == (if out == Bound && io == r.io then Inc(b.Counter(io)) else b.Counter(io))
  {
    BindAddsOneRole(cols, b.list, r, io);
    var (list1, out) := BindAttribute(cols, b.list, r);
    assert Bind(cols, b, r).0.list == list1 && Bind(cols, b, r).1 == out;
  }

  /** The times a counter wraps around. */
  function WrapCount(cols: seq<Column>, b: Binds, rs: seq<Request>, io: Io): nat
    decreases rs
  {
    if rs == [] then 0
    else (if Bind(cols, b, rs[0]).1 == Bound && rs[0].io == io && b.Counter(io) == 0xFFFF then 1 else 0)
         + WrapCount(cols, Bind(cols, b, rs[0]).0, rs[1..], io)
  }

  /**
   * On every sequence of bind calls each role owns one buffer, and a counter differs from the number of
   * entries that hold its role exactly by the requests refused late and by its own wrap-arounds.
   */
  lemma {:induction false} CountersOnEveryRun(
      cols: seq<Column>, b: Binds, rs: seq<Request>, io: Io, late: nat, wraps: nat)
    requires ListOk(b.list) && Counted(b, io, late, wraps)
    ensures ListOk(RunBinds(cols, b, rs).list)
    ensures Counted(RunBinds(cols, b, rs), io, late + LateCount(cols, b, rs, io), wraps + WrapCount(cols, b, rs, io))
    decreases rs
  {
    if rs != [] {
      var (b1, out) := Bind(cols, b, rs[0]);
      BindSteps(cols, b, rs[0], io);
      CountersOnEveryRun(cols, b1, rs[1..], io,
                         if out == Late && rs[0].io == io then late + 1 else late,
                         if out == Bound && rs[0].io == io && b.Counter(io) == 0xFFFF then wraps + 1 else wraps);
    }
  }

  /** On every sequence of bind calls, the names in a SET list or an INSERT are distinct columns. */
  lemma {:induction false} InputsFirstOnEveryRun(cols: seq<Column>, b: Binds, rs: seq<Request>)
    requires ListOk(b.list) && InputsFirst(b.list)
    ensures ListOk(RunBinds(cols, b, rs).list) && InputsFirst(RunBinds(cols, b, rs).list)
    decreases rs
  {
    if rs != [] {
      BindSteps(cols, b, rs[0], Input);
      BindKeepsInputsFirst(cols, b.list, rs[0]);
      InputsFirstOnEveryRun(cols, Bind(cols, b, rs[0]).0, rs[1..]);
    }
  }

  /** Before the first bind every counter is exact. */
  lemma NothingBound(io: Io)
    ensures ListOk(NO_BINDS.list) && Counted(NO_BINDS, io, 0, 0)
  {}

  /** Exactly then a counter is still the number of entries that hold its role. */
  lemma CountersAreExactIff(cols: seq<Column>, b: Binds, rs: seq<Request>, io: Io)
    requires ListOk(b.list) && Counted(b, io, 0, 0)
    ensures var b1 := RunBinds(cols, b, rs);
            b1.Counter(io) == Holding(b1.list, io) <==>
            (LateCount(cols, b, rs, io) == 0 && WrapCount(cols, b, rs, io) == 0)
  {
    CountersOnEveryRun(cols, b, rs, io, 0, 0);
  }

  /** From an empty list on, that is the exact condition for every counter, and so for every INSERT. */
  lemma CountersFromEmptyIff(cols: seq<Column>, b: Binds, rs: seq<Request>, io: Io)
    requires b == NO_BINDS
    ensures var b1 := RunBinds(cols, b, rs);
            b1.Counter(io) == Holding(b1.list, io) <==>
            (LateCount(cols, b, rs, io) == 0 && WrapCount(cols, b, rs, io) == 0)
  {
    NothingBound(io);
    CountersAreExactIff(cols, b, rs, io);
  }

  /** A 32-bit match on a binary column of 16 bytes is refused, and yet holds its role. */
  lemma LateRefusalMiscounts()
    ensures var (b, out) := Bind([Column(Binary, 16)], NO_BINDS, Request(Match, 0, U32, 16, true));
            out == Late && Holding(b.list, Match) == 1 && b.Counter(Match) == 0
  {
    var r := Request(Match, 0, U32, 16, true);
    var (b, out) := Bind([Column(Binary, 16)], NO_BINDS, r);
    assert FirstOf([], 0) == 0;
    assert b.list == [Update(Column(Binary, 16), Fresh(0), r).0];
    assert Holding(b.list[..0], Match) == 0;
  }

  // ------------------------------------------- a second role on an entry

  /** What an entry with a role says of its column: copies use this type and size for every role it holds. */
  predicate EntryTyped(cols: seq<Column>, e: Entry) {
    e.io != IoNone ==>
      && ColumnOf(cols, e.col).Some?
      && Compatible(e.app, ColumnOf(cols, e.col).value.dal) && e.size == ColumnOf(cols, e.col).value.size
  }

  ghost predicate ListTyped(cols: seq<Column>, list: seq<Entry>) {
    forall i :: 0 <= i < |list| ==> EntryTyped(cols, list[i])
  }

  lemma TargetIsOfTheColumn(cols: seq<Column>, list: seq<Entry>, r: Request)
    requires ListOk(list) && ListTyped(cols, list) && Target(list, r).Some?
    ensures var (list1, i) := Target(list, r).value;
            && ListOk(list1) && ListTyped(cols, list1)
            && i < |list1| && list1[i].col == r.col && AvailabilityOf(list1[i].io, r.io) == Reuse
  {}

  lemma BindKeepsTyped(cols: seq<Column>, list: seq<Entry>, r: Request)
    requires ListOk(list) && ListTyped(cols, list)
    ensures ListTyped(cols, BindAttribute(cols, list, r).0)
  {
    if ValidParams(cols, r) && Target(list, r).Some? {
      TargetIsOfTheColumn(cols, list, r);
      var (list1, i) := Target(list, r).value;
      UpdateAddsTheRole(ColumnOf(cols, r.col).value, list1[i], r);
    }
  }

  lemma {:induction false} TypedOnEveryRun(cols: seq<Column>, b: Binds, rs: seq<Request>)
    requires ListOk(b.list) && ListTyped(cols, b.list)
    ensures ListOk(RunBinds(cols, b, rs).list) && ListTyped(cols, RunBinds(cols, b, rs).list)
    decreases rs
  {
    if rs != [] {
      BindSteps(cols, b, rs[0], Input);
      BindKeepsTyped(cols, b.list, rs[0]);
      TypedOnEveryRun(cols, Bind(cols, b, rs[0]).0, rs[1..]);
    }
  }

  /** The bytes of the caller's array. */
  function ArraySize(c: Column, r: Request): nat { AppSize(r.app, c.dal, EffectiveSize(c, r)) }

  /** One accepted request: the copy between the entry's buffer and the caller's array, against that array. */
  lemma UpdateCoversIff(c: Column, e: Entry, r: Request)
    requires AvailabilityOf(e.io, r.io) == Reuse && Update(c, e, r).1 != Early
    requires e.io != IoNone ==> Compatible(e.app, c.dal) && e.size == c.size
    ensures var e2 := Update(c, e, r).0;
            && (Reach(e2.app, c.dal, e2.size) <= ArraySize(c, r) <==>
                e.io == IoNone || c.dal == Binary || AppWidth(e.app) <= AppWidth(r.app))
            && (Reach(e2.app, c.dal, e2.size) == ArraySize(c, r) <==>
                e.io == IoNone || c.dal == Binary || AppWidth(e.app) == AppWidth(r.app))
  {
    ReuseAddsTheRole(e.io, r.io);
    CopyFits(Update(c, e, r).0.app, c.dal, c.size);
    assert c.size > 0 || c.dal == Binary;
    if e.io != IoNone && c.dal != Binary {
      assert Reach(e.app, c.dal, c.size) == AppWidth(e.app) * c.size;
      MulCancels(AppWidth(e.app), AppWidth(r.app), c.size);
    }
  }

  lemma MulCancels(x: nat, y: nat, n: nat)
    requires n > 0
    ensures x * n <= y * n <==> x <= y
    ensures x * n == y * n <==> x == y
  {
    if x < y { assert (y - x) * n > 0; }
    if y < x { assert (x - y) * n > 0; }
  }

  /**
   * After every sequence of binds, a request that is accepted is copied with the type of the first role on its entry:
   * the copy stays inside the caller's array, or covers all of it, exactly if the first role's type is no wider, or as
   * wide, or the column is binary.
   */
  lemma ArrayIsCoveredIff(cols: seq<Column>, b: Binds, rs: seq<Request>, r: Request)
    requires b == NO_BINDS && Bind(cols, RunBinds(cols, b, rs), r).1 != Early
    ensures var list := RunBinds(cols, b, rs).list;
            && ColumnOf(cols, r.col).Some? && Target(list, r).Some?
            && var c: Column := ColumnOf(cols, r.col).value;
               var (list1, i) := Target(list, r).value;
               var e: Entry := list1[i];
               var e2: Entry := Bind(cols, RunBinds(cols, b, rs), r).0.list[i];
               && (Reach(e2.app, c.dal, e2.size) <= ArraySize(c, r) <==>
                   e.io == IoNone || c.dal == Binary || AppWidth(e.app) <= AppWidth(r.app))
               && (Reach(e2.app, c.dal, e2.size) == ArraySize(c, r) <==>
                   e.io == IoNone || c.dal == Binary || AppWidth(e.app) == AppWidth(r.app))
  {
    TypedOnEveryRun(cols, b, rs);
    var list := RunBinds(cols, b, rs).list;
    TargetIsOfTheColumn(cols, list, r);
    var (list1, i) := Target(list, r).value;
    UpdateCoversIff(ColumnOf(cols, r.col).value, list1[i], r);
  }

  /** A 64-bit match and then an 8-bit output on one column: the result is copied as 8 bytes into an array of 1. */
  lemma SecondRoleCanOverrun()
    ensures var cols := [Column(UBigInt, 1)];
            var r, q := Request(Match, 0, U64, 1, true), Request(Output, 0, U8, 1, true);
            var (b, out) := Bind(cols, NO_BINDS, r);
            var (b1, out1) := Bind(cols, b, q);
            && out == out1 == Bound && |b1.list| == 1 && b1.list[0].io == OutputAndMatch
            && Reach(b1.list[0].app, UBigInt, b1.list[0].size) == 8 && ArraySize(cols[0], q) == 1
  {
    var c := Column(UBigInt, 1);
    var r, q := Request(Match, 0, U64, 1, true), Request(Output, 0, U8, 1, true);
    assert FirstOf([], 0) == 0;
    var b := Bind([c], NO_BINDS, r).0;
    assert b.list == [Update(c, Fresh(0), r).0];
    FirstOfIs(b.list, 0, 0);
  }

  // ------------------------------------------------------- binding to a query

  /** The positions of the entries that hold a role, in list order. */
  function Positions(list: seq<Entry>, io: Io): (ps: seq<nat>)
    ensures |ps| == Holding(list, io)
    ensures forall k :: 0 <= k < |ps| ==> ps[k] < |list| && Holds(list[ps[k]].io, io)
    ensures forall k, l :: 0 <= k < l < |ps| ==> ps[k] < ps[l]
    ensures forall p :: 0 <= p < |list| && Holds(list[p].io, io) ==> p in ps
  {
    if list == [] then []
    else
      var m := |list| - 1;
      var ps := Positions(list[..m], io);
      assert forall p :: 0 <= p < m ==> list[..m][p] == list[p];
      if Holds(list[m].io, io) then ps + [m] else ps
  }

  /** One buffer bound to a statement: the entry and the role whose buffer it is. */
  datatype Buffer = Buffer(pos: nat, io: Io)

  function Buffers(list: seq<Entry>, io: Io): (bs: seq<Buffer>)
    ensures |bs| == Holding(list, io)
  {
    var ps := Positions(list, io);
    seq(|ps|, k requires 0 <= k < |ps| => Buffer(ps[k], io))
  }

  /** The parameters in the order of their numbers: inputs, then matches, each skipped if its counter is 0. */
  function Params(b: Binds): seq<Buffer> {
    (if b.inputs != 0 then Buffers(b.list, Input) else []) + (if b.matches != 0 then Buffers(b.list, Match) else [])
  }

  /** The placeholders of the WHERE clause, and those of an UPDATE, in the order of the text. */
  function WhereMarks(b: Binds): seq<Buffer> {
    if b.matches != 0 then Buffers(b.list, Match) else []
  }

  function UpdateMarks(b: Binds): seq<Buffer> {
    Buffers(b.list, Input) + WhereMarks(b)
  }

  /** Placeholder k of the text is fed from parameter k. */
  ghost predicate Aligned(marks: seq<Buffer>, params: seq<Buffer>) {
    |marks| <= |params| && forall k :: 0 <= k < |marks| ==> params[k] == marks[k]
  }

  /** The SET list and the WHERE clause of an UPDATE get the values bound for them unless no input was counted. */
  lemma UpdateIsAlignedIff(b: Binds)
    ensures Aligned(UpdateMarks(b), Params(b)) <==> b.inputs != 0 || Holding(b.list, Input) == 0
  {
    if b.inputs == 0 && Holding(b.list, Input) != 0 { assert |UpdateMarks(b)| > |Params(b)|; }
    if b.inputs == 0 && Holding(b.list, Input) == 0 { assert UpdateMarks(b) == Params(b); }
  }

  /**
   * The builder refuses an UPDATE whose input counter is 0: on every sequence of binds from an exact counter on, such
   * as an empty list has, exactly if all the inputs that hold their role were refused late or lost to wrap-around.
   */
  lemma UpdateIsRefusedIff(cols: seq<Column>, b: Binds, rs: seq<Request>)
    requires ListOk(b.list) && Counted(b, Input, 0, 0)
    ensures var b1 := RunBinds(cols, b, rs);
            && (b1.inputs == 0 <==>
                Holding(b1.list, Input) == LateCount(cols, b, rs, Input) + WrapCount(cols, b, rs, Input) * 0x1_0000)
            && (b1.inputs != 0 ==> Aligned(UpdateMarks(b1), Params(b1)))
  {
    CountersOnEveryRun(cols, b, rs, Input, 0, 0);
    UpdateIsAlignedIff(RunBinds(cols, b, rs));
  }

  /**
   * In a statement with a WHERE clause alone, the clause gets its own values if and only if nothing was
   * bound for input, or nothing for match: input bindings are not ignored there.
   */
  lemma WhereIsAlignedIff(b: Binds)
    ensures Aligned(WhereMarks(b), Params(b)) <==>
            (b.inputs == 0 || Holding(b.list, Input) == 0 || b.matches == 0 || Holding(b.list, Match) == 0)
  {
    if b.inputs == 0 || Holding(b.list, Input) == 0 {
      assert Params(b) == WhereMarks(b);
    } else if b.matches == 0 || Holding(b.list, Match) == 0 {
      assert WhereMarks(b) == [];
    } else {
      assert Params(b)[0] == Buffers(b.list, Input)[0] && Params(b)[0].io == Input;
      assert WhereMarks(b)[0].io == Match;
    }
  }

  /** INSERT takes its names from the list and its placeholders from the counter: they agree in number exactly then. */
  lemma InsertIsWellFormedIff(cols: seq<Column>, b: Binds, rs: seq<Request>)
    requires b == NO_BINDS
    ensures var b1 := RunBinds(cols, b, rs);
            |Buffers(b1.list, Input)| == b1.inputs <==>
            (LateCount(cols, b, rs, Input) == 0 && WrapCount(cols, b, rs, Input) == 0)
  {
    CountersFromEmptyIff(cols, b, rs, Input);
  }

  /** An entry is bound for input and counted, and likewise one for match. */
  ghost predicate HasInput(b: Binds) { ListOk(b.list) && b.inputs == 1 == Holding(b.list, Input) && b.matches == 0 }

  ghost predicate HasBoth(b: Binds) {
    b.inputs != 0 && b.matches != 0 && Holding(b.list, Input) != 0 && Holding(b.list, Match) != 0
  }

  ghost predicate HasNone(b: Binds) { ListOk(b.list) && b.inputs == 0 == Holding(b.list, Input) && b.matches == 0 }

  lemma InputIsThere(cols: seq<Column>, b: Binds, r: Request)
    requires HasNone(b) && r.io == Input && Bind(cols, b, r).1 == Bound
    ensures HasInput(Bind(cols, b, r).0)
  {
    BindSteps(cols, b, r, Input);
    BindSteps(cols, b, r, Match);
  }

  lemma MatchIsThere(cols: seq<Column>, b: Binds, q: Request)
    requires HasInput(b) && q.io == Match && Bind(cols, b, q).1 == Bound
    ensures HasBoth(Bind(cols, b, q).0)
  {
    BindSteps(cols, b, q, Input);
    BindSteps(cols, b, q, Match);
  }

  lemma EmptyHasNone()
    ensures HasNone(NO_BINDS)
  {}

  /** From an empty list, any input followed by any match, both accepted: the clause gets the input's value. */
  lemma InputShiftsMatch(cols: seq<Column>, b: Binds, r: Request, b1: Binds, q: Request)
    requires HasNone(b) && r.io == Input && q.io == Match
    requires Bind(cols, b, r) == (b1, Bound) && Bind(cols, b1, q).1 == Bound
    ensures !Aligned(WhereMarks(Bind(cols, b1, q).0), Params(Bind(cols, b1, q).0))
  {
    InputIsThere(cols, b, r);
    MatchIsThere(cols, b1, q);
    WhereIsAlignedIff(Bind(cols, b1, q).0);
  }

  /** As with a 32-bit input in one column and a 32-bit match on another. */
  lemma InputShiftsMatchHappens()
    ensures exists cols: seq<Column>, r: Request, b1: Binds, q: Request ::
              && r.io == Input && q.io == Match
              && Bind(cols, NO_BINDS, r) == (b1, Bound) && Bind(cols, b1, q).1 == Bound
              && !Aligned(WhereMarks(Bind(cols, b1, q).0), Params(Bind(cols, b1, q).0))
  {
    var cols := [Column(ULong, 1), Column(ULong, 1)];
    var r, q := Request(Input, 0, U32, 1, true), Request(Match, 1, U32, 1, true);
    var b1 := Bind(cols, NO_BINDS, r).0;
    NewColumnIsBound(cols, NO_BINDS, r);
    FirstOfIs(b1.list, 1, 1);
    NewColumnIsBound(cols, b1, q);
    EmptyHasNone();
    InputShiftsMatch(cols, NO_BINDS, r, b1, q);
  }

  /** A 32-bit request for a 32-bit column that is not in the list is accepted. */
  lemma NewColumnIsBound(cols: seq<Column>, b: Binds, r: Request)
    requires r.app == U32 && r.size == 1 && r.hasAddr && FirstOf(b.list, r.col) == |b.list|
    requires r.col < |cols| && r.col != DAL_COL_STD_INTEGER && cols[r.col] == Column(ULong, 1)
    ensures Bind(cols, b, r).1 == Bound
    ensures Bind(cols, b, r).0.list == b.list + [Update(Column(ULong, 1), Fresh(r.col), r).0]
  {
    var e := Update(Column(ULong, 1), Fresh(r.col), r).0;
    assert (b.list + [Fresh(r.col)])[|b.list| := e] == b.list + [e];
  }

  /** The number k places after `start`, in 16 bits. */
  function NumberAt(start: nat, k: nat): nat {
    if k == 0 then start else Inc(NumberAt(start, k - 1))
  }

  /** Short of 65536 the numbers simply count on. */
  lemma {:induction false} NumberAtCounts(start: nat, k: nat)
    requires start + k <= 0xFFFF
    ensures NumberAt(start, k) == start + k
  {
    if k > 0 { NumberAtCounts(start, k - 1); }
  }

  lemma {:induction false} NumberAtJoins(start: nat, j: nat, k: nat)
    ensures NumberAt(NumberAt(start, j), k) == NumberAt(start, j + k)
  {
    if k > 0 { NumberAtJoins(start, j, k - 1); }
  }

  /** Buffers numbered one by one from `start`. */
  ghost predicate Numbered(bound: seq<(nat, Buffer)>, start: nat, bufs: seq<Buffer>) {
    |bound| == |bufs| && forall k :: 0 <= k < |bound| ==> bound[k] == (NumberAt(start, k), bufs[k])
  }

  /** Numbers from 1 run 1, 2, 3 and so on without a gap exactly up to 65535 buffers. */
  lemma NumberedFromOneIff(bound: seq<(nat, Buffer)>, bufs: seq<Buffer>)
    requires Numbered(bound, 1, bufs)
    ensures (forall k :: 0 <= k < |bound| ==> bound[k].0 == k + 1) <==> |bound| <= 0xFFFF
  {
    if |bound| <= 0xFFFF {
      forall k | 0 <= k < |bound| ensures bound[k].0 == k + 1 { NumberAtCounts(1, k); }
    } else {
      NumberAtCounts(1, 0xFFFE);
      assert bound[0xFFFF].0 == 0;
    }
  }

  lemma NumberedJoins(x: seq<(nat, Buffer)>, y: seq<(nat, Buffer)>, start: nat, xs: seq<Buffer>, ys: seq<Buffer>)
    requires Numbered(x, start, xs) && Numbered(y, NumberAt(start, |x|), ys)
    ensures Numbered(x + y, start, xs + ys)
  {
    forall k | |x| <= k < |x| + |y| ensures (x + y)[k] == (NumberAt(start, k), (xs + ys)[k]) {
      assert (x + y)[k] == y[k - |x|];
      NumberAtJoins(start, |x|, k - |x|);
    }
  }

  lemma NumberedPush(bound: seq<(nat, Buffer)>, start: nat, bufs: seq<Buffer>, buf: Buffer)
    requires Numbered(bound, start, bufs)
    ensures Numbered(bound + [(NumberAt(start, |bound|), buf)], start, bufs + [buf])
  {}

  lemma BuffersStep(list: seq<Entry>, i: nat, io: Io)
    requires i < |list|
    ensures Buffers(list[..i + 1], io) ==
            Buffers(list[..i], io) + if Holds(list[i].io, io) then [Buffer(i, io)] else []
  {
    assert list[..i + 1][..i] == list[..i];
  }

  /** The loop over the list that hands the buffers of one role to the statement. */
  method NumberRole(list: seq<Entry>, io: Io, start: nat) returns (bound: seq<(nat, Buffer)>, next: nat)
    ensures Numbered(bound, start, Buffers(list, io))
    ensures next == NumberAt(start, |bound|)
  {
    bound, next := [], start;
    ghost var bufs: seq<Buffer> := [];
    for i := 0 to |list|
      invariant bufs == Buffers(list[..i], io)
      invariant Numbered(bound, start, bufs)
      invariant next == NumberAt(start, |bound|)
    {
      BuffersStep(list, i, io);
      if Holds(list[i].io, io) {
        NumberedPush(bound, start, bufs, Buffer(i, io));
        bound, bufs := bound + [(next, Buffer(i, io))], bufs + [Buffer(i, io)];
        next := Inc(next);
      }
    }
    assert list[..|list|] == list;
  }

  // ---------------------------------------------------------------- the object

  class DalBindInfo {
    const cols: seq<Column>
    var bindList: seq<Entry>
    var inputBindCount: nat
    var outputBindCount: nat
    var matchBindCount: nat

    ghost function State(): Binds
      reads this
    {
      Binds(bindList, inputBindCount, outputBindCount, matchBindCount)
    }

    constructor (columns: seq<Column>)
      ensures State() == NO_BINDS && cols == columns
    {
      cols := columns;
      bindList, inputBindCount, outputBindCount, matchBindCount := [], 0, 0, 0;
    }

    method BindAttributeInPlace(r: Request) returns (out: Outcome)
      modifies this`bindList
      ensures (bindList, out) == BindAttribute(cols, old(bindList), r)
    {
      if !ValidParams(cols, r) { return Early; }
      var avail := false;
      var i := 0;
      while i < |bindList|
        invariant i <= |bindList| && !avail && bindList == old(bindList)
        invariant forall j :: 0 <= j < i ==> bindList[j].col != r.col
      {
        if bindList[i].col == r.col {
          var a := AvailabilityOf(bindList[i].io, r.io);
          if a == Refused { FirstOfIs(bindList, r.col, i); return Early; }
          avail := a == Reuse;
          break;
        }
        i := i + 1;
      }
      FirstOfIs(bindList, r.col, i);
      if !avail {
        i := |bindList|;
        bindList := bindList + [Fresh(r.col)];
      }
      var res := Update(ColumnOf(cols, r.col).value, bindList[i], r);
      bindList, out := bindList[i := res.0], res.1;
    }

    method BindRequest(r: Request) returns (ok: bool)
      modifies this
      ensures State() == Bind(cols, old(State()), r).0 && ok == (Bind(cols, old(State()), r).1 == Bound)
    {
      var out := BindAttributeInPlace(r);
      if out != Bound { return false; }
      match r.io {
        case Input => inputBindCount := Inc(inputBindCount);
        case Output => outputBindCount := Inc(outputBindCount);
        case Match => matchBindCount := Inc(matchBindCount);
      }
      return true;
    }

    /** BindInputToQuery, BindOutputToQuery or BindMatchToQuery: numbers on from `start` in list order. */
    method BindRoleToQuery(io: Io, start: nat) returns (bound: seq<(nat, Buffer)>, next: nat)
      ensures Numbered(bound, start, Buffers(bindList, io))
      ensures next == NumberAt(start, |bound|)
    {
      bound, next := NumberRole(bindList, io, start);
    }

    /** BindToQuery: inputs and matches share one numbering, outputs have their own, both from 1. */
    method BindToQuery() returns (params: seq<(nat, Buffer)>, outs: seq<(nat, Buffer)>)
      ensures Numbered(params, 1, Params(State()))
      ensures Numbered(outs, 1, if outputBindCount != 0 then Buffers(bindList, Output) else [])
      ensures (forall k :: 0 <= k < |params| ==> params[k].0 == k + 1) <==> |params| <= 0xFFFF
      ensures (forall k :: 0 <= k < |outs| ==> outs[k].0 == k + 1) <==> |outs| <= 0xFFFF
    {
      var next, more := 1, [];
      params, outs := [], [];
      if inputBindCount != 0 { params, next := BindRoleToQuery(Input, next); }
      if outputBindCount != 0 {
        var last;
        outs, last := BindRoleToQuery(Output, 1);
      }
      ghost var ins, mats: seq<Buffer> := if inputBindCount != 0 then Buffers(bindList, Input) else [], [];
      if matchBindCount != 0 {
        more, next := BindRoleToQuery(Match, next);
        mats := Buffers(bindList, Match);
      }
      NumberedJoins(params, more, 1, ins, mats);
      params := params + more;
      NumberedFromOneIff(params, ins + mats);
      NumberedFromOneIff(outs, if outputBindCount != 0 then Buffers(bindList, Output) else []);
    }
  }
}
