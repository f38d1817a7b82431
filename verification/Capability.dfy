/**
 * Controller capabilities: a version inherits from its parent whatever its own block of a key type does not
 * define.  Every lookup is a loop that walks up the parent chain until it finds a definition or no parent.
 */
module Capability {
  import opened Common

  type Ver = string

  /** The four availabilities of an attribute: create, update, read, read of the state. */
  datatype Caps = Caps(create: bool, update: bool, read: bool, state: bool)

  /** A key type's block for one version. */
  datatype Block = Block(instances: Option<nat>, attrs: map<string, Caps>)

  /** The configuration: blocks by key type and version. */
  type Conf = map<(string, Ver), Block>

  type Parents = map<Ver, Ver>

  // ------------------------------------------------------------ the parent chain

  /** GetCtrlrParentVersion. */
  function Parent(pm: Parents, v: Ver): Ver {
    if v in pm then pm[v] else ""
  }

  /** The n-th ancestor; the chain stays at "" once it gets there. */
  function Ancestor(pm: Parents, v: Ver, n: nat): Ver
    decreases n
  {
    if v == "" || n == 0 then v else Ancestor(pm, Parent(pm, v), n - 1)
  }

  /** No version is its own proper ancestor. */
  ghost predicate Acyclic(pm: Parents) {
    forall v: Ver, n: nat :: v != "" && n > 0 ==> Ancestor(pm, v, n) != v
  }

  lemma {:induction false} AncestorJoins(pm: Parents, v: Ver, i: nat, j: nat)
    ensures Ancestor(pm, Ancestor(pm, v, i), j) == Ancestor(pm, v, i + j)
    decreases i
  {
    if v == "" {
      assert Ancestor(pm, v, i) == "" && Ancestor(pm, v, i + j) == "";
    } else if i > 0 {
      AncestorJoins(pm, Parent(pm, v), i - 1, j);
    }
  }

  /** The versions met in the first n steps. */
  ghost function Met(pm: Parents, v: Ver, n: nat): set<Ver> {
    set i: nat | i < n :: Ancestor(pm, v, i)
  }

  lemma {:induction false} MetGrows(pm: Parents, v: Ver, n: nat)
    requires Acyclic(pm) && Ancestor(pm, v, n) != ""
    ensures |Met(pm, v, n)| == n && Met(pm, v, n) <= pm.Keys
  {
    if n > 0 {
      var x := Ancestor(pm, v, n - 1);
      AncestorJoins(pm, v, n - 1, 1);
      assert x != "" && Parent(pm, x) == Ancestor(pm, x, 1) != "";
      MetGrows(pm, v, n - 1);
      assert Met(pm, v, n) == Met(pm, v, n - 1) + {x};
      if x in Met(pm, v, n - 1) {
        var i: nat :| i < n - 1 && x == Ancestor(pm, v, i);
        AncestorJoins(pm, v, i, n - 1 - i);
        assert false;
      }
    }
  }

  /** Over an acyclic parent map every chain ends, after at most as many steps as the map has versions. */
  lemma AcyclicChainsEnd(pm: Parents, v: Ver)
    requires Acyclic(pm)
    ensures Ancestor(pm, v, |pm| + 1) == ""
  {
    if Ancestor(pm, v, |pm| + 1) != "" {
      MetGrows(pm, v, |pm| + 1);
      SubsetIsSmaller(Met(pm, v, |pm| + 1), pm.Keys);
      assert false;
    }
  }

  lemma {:induction false} RanksFall(pm: Parents, rank: Ver -> nat, v: Ver, n: nat)
    requires forall x :: x in pm && pm[x] != "" ==> rank(pm[x]) < rank(x)
    ensures Ancestor(pm, v, n) != "" && n > 0 ==> rank(Ancestor(pm, v, n)) < rank(v)
    decreases n
  {
    if v != "" && n > 0 { RanksFall(pm, rank, Parent(pm, v), n - 1); }
  }

  /** A parent map in which every version's parent is ranked below it, such as by the order of releases, is acyclic. */
  lemma RankedIsAcyclic(pm: Parents, rank: Ver -> nat)
    requires forall x :: x in pm && pm[x] != "" ==> rank(pm[x]) < rank(x)
    ensures Acyclic(pm)
  {
    forall v: Ver, n: nat | v != "" && n > 0 ensures Ancestor(pm, v, n) != v { RanksFall(pm, rank, v, n); }
  }

  // ----------------------------------------------------------------- the lookup

  type Defines = Ver -> bool

  /** The nearest version of the chain that defines something, or "". */
  function Find(pm: Parents, def: Defines, v: Ver, n: nat): Ver
    decreases n
  {
    if v == "" || n == 0 then "" else if def(v) then v else Find(pm, def, Parent(pm, v), n - 1)
  }

  function Nearest(pm: Parents, def: Defines, v: Ver): Ver {
    Find(pm, def, v, |pm| + 1)
  }

  /** What a lookup means: the i-th ancestor is the first of the chain to define it. */
  ghost predicate FirstDefinedAt(pm: Parents, def: Defines, v: Ver, i: nat) {
    && Ancestor(pm, v, i) != "" && def(Ancestor(pm, v, i))
    && forall j: nat :: j < i ==> !def(Ancestor(pm, v, j))
  }

  lemma {:induction false} FindIsFirst(pm: Parents, def: Defines, v: Ver, n: nat) returns (i: nat)
    requires Ancestor(pm, v, n) == ""
    ensures Find(pm, def, v, n) != "" ==> FirstDefinedAt(pm, def, v, i) && Find(pm, def, v, n) == Ancestor(pm, v, i)
    ensures Find(pm, def, v, n) == "" ==> forall j: nat :: Ancestor(pm, v, j) == "" || !def(Ancestor(pm, v, j))
    decreases n
  {
    i := 0;
    if v == "" || n == 0 {
      assert v == "";
    } else if !def(v) {
      var k := FindIsFirst(pm, def, Parent(pm, v), n - 1);
      i := k + 1;
      forall j: nat ensures Ancestor(pm, v, j) == if j == 0 then v else Ancestor(pm, Parent(pm, v), j - 1) {}
      if Find(pm, def, v, n) != "" {
        forall j: nat | j < i ensures !def(Ancestor(pm, v, j)) {}
      }
    }
  }

  /** Nearest gives the first definition up the chain, and "" only if there is none. */
  lemma NearestIsFirst(pm: Parents, def: Defines, v: Ver)
    requires Acyclic(pm)
    ensures Nearest(pm, def, v) != "" ==>
              exists i: nat :: FirstDefinedAt(pm, def, v, i) && Nearest(pm, def, v) == Ancestor(pm, v, i)
    ensures Nearest(pm, def, v) == "" ==> forall j: nat :: Ancestor(pm, v, j) == "" || !def(Ancestor(pm, v, j))
  {
    AcyclicChainsEnd(pm, v);
    var i := FindIsFirst(pm, def, v, |pm| + 1);
  }

  /** Any bound that reaches the end of the chain gives the same answer. */
  lemma {:induction false} FindNeedsNoMore(pm: Parents, def: Defines, v: Ver, n: nat, m: nat)
    requires Ancestor(pm, v, n) == "" && Ancestor(pm, v, m) == ""
    ensures Find(pm, def, v, n) == Find(pm, def, v, m)
    decreases n
  {
    if v != "" {
      FindNeedsNoMore(pm, def, Parent(pm, v), n - 1, m - 1);
    }
  }

  lemma NearestUnfolds(pm: Parents, def: Defines, v: Ver)
    requires Acyclic(pm) && v != ""
    ensures Nearest(pm, def, v) == if def(v) then v else Nearest(pm, def, Parent(pm, v))
  {
    AcyclicChainsEnd(pm, v);
    AcyclicChainsEnd(pm, Parent(pm, v));
    FindNeedsNoMore(pm, def, Parent(pm, v), |pm|, |pm| + 1);
  }

  /**
   * A value defined in a key-type block can be looked up from the nearest version that has the block at all:
   * the answer is that of a lookup from the version that was asked for.
   */
  lemma {:induction false} FindThroughBlock(pm: Parents, def: Defines, has: Defines, v: Ver, n: nat)
    requires Acyclic(pm) && Ancestor(pm, v, n) == ""
    requires forall x: Ver :: def(x) ==> has(x)
    ensures Nearest(pm, def, v) == Nearest(pm, def, Nearest(pm, has, v))
    decreases n
  {
    if v != "" {
      NearestUnfolds(pm, def, v);
      NearestUnfolds(pm, has, v);
      if !has(v) { FindThroughBlock(pm, def, has, Parent(pm, v), n - 1); }
    }
  }

  lemma LookupThroughBlock(pm: Parents, def: Defines, has: Defines, v: Ver)
    requires Acyclic(pm) && forall x: Ver :: def(x) ==> has(x)
    ensures Nearest(pm, def, v) == Nearest(pm, def, Nearest(pm, has, v))
  {
    AcyclicChainsEnd(pm, v);
    FindThroughBlock(pm, def, has, v, |pm| + 1);
  }

  /** On a cycle without a definition the walk never gets to an end: the loop has nothing to stop it. */
  lemma {:induction false} CycleNeverEnds(pm: Parents, v: Ver, n: nat, k: nat)
    requires v != "" && n > 0 && Ancestor(pm, v, n) == v
    ensures Ancestor(pm, v, k) != ""
    decreases k
  {
    if k >= n {
      AncestorJoins(pm, v, n, k - n);
      CycleNeverEnds(pm, v, n, k - n);
    } else {
      AncestorJoins(pm, v, k, n - k);
    }
  }

  // ------------------------------------------------------- what is looked up

  predicate HasBlock(conf: Conf, kt: string, v: Ver) { (kt, v) in conf }

  predicate HasInstances(conf: Conf, kt: string, v: Ver) { (kt, v) in conf && conf[(kt, v)].instances.Some? }

  predicate HasAttr(conf: Conf, kt: string, attr: string, v: Ver) { (kt, v) in conf && attr in conf[(kt, v)].attrs }

  function BlockVersion(conf: Conf, pm: Parents, kt: string, v: Ver): Ver {
    Nearest(pm, x => HasBlock(conf, kt, x), v)
  }

  function InstanceVersion(conf: Conf, pm: Parents, kt: string, v: Ver): Ver {
    Nearest(pm, x => HasInstances(conf, kt, x), v)
  }

  function AttrVersion(conf: Conf, pm: Parents, kt: string, attr: string, v: Ver): Ver {
    Nearest(pm, x => HasAttr(conf, kt, attr, x), v)
  }

  lemma NearestDefines(pm: Parents, def: Defines, v: Ver)
    requires Acyclic(pm) && Nearest(pm, def, v) != ""
    ensures def(Nearest(pm, def, v))
  {
    NearestIsFirst(pm, def, v);
  }

  /** The inherited instance count; 0 if no version of the chain has one. */
  function Instances(conf: Conf, pm: Parents, kt: string, v: Ver): nat {
    var r := InstanceVersion(conf, pm, kt, v);
    if r != "" && HasInstances(conf, kt, r) then conf[(kt, r)].instances.value else 0
  }

  /** The inherited capabilities of an attribute. */
  function AttrCaps(conf: Conf, pm: Parents, kt: string, attr: string, v: Ver): Option<Caps> {
    var r := AttrVersion(conf, pm, kt, attr, v);
    if r != "" && HasAttr(conf, kt, attr, r) then Some(conf[(kt, r)].attrs[attr]) else None
  }

  /** The version of the chain from v that a value is inherited from: the first that defines it. */
  ghost predicate InheritedFrom(pm: Parents, def: Defines, v: Ver, from: Ver) {
    exists i: nat :: FirstDefinedAt(pm, def, v, i) && from == Ancestor(pm, v, i)
  }

  ghost predicate NobodyDefines(pm: Parents, def: Defines, v: Ver) {
    forall j: nat :: Ancestor(pm, v, j) == "" || !def(Ancestor(pm, v, j))
  }

  /** An instance count is that of the first version of the chain that has one, and 0 exactly in want of one. */
  lemma InstancesMeans(conf: Conf, pm: Parents, kt: string, v: Ver)
    requires Acyclic(pm)
    ensures var def: Defines := x => HasInstances(conf, kt, x);
            || (NobodyDefines(pm, def, v) && Instances(conf, pm, kt, v) == 0)
            || exists from: Ver :: InheritedFrom(pm, def, v, from) && (kt, from) in conf
                                   && conf[(kt, from)].instances == Some(Instances(conf, pm, kt, v))
  {
    var def: Defines := x => HasInstances(conf, kt, x);
    NearestIsFirst(pm, def, v);
    if Nearest(pm, def, v) != "" {
      NearestDefines(pm, def, v);
      assert InheritedFrom(pm, def, v, Nearest(pm, def, v));
    }
  }

  /** The capabilities of an attribute are those of the first version of the chain that defines it, if one does. */
  lemma AttrCapsMeans(conf: Conf, pm: Parents, kt: string, attr: string, v: Ver)
    requires Acyclic(pm)
    ensures var def: Defines := x => HasAttr(conf, kt, attr, x);
            match AttrCaps(conf, pm, kt, attr, v)
            case None => NobodyDefines(pm, def, v)
            case Some(c) =>
              exists from: Ver :: InheritedFrom(pm, def, v, from) && (kt, from) in conf
                                  && attr in conf[(kt, from)].attrs && c == conf[(kt, from)].attrs[attr]
  {
    var def: Defines := x => HasAttr(conf, kt, attr, x);
    NearestIsFirst(pm, def, v);
    if Nearest(pm, def, v) != "" {
      NearestDefines(pm, def, v);
      assert InheritedFrom(pm, def, v, Nearest(pm, def, v));
    }
  }

  /** Both may be looked up from the version of the nearest block, as LoadCtrlrCapability does. */
  lemma ResolvingFromBlockIsResolving(conf: Conf, pm: Parents, kt: string, attr: string, v: Ver)
    requires Acyclic(pm)
    ensures Instances(conf, pm, kt, BlockVersion(conf, pm, kt, v)) == Instances(conf, pm, kt, v)
    ensures AttrCaps(conf, pm, kt, attr, BlockVersion(conf, pm, kt, v)) == AttrCaps(conf, pm, kt, attr, v)
  {
    LookupThroughBlock(pm, x => HasInstances(conf, kt, x), x => HasBlock(conf, kt, x), v);
    LookupThroughBlock(pm, x => HasAttr(conf, kt, attr, x), x => HasBlock(conf, kt, x), v);
  }

  // ------------------------------------------------------------------ the loops

  /** The walk that all three loads share: up the chain until the version is empty or defines the value. */
  method Walk(pm: Parents, def: Defines, version: Ver) returns (ver: Ver)
    requires Acyclic(pm)
    ensures ver == Nearest(pm, def, version)
  {
    ver := version;
    ghost var n: nat := |pm| + 1;
    AcyclicChainsEnd(pm, version);
    while ver != "" && !def(ver)
      invariant Ancestor(pm, ver, n) == ""
      invariant Nearest(pm, def, ver) == Nearest(pm, def, version)
      decreases n
    {
      NearestUnfolds(pm, def, ver);
      ver := Parent(pm, ver);
      n := n - 1;
    }
    if ver != "" { NearestUnfolds(pm, def, ver); }
  }

  method LoadInstanceCount(conf: Conf, pm: Parents, kt: string, version: Ver) returns (count: nat)
    requires Acyclic(pm)
    ensures count == Instances(conf, pm, kt, version)
  {
    var ver := Walk(pm, x => HasInstances(conf, kt, x), version);
    if ver == "" { return 0; }
    NearestDefines(pm, x => HasInstances(conf, kt, x), version);
    count := conf[(kt, ver)].instances.value;
  }

  // ------------------------------------------------------- the attribute arrays

  function Bit(b: bool): (r: uint8)
    ensures r != 0 <==> b
  {
    if b then 1 else 0
  }

  /** The four bytes of an attribute say what c says, field by field; without c they say no to everything. */
  predicate Says(row: (uint8, uint8, uint8, uint8), c: Option<Caps>) {
    && (row.0 != 0 <==> c.Some? && c.value.create)
    && (row.1 != 0 <==> c.Some? && c.value.update)
    && (row.2 != 0 <==> c.Some? && c.value.read)
    && (row.3 != 0 <==> c.Some? && c.value.state)
  }

  /** What is to be recorded for attribute i: inherited values up to the first unresolved attribute, then nothing. */
  function Expected(conf: Conf, pm: Parents, kt: string, attrs: seq<string>, v: Ver, i: nat): Option<Caps>
    requires i < |attrs|
  {
    if i < FirstUnresolved(conf, pm, kt, attrs, v) then AttrCaps(conf, pm, kt, attrs[i], v) else None
  }

  /** The index of the first attribute that no version of the chain defines, or the number of attributes. */
  function FirstUnresolved(conf: Conf, pm: Parents, kt: string, attrs: seq<string>, v: Ver): (k: nat)
    ensures k <= |attrs|
    ensures forall i :: 0 <= i < k ==> AttrCaps(conf, pm, kt, attrs[i], v).Some?
    ensures k < |attrs| ==> AttrCaps(conf, pm, kt, attrs[k], v).None?
  {
    if attrs == [] || AttrCaps(conf, pm, kt, attrs[0], v).None? then 0
    else 1 + FirstUnresolved(conf, pm, kt, attrs[1..], v)
  }

  lemma {:induction false} FirstUnresolvedIs(conf: Conf, pm: Parents, kt: string, attrs: seq<string>, v: Ver, k: nat)
    requires k <= |attrs|
    requires forall i :: 0 <= i < k ==> AttrCaps(conf, pm, kt, attrs[i], v).Some?
    requires k < |attrs| ==> AttrCaps(conf, pm, kt, attrs[k], v).None?
    ensures FirstUnresolved(conf, pm, kt, attrs, v) == k
  {
    if k > 0 { FirstUnresolvedIs(conf, pm, kt, attrs[1..], v, k - 1); }
  }

  class KtAttrCapability {
    const numAttrs: nat
    const createCap: array<uint8>
    const updateCap: array<uint8>
    const readCap: array<uint8>
    const stateCap: array<uint8>

    /** Four separate arrays of the attributes' number, or of length 1 if there are none. */
    ghost predicate Valid()
    {
      && createCap.Length == (if numAttrs == 0 then 1 else numAttrs)
      && createCap.Length == updateCap.Length == readCap.Length == stateCap.Length
      && createCap != updateCap && createCap != readCap && createCap != stateCap
      && updateCap != readCap && updateCap != stateCap && readCap != stateCap
    }

    /** What the four arrays hold for attribute i. */
    ghost function At(i: nat): (uint8, uint8, uint8, uint8)
      requires Valid() && i < createCap.Length
      reads createCap, updateCap, readCap, stateCap
    {
      (createCap[i], updateCap[i], readCap[i], stateCap[i])
    }

    /** Init. */
    constructor (num: nat)
      ensures Valid() && numAttrs == num
      ensures fresh(createCap) && fresh(updateCap) && fresh(readCap) && fresh(stateCap)
      ensures forall i :: 0 <= i < createCap.Length ==> At(i) == (0, 0, 0, 0) && Says(At(i), None)
    {
      numAttrs := num;
      var len := if num == 0 then 1 else num;
      createCap := new uint8[len](_ => 0);
      updateCap := new uint8[len](_ => 0);
      readCap := new uint8[len](_ => 0);
      stateCap := new uint8[len](_ => 0);
    }

    /** SetAttrCap; missed: the index passes the guard and lies behind the arrays, where the source would write. */
    method SetAttrCap(i: nat, c: Caps) returns (ok: bool, missed: bool)
      requires Valid()
      modifies createCap, updateCap, readCap, stateCap
      ensures ok == (i <= numAttrs) && missed == (ok && i >= createCap.Length)
      ensures ok && !missed ==>
                && (createCap[i] != 0 <==> c.create) && (updateCap[i] != 0 <==> c.update)
                && (readCap[i] != 0 <==> c.read) && (stateCap[i] != 0 <==> c.state)
      ensures forall j :: 0 <= j < createCap.Length && !(ok && j == i) ==> At(j) == old(At(j))
    {
      if i > numAttrs { return false, false; }
      if i >= createCap.Length { return true, true; }
      createCap[i] := Bit(c.create);
      updateCap[i] := Bit(c.update);
      readCap[i] := Bit(c.read);
      stateCap[i] := Bit(c.state);
      return true, false;
    }

    /** Exactly the index that does: one past the last attribute, unless there are none and the spare byte takes it. */
    lemma GuardMissesIff(i: nat)
      requires Valid()
      ensures (i <= numAttrs && i >= createCap.Length) <==> (i == numAttrs && numAttrs > 0)
    {}

    /** LoadAttrCapability. */
    method LoadAttrCapability(conf: Conf, pm: Parents, kt: string, attr: string, i: nat, version: Ver)
      returns (ok: bool)
      requires Acyclic(pm) && Valid() && i < numAttrs
      modifies createCap, updateCap, readCap, stateCap
      ensures ok == AttrCaps(conf, pm, kt, attr, version).Some?
      ensures ok ==> Says(At(i), AttrCaps(conf, pm, kt, attr, version))
      ensures forall j :: 0 <= j < createCap.Length && !(ok && j == i) ==> At(j) == old(At(j))
    {
      var ver := Walk(pm, x => HasAttr(conf, kt, attr, x), version);
      if ver == "" { return false; }
      NearestDefines(pm, x => HasAttr(conf, kt, attr, x), version);
      var done, missed := SetAttrCap(i, conf[(kt, ver)].attrs[attr]);
      return true;
    }
  }

  /** LoadKtCapability: stops at the first attribute that cannot be resolved and leaves the rest at zero. */
  method LoadKtCapability(conf: Conf, pm: Parents, kt: string, attrs: seq<string>, version: Ver)
    returns (cap: KtAttrCapability, ok: bool)
    requires Acyclic(pm)
    ensures cap.Valid() && cap.numAttrs == |attrs|
    ensures ok == (FirstUnresolved(conf, pm, kt, attrs, version) == |attrs|)
    ensures forall i :: 0 <= i < |attrs| ==> Says(cap.At(i), Expected(conf, pm, kt, attrs, version, i))
  {
    cap := new KtAttrCapability(|attrs|);
    var index := 0;
    while index < |attrs|
      invariant index <= |attrs| && cap.Valid() && cap.numAttrs == |attrs|
      invariant fresh(cap.createCap) && fresh(cap.updateCap) && fresh(cap.readCap) && fresh(cap.stateCap)
      invariant forall i :: 0 <= i < index ==> AttrCaps(conf, pm, kt, attrs[i], version).Some?
      invariant forall i :: 0 <= i < |attrs| ==>
                  Says(cap.At(i), if i < index then AttrCaps(conf, pm, kt, attrs[i], version) else None)
    {
      var found := cap.LoadAttrCapability(conf, pm, kt, attrs[index], index, version);
      if !found {
        FirstUnresolvedIs(conf, pm, kt, attrs, version, index);
        return cap, false;
      }
      index := index + 1;
    }
    FirstUnresolvedIs(conf, pm, kt, attrs, version, |attrs|);
    ok := true;
  }

  /** A row of kt_map, and what LoadCtrlrCapability stores for it. */
  datatype KeyType = KeyType(id: nat, name: string, attrs: seq<string>)

  datatype KtCapability = KtCapability(instances: nat, attrs: KtAttrCapability)

  /** Everything recorded for a key type is what the requested version inherits. */
  ghost predicate Loaded(c: KtCapability, conf: Conf, pm: Parents, kt: KeyType, version: Ver)
    reads c.attrs.createCap, c.attrs.updateCap, c.attrs.readCap, c.attrs.stateCap
  {
    && c.instances == Instances(conf, pm, kt.name, version)
    && c.attrs.Valid() && c.attrs.numAttrs == |kt.attrs|
    && forall i :: 0 <= i < |kt.attrs| ==> Says(c.attrs.At(i), Expected(conf, pm, kt.name, kt.attrs, version, i))
  }

  /** One turn of LoadCtrlrCapability: it loads from the nearest version that has a block of the key type. */
  method LoadKeyType(conf: Conf, pm: Parents, kt: KeyType, version: Ver) returns (r: Option<KtCapability>)
    requires Acyclic(pm)
    ensures r.None? <==> BlockVersion(conf, pm, kt.name, version) == ""
    ensures r.Some? ==> Loaded(r.value, conf, pm, kt, version)
  {
    var ver := Walk(pm, x => HasBlock(conf, kt.name, x), version);
    if ver == "" { return None; }
    var count := LoadInstanceCount(conf, pm, kt.name, ver);
    var cap, ok := LoadKtCapability(conf, pm, kt.name, kt.attrs, ver);
    forall attr: string ensures AttrCaps(conf, pm, kt.name, attr, ver) == AttrCaps(conf, pm, kt.name, attr, version) {
      ResolvingFromBlockIsResolving(conf, pm, kt.name, attr, version);
    }
    ResolvingFromBlockIsResolving(conf, pm, kt.name, "", version);
    FirstUnresolvedIs(conf, pm, kt.name, kt.attrs, version, FirstUnresolved(conf, pm, kt.name, kt.attrs, ver));
    forall i | 0 <= i < |kt.attrs| ensures Says(cap.At(i), Expected(conf, pm, kt.name, kt.attrs, version, i)) {
      assert Says(cap.At(i), Expected(conf, pm, kt.name, kt.attrs, ver, i));
    }
    r := Some(KtCapability(count, cap));
  }

  /** The loop of LoadCtrlrCapability over the table of key types. */
  method LoadKeyTypes(conf: Conf, pm: Parents, ktMap: seq<KeyType>, version: Ver)
    returns (found: seq<Option<KtCapability>>)
    requires Acyclic(pm)
    ensures |found| == |ktMap|
    ensures forall i :: 0 <= i < |found| ==> (found[i].None? <==> BlockVersion(conf, pm, ktMap[i].name, version) == "")
    ensures forall i :: 0 <= i < |found| && found[i].Some? ==> Loaded(found[i].value, conf, pm, ktMap[i], version)
  {
    found := [];
    for index := 0 to |ktMap|
      invariant |found| == index
      invariant forall i :: 0 <= i < index ==>
                  (found[i].None? <==> BlockVersion(conf, pm, ktMap[i].name, version) == "")
      invariant forall i :: 0 <= i < index && found[i].Some? ==> Loaded(found[i].value, conf, pm, ktMap[i], version)
    {
      var r := LoadKeyType(conf, pm, ktMap[index], version);
      found := found + [r];
    }
  }

  /** The insertions into kt_cap_map_. */
  method BuildMap<V>(ids: seq<nat>, found: seq<Option<V>>) returns (m: map<nat, V>)
    requires |ids| == |found| && forall i, j :: 0 <= i < j < |ids| ==> ids[i] != ids[j]
    ensures forall i :: 0 <= i < |ids| ==> (ids[i] in m <==> found[i].Some?)
    ensures forall i :: 0 <= i < |ids| && ids[i] in m ==> m[ids[i]] == found[i].value
  {
    m := map[];
    for n := 0 to |ids|
      invariant forall i :: 0 <= i < |ids| ==> (ids[i] in m <==> i < n && found[i].Some?)
      invariant forall i :: 0 <= i < n && ids[i] in m ==> m[ids[i]] == found[i].value
    {
      if found[n].Some? { m := m[ids[n] := found[n].value]; }
    }
  }

  /** LoadCtrlrCapability: a key type is recorded exactly if some version of the chain has a block for it. */
  method LoadCtrlrCapability(conf: Conf, pm: Parents, ktMap: seq<KeyType>, version: Ver)
    returns (caps: map<nat, KtCapability>)
    requires Acyclic(pm)
    requires forall i, j :: 0 <= i < j < |ktMap| ==> ktMap[i].id != ktMap[j].id
    ensures forall i :: 0 <= i < |ktMap| ==>
              (ktMap[i].id in caps <==> BlockVersion(conf, pm, ktMap[i].name, version) != "")
    ensures forall i :: 0 <= i < |ktMap| && ktMap[i].id in caps ==>
              Loaded(caps[ktMap[i].id], conf, pm, ktMap[i], version)
  {
    var found := LoadKeyTypes(conf, pm, ktMap, version);
    var ids := seq(|ktMap|, i requires 0 <= i < |ktMap| => ktMap[i].id);
    caps := BuildMap(ids, found);
    forall i | 0 <= i < |ktMap|
      ensures ktMap[i].id in caps <==> found[i].Some?
      ensures ktMap[i].id in caps ==> caps[ktMap[i].id] == found[i].value
    {
      assert ids[i] == ktMap[i].id;
    }
  }
}
