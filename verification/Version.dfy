/** Acceptance of an actual controller version by the list of versions behind a configured one. */
module Version {
  import opened Common

  /** A listed version; the parts are 32-bit integers as read from the configuration, -1 a wildcard. */
  datatype Listed = Listed(major1: int, major2: int, minor: int, update: int)

  datatype Actual = Actual(major1: uint8, major2: uint8, minor: uint8, update: uint8)

  /** The cast to uint8_t. */
  function Cast(x: int): (r: uint8)
    ensures (x - r as int) % 256 == 0
  {
    (x % 256) as uint8
  }

  /** A part as the comparison sees it. */
  datatype Part = Any | Num(n: uint8)

  function PartOf(x: int): Part { if x == -1 then Any else Num(Cast(x)) }

  function Parts(v: Listed): seq<Part> {
    [PartOf(v.major1), PartOf(v.major2), PartOf(v.minor), PartOf(v.update)]
  }

  function Digits(p: Actual): seq<uint8> { [p.major1, p.major2, p.minor, p.update] }

  /** Lexicographic order in which a wildcard accepts whatever follows. */
  predicate AtMost(v: seq<Part>, p: seq<uint8>)
    requires |v| == |p|
  {
    v == [] || v[0].Any? || v[0].n < p[0] || (v[0].n == p[0] && AtMost(v[1..], p[1..]))
  }

  /** The number that four parts spell in base 256; a wildcard and all that follows it count 0. */
  function Floor(v: seq<Part>): nat {
    if v == [] || v[0].Any? then 0 else v[0].n as nat * Pow256(|v| - 1) + Floor(v[1..])
  }

  function Value(p: seq<uint8>): nat {
    if p == [] then 0 else p[0] as nat * Pow256(|p| - 1) + Value(p[1..])
  }

  lemma DigitBelow(x: nat, w: nat, f: nat)
    requires x < 256 && f < w
    ensures x * w + f < 256 * w
  {}

  lemma {:induction false} SpellsBelowPow(v: seq<Part>, p: seq<uint8>)
    requires |v| == |p|
    ensures Floor(v) < Pow256(|v|) && Value(p) < Pow256(|p|)
  {
    if v != [] {
      SpellsBelowPow(v[1..], p[1..]);
      var w := Pow256(|v| - 1);
      DigitBelow(p[0] as nat, w, Value(p[1..]));
      if v[0].Num? { DigitBelow(v[0].n as nat, w, Floor(v[1..])); }
    }
  }

  lemma LeadingDigitDecides(x: nat, y: nat, w: nat, f: nat, g: nat)
    requires f < w && g < w
    ensures x * w + f <= y * w + g <==> x < y || (x == y && f <= g)
  {
    if x < y { assert (x + 1) * w <= y * w; } else if y < x { assert (y + 1) * w <= x * w; }
  }

  /** The lexicographic order is the numeric one: a listed version is a threshold on the actual one. */
  lemma {:induction false} AtMostIsNumeric(v: seq<Part>, p: seq<uint8>)
    requires |v| == |p|
    ensures AtMost(v, p) <==> Floor(v) <= Value(p)
  {
    if v != [] && v[0].Num? {
      AtMostIsNumeric(v[1..], p[1..]);
      SpellsBelowPow(v[1..], p[1..]);
      LeadingDigitDecides(v[0].n as nat, p[0] as nat, Pow256(|v| - 1), Floor(v[1..]), Value(p[1..]));
    }
  }

  predicate Accepted(list: seq<Listed>, p: Actual) {
    exists i :: 0 <= i < |list| && AtMost(Parts(list[i]), Digits(p))
  }

  /** ValidateVersion, which pops the list from the front; an unknown configured version is refused. */
  method ValidateVersion(versions: map<string, seq<Listed>>, config: string, p: Actual) returns (ok: bool)
    ensures ok == (config in versions && Accepted(versions[config], p))
  {
    if config !in versions { return false; }
    var list := versions[config];
    ghost var i := 0;
    while list != []
      invariant i <= |versions[config]| && list == versions[config][i..]
      invariant forall j :: 0 <= j < i ==> !AtMost(Parts(versions[config][j]), Digits(p))
      decreases |list|
    {
      var v := list[0];
      list := list[1..];
      FourParts(v, p);
      if v.major1 == -1 || Cast(v.major1) < p.major1 { return true; }
      if Cast(v.major1) == p.major1 {
        if v.major2 == -1 || Cast(v.major2) < p.major2 { return true; }
        if Cast(v.major2) == p.major2 {
          if v.minor == -1 || Cast(v.minor) < p.minor { return true; }
          if Cast(v.minor) == p.minor {
            if v.update == -1 || Cast(v.update) <= p.update { return true; }
          }
        }
      }
      i := i + 1;
    }
    return false;
  }

  /** AtMost on four parts, one after the other. */
  lemma FourParts(v: Listed, p: Actual)
    ensures AtMost(Parts(v), Digits(p)) <==>
            (v.major1 == -1 || Cast(v.major1) < p.major1 || (Cast(v.major1) == p.major1 &&
              (v.major2 == -1 || Cast(v.major2) < p.major2 || (Cast(v.major2) == p.major2 &&
                (v.minor == -1 || Cast(v.minor) < p.minor || (Cast(v.minor) == p.minor &&
                  (v.update == -1 || Cast(v.update) <= p.update)))))))
  {
    var x, y := Parts(v), Digits(p);
    assert x[1..][1..] == x[2..] && x[2..][1..] == x[3..] && x[3..][1..] == [];
    assert y[1..][1..] == y[2..] && y[2..][1..] == y[3..] && y[3..][1..] == [];
    assert AtMost(x[3..][1..], y[3..][1..]);
    assert AtMost(x[3..], y[3..]) <==> v.update == -1 || Cast(v.update) <= p.update;
    assert AtMost(x[2..], y[2..]) <==>
      v.minor == -1 || Cast(v.minor) < p.minor || (Cast(v.minor) == p.minor && AtMost(x[3..], y[3..]));
    assert AtMost(x[1..], y[1..]) <==>
      v.major2 == -1 || Cast(v.major2) < p.major2 || (Cast(v.major2) == p.major2 && AtMost(x[2..], y[2..]));
  }

  /** The same order on the listed numbers themselves. */
  predicate AtMostNumbers(v: seq<int>, p: seq<uint8>)
    requires |v| == |p|
  {
    v == [] || v[0] == -1 || v[0] < p[0] as int || (v[0] == p[0] as int && AtMostNumbers(v[1..], p[1..]))
  }

  function Numbers(v: Listed): seq<int> { [v.major1, v.major2, v.minor, v.update] }

  predicate InRange(v: Listed) {
    forall i :: 0 <= i < 4 ==> -1 <= Numbers(v)[i] <= 255
  }

  lemma {:induction false} CastChangesNothing(v: seq<int>, p: seq<uint8>)
    requires |v| == |p| && forall i :: 0 <= i < |v| ==> -1 <= v[i] <= 255
    ensures AtMost(seq(|v|, i requires 0 <= i < |v| => PartOf(v[i])), p) <==> AtMostNumbers(v, p)
  {
    if v != [] {
      CastChangesNothing(v[1..], p[1..]);
      assert seq(|v|, i requires 0 <= i < |v| => PartOf(v[i]))[1..] ==
             seq(|v[1..]|, i requires 0 <= i < |v[1..]| => PartOf(v[1..][i]));
    }
  }

  /**
   * With listed parts in -1..255: accepted exactly if some listed version is, part by part, at most the actual one,
   * -1 standing for anything.
   */
  lemma AcceptedInRangeIff(list: seq<Listed>, p: Actual)
    requires forall i :: 0 <= i < |list| ==> InRange(list[i])
    ensures Accepted(list, p) <==> exists i :: 0 <= i < |list| && AtMostNumbers(Numbers(list[i]), Digits(p))
  {
    forall i | 0 <= i < |list|
      ensures AtMost(Parts(list[i]), Digits(p)) <==> AtMostNumbers(Numbers(list[i]), Digits(p))
    {
      var v := Numbers(list[i]);
      CastChangesNothing(v, Digits(p));
      assert seq(|v|, j requires 0 <= j < |v| => PartOf(v[j])) == Parts(list[i]);
    }
  }

  /** Acceptance is a threshold: some listed version spells at most what the actual version spells. */
  lemma AcceptedIsThreshold(list: seq<Listed>, p: Actual)
    ensures Accepted(list, p) <==> exists i :: 0 <= i < |list| && Floor(Parts(list[i])) <= Value(Digits(p))
  {
    forall i | 0 <= i < |list|
      ensures AtMost(Parts(list[i]), Digits(p)) <==> Floor(Parts(list[i])) <= Value(Digits(p))
    {
      AtMostIsNumeric(Parts(list[i]), Digits(p));
    }
  }

  /** So it is monotone in the actual version. */
  lemma AcceptanceIsMonotone(list: seq<Listed>, p: Actual, q: Actual)
    requires Accepted(list, p) && Value(Digits(p)) <= Value(Digits(q))
    ensures Accepted(list, q)
  {
    AcceptedIsThreshold(list, p);
    AcceptedIsThreshold(list, q);
  }

  /** The first listed version, each part cast. */
  function Supported(list: seq<Listed>): Actual
    requires list != []
  {
    var v := list[0];
    Actual(Cast(v.major1), Cast(v.major2), Cast(v.minor), Cast(v.update))
  }

  /** Whatever the parts of the list, wildcards included, the version it reports is accepted by it. */
  lemma SupportedIsAccepted(list: seq<Listed>)
    requires list != []
    ensures Accepted(list, Supported(list))
  {
    FourParts(list[0], Supported(list));
    assert AtMost(Parts(list[0]), Digits(Supported(list)));
  }

  /** Without a wildcard the reported version is the least one that the first entry accepts. */
  lemma SupportedIsLeast(list: seq<Listed>)
    requires list != [] && Any !in Parts(list[0])
    ensures Value(Digits(Supported(list))) == Floor(Parts(list[0]))
  {
    var v, p := list[0], Supported(list);
    assert Parts(v)[0].Num? && Parts(v)[1].Num? && Parts(v)[2].Num? && Parts(v)[3].Num?;
    SameSpelling(Parts(v), Digits(p));
  }

  lemma {:induction false} SameSpelling(v: seq<Part>, p: seq<uint8>)
    requires |v| == |p| && forall i :: 0 <= i < |v| ==> v[i] == Num(p[i])
    ensures Floor(v) == Value(p)
  {
    if v != [] { SameSpelling(v[1..], p[1..]); }
  }

  /** The answers of GetSupportedVersion; on an empty list the source reads the front of nothing. */
  datatype SupportedVersion = UnknownConfig | Undefined | Supports(version: Actual)

  method GetSupportedVersion(versions: map<string, seq<Listed>>, config: string) returns (r: SupportedVersion)
    ensures r.UnknownConfig? <==> config !in versions
    ensures r.Undefined? <==> config in versions && versions[config] == []
    ensures r.Supports? ==> Accepted(versions[config], r.version)
    ensures r.Supports? ==> var v, w := versions[config][0], r.version;
              && w.major1 as int == v.major1 % 256 && w.major2 as int == v.major2 % 256
              && w.minor as int == v.minor % 256 && w.update as int == v.update % 256
    ensures r.Supports? && Any !in Parts(versions[config][0]) ==>
              Value(Digits(r.version)) == Floor(Parts(versions[config][0]))
  {
    if config !in versions { return UnknownConfig; }
    var list := versions[config];
    if list == [] { return Undefined; }
    SupportedIsAccepted(list);
    if Any !in Parts(list[0]) { SupportedIsLeast(list); }
    r := Supports(Supported(list));
  }

  // ------------------------------------------------------------ loading the list

  /** An array element, or the default 0 beyond its end. */
  function At(arr: seq<int>, i: nat): int { if i < |arr| then arr[i] else 0 }

  function VersionAt(arr: seq<int>, i: nat): Listed {
    Listed(At(arr, PartIndex(i, 0)), At(arr, PartIndex(i, 1)), At(arr, PartIndex(i, 2)), At(arr, PartIndex(i, 3)))
  }

  /** The place of part j of version i. */
  function PartIndex(i: nat, j: nat): nat { 4 * i + j }

  /** LoadActualVersion: `count` versions of four elements each; the array is checked only if there is one to load. */
  method LoadActualVersion(arr: seq<int>, count: nat) returns (ok: bool, list: seq<Listed>)
    ensures ok == (count == 0 || (arr != [] && |arr| % 4 == 0))
    ensures ok ==> |list| == count && forall i :: 0 <= i < count ==> list[i] == VersionAt(arr, i)
    ensures ok ==> forall i :: 0 <= i < count && 4 * i < |arr| ==>
              && list[i].major1 == arr[4 * i] && list[i].major2 == arr[4 * i + 1]
              && list[i].minor == arr[4 * i + 2] && list[i].update == arr[4 * i + 3]
    ensures ok ==> forall i :: 0 <= i < count && 4 * i >= |arr| ==> list[i] == Listed(0, 0, 0, 0)
  {
    list := [];
    var next := 0;
    for index := 0 to count
      invariant next == 4 * index && |list| == index
      invariant index > 0 ==> arr != [] && |arr| % 4 == 0
      invariant forall i :: 0 <= i < index ==> list[i] == VersionAt(arr, i)
    {
      if |arr| == 0 || |arr| % 4 != 0 { return false, list; }
      list := list + [Listed(At(arr, next), At(arr, next + 1), At(arr, next + 2), At(arr, next + 3))];
      next := next + 4;
    }
    ok := true;
  }

  /** Every part of the loaded versions comes from the array. */
  predicate FromArray(arr: seq<int>, count: nat) {
    forall i: nat, j: nat :: i < count && j < 4 ==> PartIndex(i, j) < |arr|
  }

  /**
   * For an array of whole versions: all parts come from it exactly if the count does not exceed it, and otherwise
   * the version 0.0.0.0 is among the loaded ones and every actual version is accepted.
   */
  lemma CountFitsIff(arr: seq<int>, count: nat, list: seq<Listed>, p: Actual)
    requires |list| == count && forall i :: 0 <= i < count ==> list[i] == VersionAt(arr, i)
    requires |arr| % 4 == 0
    ensures FromArray(arr, count) <==> 4 * count <= |arr|
    ensures !FromArray(arr, count) ==> Listed(0, 0, 0, 0) in list && Accepted(list, p)
  {
    if 4 * count > |arr| {
      var i := |arr| / 4;
      assert PartIndex(i, 0) >= |arr|;
      assert list[i] == VersionAt(arr, i) == Listed(0, 0, 0, 0);
      FourParts(list[i], p);
      assert AtMost(Parts(list[i]), Digits(p));
    }
  }
}
