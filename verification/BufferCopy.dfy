/**
 * Copies between application buffers and DAL buffers: which pair of types copies with which element width,
 * where a copy stops, and which bytes are put into network order.  Buffers are byte arrays written in place;
 * `little` says that the host is little-endian.
 */
module BufferCopy {
  import opened Common

  /** DalCDataType. */
  datatype AppType = Char | U8 | U16 | U32 | U64 | AppInvalid

  /** The SQL_C_ types; Other stands for the unsupported ones and SQL_UNKNOWN_TYPE. */
  datatype DalType = CChar | TinyInt | UTinyInt | Short | UShort | Long | ULong | SBigInt | UBigInt | Binary | Other

  datatype CopyCode = ByApp | ByDal | NoCopy

  function AppWidth(a: AppType): nat {
    match a
    case Char => 1
    case U8 => 1
    case U16 => 2
    case U32 => 4
    case U64 => 8
    case AppInvalid => 0
  }

  function DalWidth(d: DalType): nat {
    match d
    case CChar => 1
    case TinyInt => 1
    case UTinyInt => 1
    case Short => 2
    case UShort => 2
    case Long => 4
    case ULong => 4
    case SBigInt => 8
    case UBigInt => 8
    case Binary => 1
    case Other => 0
  }

  /** IsDataTypeCompatible. */
  predicate Compatible(a: AppType, d: DalType) {
    match d
    case CChar => a == Char
    case TinyInt => a == Char
    case UTinyInt => a == Char || a == U8
    case Short => a == Char || a == U8
    case UShort => a == Char || a == U8 || a == U16
    case Long => a == Char || a == U8 || a == U16
    case ULong => a == Char || a == U8 || a == U16 || a == U32
    case SBigInt => a == Char || a == U8 || a == U16 || a == U32
    case UBigInt => a != AppInvalid
    case Binary => a != AppInvalid
    case Other => false
  }

  /** GetCopyDataType. */
  function CopyCodeOf(a: AppType, d: DalType): CopyCode {
    match d
    case CChar => if a == Char || a == U8 then ByDal else NoCopy
    case TinyInt => if a == AppInvalid then NoCopy else ByDal
    case UTinyInt => if a == AppInvalid then NoCopy else ByDal
    case Short => if a == Char || a == U8 then ByApp else if a == AppInvalid then NoCopy else ByDal
    case UShort => if a == Char || a == U8 then ByApp else if a == AppInvalid then NoCopy else ByDal
    case Long => if a == U32 || a == U64 then ByDal else if a == AppInvalid then NoCopy else ByApp
    case ULong => if a == U32 || a == U64 then ByDal else if a == AppInvalid then NoCopy else ByApp
    case SBigInt => if a == U64 then ByDal else if a == AppInvalid then NoCopy else ByApp
    case UBigInt => if a == U64 then ByDal else if a == AppInvalid then NoCopy else ByApp
    case Binary => ByDal
    case Other => NoCopy
  }

  /** CalculateDalBufferSize. */
  function DalSize(d: DalType, n: nat): nat { DalWidth(d) * n }

  /** The bytes of the application's buffer; for a binary column n counts bytes already. */
  function AppSize(a: AppType, d: DalType, n: nat): nat {
    if d == Binary then n else AppWidth(a) * n
  }

  /** A 16-, 32- or 64-bit value fills a binary column exactly. */
  predicate BinarySizeOk(a: AppType, n: nat) {
    match a
    case U16 => n == 2
    case U32 => n == 4
    case U64 => n == 8
    case AppInvalid => false
    case _ => true
  }

  /** The bytes of either buffer that a copy may touch. */
  function Reach(a: AppType, d: DalType, n: nat): nat {
    match CopyCodeOf(a, d)
    case ByApp => AppWidth(a) * n
    case ByDal => DalWidth(d) * n
    case NoCopy => 0
  }

  /** No accepted pair of types makes a copy go beyond either buffer, and every copy covers the application's. */
  lemma CopyFits(a: AppType, d: DalType, n: nat)
    requires Compatible(a, d)
    ensures CopyCodeOf(a, d) != NoCopy && DalWidth(d) > 0
    ensures Reach(a, d, n) == AppSize(a, d, n) <= DalSize(d, n)
  {}

  // ------------------------------------------------------ which types are accepted

  /** The values of an application type; characters are taken as ASCII, whatever the sign of char. */
  predicate InAppType(a: AppType, v: int) {
    match a
    case Char => 0 <= v <= 0x7F
    case U8 => 0 <= v <= 0xFF
    case U16 => 0 <= v <= 0xFFFF
    case U32 => 0 <= v <= 0xFFFF_FFFF
    case U64 => 0 <= v <= 0xFFFF_FFFF_FFFF_FFFF
    case AppInvalid => false
  }

  predicate IsInteger(d: DalType) { d != CChar && d != Binary && d != Other }

  /** The least and the greatest value of an integer column. */
  function Least(d: DalType): int {
    match d
    case TinyInt => -0x80
    case Short => -0x8000
    case Long => -0x8000_0000
    case SBigInt => -0x8000_0000_0000_0000
    case _ => 0
  }

  function Greatest(d: DalType): int {
    match d
    case TinyInt => 0x7F
    case UTinyInt => 0xFF
    case Short => 0x7FFF
    case UShort => 0xFFFF
    case Long => 0x7FFF_FFFF
    case ULong => 0xFFFF_FFFF
    case SBigInt => 0x7FFF_FFFF_FFFF_FFFF
    case UBigInt => 0xFFFF_FFFF_FFFF_FFFF
    case _ => 0
  }

  predicate InColumn(d: DalType, v: int) { Least(d) <= v <= Greatest(d) }

  /**
   * What is to be accepted: on an integer column the types all of whose values the column can hold, on a character
   * column characters, on a binary column every type, and on any other column nothing.
   */
  ghost predicate Accepts(a: AppType, d: DalType) {
    && a != AppInvalid
    && match d
       case CChar => a == Char
       case Binary => true
       case Other => false
       case _ => forall v: int :: InAppType(a, v) ==> InColumn(d, v)
  }

  /** IsDataTypeCompatible accepts exactly these. */
  lemma CompatibleIff(a: AppType, d: DalType)
    ensures Compatible(a, d) <==> Accepts(a, d)
  {
    if IsInteger(d) {
      assert InAppType(Char, 0x7F) && InAppType(U8, 0xFF) && InAppType(U16, 0xFFFF);
      assert InAppType(U32, 0xFFFF_FFFF) && InAppType(U64, 0xFFFF_FFFF_FFFF_FFFF);
    }
  }

  /** The widths are those of the ranges. */
  lemma WidthsAreRanges(a: AppType, d: DalType)
    ensures IsInteger(d) ==> Greatest(d) - Least(d) + 1 == Pow256(DalWidth(d))
    ensures a != Char ==> forall v: int :: InAppType(a, v) <==> 0 <= v < Pow256(AppWidth(a)) && a != AppInvalid
    ensures AppWidth(Char) == DalWidth(CChar) == DalWidth(Binary) == 1
  {
    assert Pow256(1) == 0x100 && Pow256(2) == 0x1_0000;
    assert Pow256(3) == 0x100_0000 && Pow256(4) == 0x1_0000_0000;
    assert Pow256(5) == 0x100_0000_0000 && Pow256(6) == 0x1_0000_0000_0000;
    assert Pow256(7) == 0x100_0000_0000_0000 && Pow256(8) == 0x1_0000_0000_0000_0000;
  }

  /** A value of more than one byte fills a binary column exactly; bytes may fill one of any length. */
  lemma BinarySizeIff(a: AppType, n: nat)
    ensures BinarySizeOk(a, n) <==> a != AppInvalid && (AppWidth(a) > 1 ==> n == AppWidth(a))
  {}

  // ------------------------------------------------------- what a copy leaves

  /** The length up to and including the first NUL among the first n bytes, or n. */
  function NulLen(s: seq<uint8>, n: nat): (p: nat)
    requires n <= |s|
    ensures p <= n && (n > 0 ==> p > 0)
    ensures forall i :: 0 <= i < p - 1 ==> s[i] != 0
    ensures p < n ==> s[p - 1] == 0
  {
    if n == 0 then 0 else if s[0] == 0 then 1 else 1 + NulLen(s[1..], n - 1)
  }

  predicate StopsAtNul(a: AppType, d: DalType) {
    (CopyCodeOf(a, d) == ByApp && a == Char) || (CopyCodeOf(a, d) == ByDal && d == CChar)
  }

  /** A copy is one of text exactly for characters, and then not into a column of one-byte numbers or of bytes. */
  lemma TextIff(a: AppType, d: DalType)
    requires Compatible(a, d)
    ensures StopsAtNul(a, d) <==> a == Char && d != TinyInt && d != UTinyInt && d != Binary
  {}

  function Overlay(dest: seq<uint8>, bytes: seq<uint8>): seq<uint8>
    requires |bytes| <= |dest|
  {
    bytes + dest[|bytes|..]
  }

  function Reverse(s: seq<uint8>): (r: seq<uint8>)
    ensures |r| == |s|
    ensures forall i :: 0 <= i < |s| ==> r[i] == s[|s| - 1 - i]
  {
    if s == [] then [] else Reverse(s[1..]) + [s[0]]
  }

  /** htons and htonll, and their inverses. */
  function NetworkOrder(little: bool, a: AppType, s: seq<uint8>): (r: seq<uint8>)
    ensures |r| == |s|
  {
    if little && (a == U16 || a == U64) then Reverse(s) else s
  }

  /** The destination after a copy in either direction, or None if the copy is refused. */
  function Copied(little: bool, a: AppType, d: DalType, n: nat, dest: seq<uint8>, src: seq<uint8>): Option<seq<uint8>>
    requires Reach(a, d, n) <= |dest| && Reach(a, d, n) <= |src|
  {
    if CopyCodeOf(a, d) == NoCopy || (d == Binary && !BinarySizeOk(a, n)) then None
    else if StopsAtNul(a, d) then Some(Overlay(dest, src[..NulLen(src, n)]))
    else if d == Binary then Some(Overlay(dest, NetworkOrder(little, a, src[..n])))
    else Some(Overlay(dest, src[..Reach(a, d, n)]))
  }

  function Zeros(n: nat): (z: seq<uint8>)
    ensures |z| == n && forall i :: 0 <= i < n ==> z[i] == 0
  {
    seq(n, _ => 0)
  }

  /** The DAL buffer after AllocateAndCopy. */
  function Stored(little: bool, a: AppType, d: DalType, n: nat, app: seq<uint8>): Option<seq<uint8>>
    requires Compatible(a, d) && AppSize(a, d, n) <= |app|
  {
    CopyFits(a, d, n);
    Copied(little, a, d, n, Zeros(DalSize(d, n)), app)
  }

  // ----------------------------------------------------------- the round trip

  lemma {:induction false} NulLenOfPrefix(s: seq<uint8>, t: seq<uint8>, n: nat)
    requires n <= |s| && n <= |t|
    requires forall i :: 0 <= i < NulLen(s, n) ==> t[i] == s[i]
    ensures NulLen(t, n) == NulLen(s, n)
  {
    if n > 0 {
      assert t[0] == s[0];
      if s[0] != 0 {
        forall i | 0 <= i < NulLen(s[1..], n - 1) ensures t[1..][i] == s[1..][i] { assert t[i + 1] == s[i + 1]; }
        NulLenOfPrefix(s[1..], t[1..], n - 1);
      }
    }
  }

  /** What comes back to the application: everything, or everything up to and including the first NUL. */
  function Kept(a: AppType, d: DalType, n: nat, app: seq<uint8>): (p: nat)
    requires Compatible(a, d) && |app| == AppSize(a, d, n)
    ensures p <= |app|
  {
    CopyFits(a, d, n);
    if StopsAtNul(a, d) then NulLen(app, n) else |app|
  }

  /** A copy in followed by a copy out restores the application's array, for every accepted pair of types. */
  lemma RoundTrip(little: bool, a: AppType, d: DalType, n: nat, app: seq<uint8>, out: seq<uint8>)
    requires Compatible(a, d) && |app| == |out| == AppSize(a, d, n)
    ensures var stored := Stored(little, a, d, n, app);
            && (stored.None? <==> d == Binary && !BinarySizeOk(a, n))
            && (stored.Some? ==>
                  && |stored.value| == DalSize(d, n) >= Reach(a, d, n)
                  && Reach(a, d, n) <= |out|
                  && Copied(little, a, d, n, out, stored.value)
                     == Some(app[..Kept(a, d, n, app)] + out[Kept(a, d, n, app)..]))
  {
    CopyFits(a, d, n);
    var stored := Stored(little, a, d, n, app);
    if stored.Some? {
      var t := stored.value;
      if StopsAtNul(a, d) {
        var p := NulLen(app, n);
        assert t[..p] == app[..p];
        NulLenOfPrefix(app, t, n);
      } else if d == Binary {
        assert app[..n] == app;
        assert t == NetworkOrder(little, a, app);
        assert t[..n] == t;
        assert NetworkOrder(little, a, t) == app;
        assert Overlay(out, app) == app + out[n..];
      } else {
        assert app[..|app|] == app;
        assert t[..|app|] == app;
      }
    }
  }

  function BigEndian(s: seq<uint8>): nat {
    if s == [] then 0 else BigEndian(s[..|s| - 1]) * 256 + s[|s| - 1] as nat
  }

  function LittleEndian(s: seq<uint8>): nat {
    if s == [] then 0 else s[0] as nat + 256 * LittleEndian(s[1..])
  }

  function HostValue(little: bool, s: seq<uint8>): nat {
    if little then LittleEndian(s) else BigEndian(s)
  }

  lemma {:induction false} ReverseSwapsOrder(s: seq<uint8>)
    ensures BigEndian(Reverse(s)) == LittleEndian(s)
  {
    if s != [] {
      ReverseSwapsOrder(s[1..]);
      var r := Reverse(s);
      assert r[..|r| - 1] == Reverse(s[1..]);
    }
  }

  /** A 16- or 64-bit value is stored in a binary column in network order, whatever the host. */
  lemma BinaryIsStoredBigEndian(little: bool, a: AppType, n: nat, app: seq<uint8>)
    requires |app| == n && BinarySizeOk(a, n) && (a == U16 || a == U64)
    ensures Stored(little, a, Binary, n, app).Some?
    ensures BigEndian(Stored(little, a, Binary, n, app).value) == HostValue(little, app)
  {
    ReverseSwapsOrder(app);
    StoredBinary(little, a, n, app);
  }

  lemma {:induction false} ZerosAddNothing(s: seq<uint8>, m: nat)
    ensures LittleEndian(s + Zeros(m)) == LittleEndian(s)
  {
    if s == [] {
      if m > 0 {
        ZerosAddNothing([], m - 1);
        assert ([] + Zeros(m))[1..] == [] + Zeros(m - 1);
      }
    } else {
      ZerosAddNothing(s[1..], m);
      assert (s + Zeros(m))[1..] == s[1..] + Zeros(m);
    }
  }

  lemma {:induction false} ZerosShift(s: seq<uint8>, m: nat)
    ensures BigEndian(s + Zeros(m)) == BigEndian(s) * Pow256(m)
  {
    if m == 0 {
      assert s + Zeros(0) == s;
    } else {
      ZerosShift(s, m - 1);
      var t := s + Zeros(m);
      assert t[..|t| - 1] == s + Zeros(m - 1);
      assert BigEndian(t) == BigEndian(s) * Pow256(m - 1) * 256;
    }
  }

  lemma ScalarIsPadded(little: bool, a: AppType, d: DalType, app: seq<uint8>)
    requires Compatible(a, d) && IsInteger(d) && |app| == AppWidth(a)
    ensures AppWidth(a) <= DalWidth(d)
    ensures Stored(little, a, d, 1, app) == Some(app + Zeros(DalWidth(d) - AppWidth(a)))
  {
    var z := Zeros(DalWidth(d) - AppWidth(a));
    assert Zeros(DalWidth(d))[AppWidth(a)..] == z;
    assert app[..AppWidth(a)] == app;
  }

  /**
   * One number stored in a wider integer column keeps its value exactly if the host is little-endian, the widths agree
   * or the number is 0: the copy fills the leading bytes of the wider one.
   */
  lemma WideningKeepsValueIff(little: bool, a: AppType, d: DalType, app: seq<uint8>)
    requires Compatible(a, d) && IsInteger(d) && |app| == AppWidth(a)
    ensures Stored(little, a, d, 1, app).Some?
    ensures HostValue(little, Stored(little, a, d, 1, app).value) == HostValue(little, app) <==>
            little || AppWidth(a) == DalWidth(d) || HostValue(little, app) == 0
  {
    ScalarIsPadded(little, a, d, app);
    var m := DalWidth(d) - AppWidth(a);
    if little {
      ZerosAddNothing(app, m);
    } else {
      ZerosShift(app, m);
      if m > 0 { TimesMoreThanOne(BigEndian(app), Pow256(m - 1)); }
    }
  }

  lemma TimesMoreThanOne(v: nat, w: nat)
    requires w > 0
    ensures v * (256 * w) == v <==> v == 0
  {
    if v > 0 { assert v * (256 * w) >= v * 256; }
  }

  lemma RebindingPlain(little: bool, a: AppType, d: DalType, n: nat, app: seq<uint8>)
    requires Compatible(a, d) && d != Binary && |app| == AppSize(a, d, n)
    ensures Stored(little, a, d, n, app).Some? && AppSize(a, d, n) <= |Stored(little, a, d, n, app).value|
    ensures Stored(little, a, d, n, Stored(little, a, d, n, app).value) == Stored(little, a, d, n, app)
  {
    CopyFits(a, d, n);
    var t := Stored(little, a, d, n, app).value;
    if StopsAtNul(a, d) {
      var p := NulLen(app, n);
      assert t[..p] == app[..p];
      NulLenOfPrefix(app, t, n);
    } else {
      assert t[..|app|] == app[..|app|];
    }
  }

  lemma StoredBinary(little: bool, a: AppType, n: nat, app: seq<uint8>)
    requires BinarySizeOk(a, n) && |app| == n
    ensures Stored(little, a, Binary, n, app) == Some(NetworkOrder(little, a, app))
  {
    assert app[..n] == app;
    var r := NetworkOrder(little, a, app);
    assert Overlay(Zeros(n), r) == r;
  }

  lemma NetworkOrderTwice(little: bool, a: AppType, s: seq<uint8>)
    ensures NetworkOrder(little, a, NetworkOrder(little, a, s)) == s
  {
    assert Reverse(Reverse(s)) == s;
  }

  /**
   * CheckInstance and the parent check bind a DAL buffer as if it were the application's.  The second copy
   * gives the stored bytes again, except for a 16- or 64-bit value in a binary column, which is swapped back.
   */
  lemma RebindingIsFaithfulIff(little: bool, a: AppType, d: DalType, n: nat, app: seq<uint8>)
    requires Compatible(a, d) && |app| == AppSize(a, d, n) && Stored(little, a, d, n, app).Some?
    ensures AppSize(a, d, n) <= |Stored(little, a, d, n, app).value|
    ensures var t := Stored(little, a, d, n, app);
            Stored(little, a, d, n, t.value) == t <==>
            !(little && d == Binary && (a == U16 || a == U64) && app != Reverse(app))
  {
    if d == Binary {
      var t := NetworkOrder(little, a, app);
      StoredBinary(little, a, n, app);
      StoredBinary(little, a, n, t);
      NetworkOrderTwice(little, a, app);
    } else {
      RebindingPlain(little, a, d, n, app);
    }
  }

  /**
   * So it is always faithful outside binary columns, for byte types and 32-bit values, and in every binary column
   * that is neither 2 nor 8 bytes long, as all that are bound again are.
   */
  lemma RebindingIsFaithful(little: bool, a: AppType, d: DalType, n: nat, app: seq<uint8>)
    requires Compatible(a, d) && |app| == AppSize(a, d, n) && Stored(little, a, d, n, app).Some?
    requires d != Binary || a == Char || a == U8 || a == U32 || (n != 2 && n != 8)
    ensures AppSize(a, d, n) <= |Stored(little, a, d, n, app).value|
    ensures Stored(little, a, d, n, Stored(little, a, d, n, app).value) == Stored(little, a, d, n, app)
  {
    RebindingIsFaithfulIff(little, a, d, n, app);
  }

  /** A 16-bit value in a 2-byte binary column would come back with its bytes swapped. */
  lemma RebindingCanSwap()
    ensures Stored(true, U16, Binary, 2, [1, 2]) == Some([2, 1])
    ensures Stored(true, U16, Binary, 2, [2, 1]) == Some([1, 2])
  {
    StoredBinary(true, U16, 2, [1, 2]);
    StoredBinary(true, U16, 2, [2, 1]);
    assert Reverse([1, 2]) == [2, 1] && Reverse([2, 1]) == [1, 2];
  }

  // -------------------------------------------------------------- the methods

  /** One assignment through a pointer to a wider type. */
  method StoreWord(dest: array<uint8>, at: nat, word: seq<uint8>)
    requires at + |word| <= dest.Length
    modifies dest
    ensures dest[..] == old(dest[..at]) + word + old(dest[at + |word|..])
  {
    for k := 0 to |word|
      invariant forall j :: 0 <= j < k ==> dest[at + j] == word[j]
      invariant forall j :: 0 <= j < dest.Length && !(at <= j < at + k) ==> dest[j] == old(dest[j])
    {
      dest[at + k] := word[k];
    }
  }

  /** The element loop of a copy that does not stop. */
  method CopyWords(dest: array<uint8>, src: array<uint8>, width: nat, n: nat)
    requires dest != src && width * n <= dest.Length && width * n <= src.Length
    modifies dest
    ensures dest[..] == Overlay(old(dest[..]), src[..width * n])
  {
    var at := 0;
    for i := 0 to n
      invariant at == width * i <= width * n
      invariant forall j :: 0 <= j < at ==> dest[j] == src[j]
      invariant forall j :: at <= j < dest.Length ==> dest[j] == old(dest[j])
    {
      WithinProduct(width, i + 1, n);
      ghost var before := dest[..];
      StoreWord(dest, at, src[at..at + width]);
      forall j | 0 <= j < dest.Length ensures dest[j] == if at <= j < at + width then src[j] else before[j] {
        assert dest[j] == dest[..][j];
      }
      at := at + width;
    }
  }

  lemma WithinProduct(w: nat, i: nat, n: nat)
    requires 0 < i <= n
    ensures w * i == w * (i - 1) + w <= w * n
  {}

  /** The character loop, which copies the NUL and then stops. */
  method CopyUntilNul(dest: array<uint8>, src: array<uint8>, n: nat)
    requires dest != src && n <= dest.Length && n <= src.Length
    modifies dest
    ensures dest[..] == Overlay(old(dest[..]), src[..NulLen(src[..], n)])
  {
    var i := 0;
    while i < n
      invariant i <= n
      invariant forall j :: 0 <= j < i ==> dest[j] == src[j] && src[j] != 0
      invariant forall j :: i <= j < dest.Length ==> dest[j] == old(dest[j])
    {
      dest[i] := src[i];
      if src[i] == 0 {
        NulLenIs(src[..], n, i + 1);
        return;
      }
      i := i + 1;
    }
    NulLenIs(src[..], n, n);
  }

  /** NulLen by its two properties: no NUL before the end, and a NUL there unless it is the whole length. */
  lemma {:induction false} NulLenIs(s: seq<uint8>, n: nat, p: nat)
    requires p <= n <= |s| && (n > 0 ==> p > 0)
    requires forall i :: 0 <= i < p - 1 ==> s[i] != 0
    requires p < n ==> s[p - 1] == 0
    ensures NulLen(s, n) == p
  {
    if n > 0 && s[0] != 0 && p > 1 {
      NulLenIs(s[1..], n - 1, p - 1);
    }
  }

  /** CopyUsingAppDataType and CopyUsingDalDataType, chosen by the copy code. */
  method Copy(dest: array<uint8>, src: array<uint8>, a: AppType, d: DalType, n: nat, little: bool) returns (ok: bool)
    requires dest != src && Reach(a, d, n) <= dest.Length && Reach(a, d, n) <= src.Length
    modifies dest
    ensures var r := Copied(little, a, d, n, old(dest[..]), old(src[..]));
            ok == r.Some? && dest[..] == (if ok then r.value else old(dest[..]))
  {
    ok := true;
    match CopyCodeOf(a, d) {
      case ByApp =>
        if a == Char { CopyUntilNul(dest, src, n); } else { CopyWords(dest, src, AppWidth(a), n); }
      case ByDal =>
        if d == CChar { CopyUntilNul(dest, src, n); }
        else if d == Binary { ok := CopyBinary(dest, src, a, n, little); }
        else { CopyWords(dest, src, DalWidth(d), n); }
      case NoCopy => ok := false;
    }
  }

  method CopyBinary(dest: array<uint8>, src: array<uint8>, a: AppType, n: nat, little: bool) returns (ok: bool)
    requires dest != src && n <= dest.Length && n <= src.Length
    modifies dest
    ensures ok == BinarySizeOk(a, n)
    ensures dest[..] == (if ok then Overlay(old(dest[..]), NetworkOrder(little, a, src[..n])) else old(dest[..]))
  {
    ok := BinarySizeOk(a, n);
    if !ok { return; }
    if a == Char || a == U8 {
      CopyWords(dest, src, 1, n);
    } else {
      StoreWord(dest, 0, NetworkOrder(little, a, src[..n]));
    }
  }

  /** AllocateColBuffer: a zeroed buffer, or failure for a type without a size. */
  method AllocateColBuffer(d: DalType, n: nat) returns (buf: array?<uint8>)
    ensures buf == null <==> DalSize(d, n) == 0
    ensures buf != null ==> buf[..] == Zeros(DalSize(d, n)) && fresh(buf)
  {
    var size := DalSize(d, n);
    if size == 0 { return null; }
    buf := new uint8[size](_ => 0);
  }

  /** AllocateAndCopy, as the bind of an input or of a match does it. */
  method AllocateAndCopy(src: array<uint8>, a: AppType, d: DalType, n: nat, little: bool)
    returns (ok: bool, dest: array?<uint8>)
    requires Compatible(a, d) && AppSize(a, d, n) <= src.Length
    ensures ok == (n > 0 && Stored(little, a, d, n, src[..]).Some?)
    ensures ok ==> dest != null && fresh(dest) && dest[..] == Stored(little, a, d, n, src[..]).value
  {
    dest := null;
    if n == 0 { return false, null; }
    CopyFits(a, d, n);
    assert DalWidth(d) * n > 0;
    dest := AllocateColBuffer(d, n);
    ok := Copy(dest, src, a, d, n, little);
  }
}
