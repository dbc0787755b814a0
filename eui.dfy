/**
 * IEEE EUI-48 (MAC address) and EUI-64 (entity id) values.
 *
 * Both are fixed-width octet strings, most significant octet first. The all-0xFF
 * value is the "unset" sentinel that the default constructor produces; the numeric
 * value is the big-endian reading of the octets, right-justified in a uint64_t.
 */
module Eui {
  import opened Wrappers

  /** A C uint8_t. */
  type Octet = x: int | 0 <= x < 256

  /** The range of a C uint64_t. */
  type Uint64 = x: int | 0 <= x < 0x1_0000_0000_0000_0000

  type Octets6 = s: seq<Octet> | |s| == 6 witness [0xff, 0xff, 0xff, 0xff, 0xff, 0xff]
  type Octets8 = s: seq<Octet> | |s| == 8 witness [0xff, 0xff, 0xff, 0xff, 0xff, 0xff, 0xff, 0xff]

  const Two48: nat := 0x1_0000_0000_0000

  // ---------------------------------------------------------------------------
  // Big-endian octet strings
  // ---------------------------------------------------------------------------

  function Pow256(n: nat): (p: nat)
    ensures p >= 1
  {
    if n == 0 then 1 else 256 * Pow256(n - 1)
  }

  /** The numeric value of `s`, first octet most significant (the C loop `v = (v << 8) | octet`). */
  function BigEndian(s: seq<Octet>): nat
  {
    if |s| == 0 then 0 else BigEndian(s[..|s| - 1]) * 256 + s[|s| - 1] as nat
  }

  /** The `n` low-order octets of `v`, most significant first. */
  function ToOctets(v: nat, n: nat): (s: seq<Octet>)
    ensures |s| == n
  {
    if n == 0 then [] else ToOctets(v / 256, n - 1) + [(v % 256) as Octet]
  }

  /** Octet-wise comparison from the most significant octet: -1, 0 or 1. */
  function CompareOctets(a: seq<Octet>, b: seq<Octet>): int
    requires |a| == |b|
  {
    if |a| == 0 then 0
    else if a[0] < b[0] then -1
    else if a[0] > b[0] then 1
    else CompareOctets(a[1..], b[1..])
  }

  lemma MulSmall(k: int, d: int)
    requires d > 0 && -d < k * d < d
    ensures k == 0
  {
    assert k >= 1 ==> k * d >= d;
    assert k <= -1 ==> k * d <= -d;
  }

  /** Euclidean division is unique: a quotient and in-range remainder are the ones `/` and `%` give. */
  lemma DivModUnique(v: int, d: int, q: int, r: int)
    requires 0 < d && 0 <= r < d && v == q * d + r
    ensures v / d == q && v % d == r
  {
    var k := q - v / d;
    assert v == (v / d) * d + v % d;
    assert k * d == q * d - (v / d) * d;
    assert k * d == v % d - r;
    MulSmall(k, d);
  }

  lemma {:induction false} BigEndianBound(s: seq<Octet>)
    ensures BigEndian(s) < Pow256(|s|)
  {
    if |s| > 0 {
      var init := s[..|s| - 1];
      BigEndianBound(init);
      assert BigEndian(init) + 1 <= Pow256(|init|);
      assert (BigEndian(init) + 1) * 256 <= Pow256(|init|) * 256;
    }
  }

  /** Splitting off the low octet: v mod 256p is (v div 256 mod p) * 256 + v mod 256. */
  lemma ModSplit(v: nat, p: nat)
    requires p >= 1
    ensures v % (256 * p) == ((v / 256) % p) * 256 + v % 256
  {
    var q, r := v / 256, v % 256;
    var hi, lo := q / p, q % p;
    assert v == q * 256 + r;
    assert q == hi * p + lo;
    assert v == hi * (256 * p) + (lo * 256 + r);
    assert lo * 256 + r < 256 * p;
    DivModUnique(v, 256 * p, hi, lo * 256 + r);
  }

  lemma BigEndianSnoc(s: seq<Octet>, x: Octet)
    ensures BigEndian(s + [x]) == BigEndian(s) * 256 + x as nat
  {
    assert (s + [x])[..|s|] == s;
  }

  lemma {:induction false} BigEndianOfToOctets(v: nat, n: nat)
    ensures BigEndian(ToOctets(v, n)) == v % Pow256(n)
  {
    if n > 0 {
      var q, r := v / 256, v % 256;
      var init, last := ToOctets(q, n - 1), r as Octet;
      assert ToOctets(v, n) == init + [last];
      BigEndianSnoc(init, last);
      BigEndianOfToOctets(q, n - 1);
      ModSplit(v, Pow256(n - 1));
    }
  }

  lemma {:induction false} ToOctetsOfBigEndian(s: seq<Octet>)
    ensures ToOctets(BigEndian(s), |s|) == s
  {
    if |s| > 0 {
      var init, last := s[..|s| - 1], s[|s| - 1];
      var v := BigEndian(s);
      DivModUnique(v, 256, BigEndian(init), last as nat);
      ToOctetsOfBigEndian(init);
      assert s == init + [last];
    }
  }

  lemma BigEndian6(a: Octet, b: Octet, c: Octet, d: Octet, e: Octet, f: Octet)
    ensures BigEndian([a, b, c, d, e, f])
         == ((((a as nat * 256 + b as nat) * 256 + c as nat) * 256 + d as nat) * 256 + e as nat) * 256 + f as nat
  {
    BigEndianSnoc([], a);
    BigEndianSnoc([a], b);
    BigEndianSnoc([a, b], c);
    BigEndianSnoc([a, b, c], d);
    BigEndianSnoc([a, b, c, d], e);
    BigEndianSnoc([a, b, c, d, e], f);
    assert [] + [a] == [a];
    assert [a] + [b] == [a, b];
    assert [a, b] + [c] == [a, b, c];
    assert [a, b, c] + [d] == [a, b, c, d];
    assert [a, b, c, d] + [e] == [a, b, c, d, e];
    assert [a, b, c, d, e] + [f] == [a, b, c, d, e, f];
  }

  lemma BigEndian8(a: Octet, b: Octet, c: Octet, d: Octet, e: Octet, f: Octet, g: Octet, h: Octet)
    ensures BigEndian([a, b, c, d, e, f, g, h])
         == (BigEndian([a, b, c, d, e, f]) * 256 + g as nat) * 256 + h as nat
  {
    BigEndianSnoc([a, b, c, d, e, f], g);
    BigEndianSnoc([a, b, c, d, e, f, g], h);
    assert [a, b, c, d, e, f] + [g] == [a, b, c, d, e, f, g];
    assert [a, b, c, d, e, f, g] + [h] == [a, b, c, d, e, f, g, h];
  }

  lemma FrontArith(a: nat, p: nat, b: nat, c: nat)
    ensures (a * p + b) * 256 + c == a * (256 * p) + (b * 256 + c)
  {
  }

  /** The big-endian value read from the front: the first octet weighs 256^(n-1). */
  lemma {:induction false} BigEndianFront(s: seq<Octet>)
    requires |s| > 0
    ensures BigEndian(s) == s[0] as nat * Pow256(|s| - 1) + BigEndian(s[1..])
  {
    if |s| > 1 {
      var init, last := s[..|s| - 1], s[|s| - 1];
      BigEndianFront(init);
      assert init[1..] == s[1..][..|s| - 2];
      assert s[1..] == init[1..] + [last];
      assert s == init + [last];
      BigEndianSnoc(init[1..], last);
      BigEndianSnoc(init, last);
      FrontArith(s[0] as nat, Pow256(|s| - 2), BigEndian(init[1..]), last as nat);
    } else {
      assert s == [] + [s[0]];
      BigEndianSnoc([], s[0]);
    }
  }

  lemma WeightedLess(x: nat, y: nat, r1: nat, r2: nat, p: nat)
    requires x < y && r1 < p && r2 < p
    ensures x * p + r1 < y * p + r2
  {
    assert (y - x - 1) * p >= 0;
    assert y * p == x * p + p + (y - x - 1) * p;
  }

  /** Different leading octets decide the numeric order. */
  lemma HeadDecides(a: seq<Octet>, b: seq<Octet>)
    requires |a| == |b| > 0 && a[0] < b[0]
    ensures BigEndian(a) < BigEndian(b)
  {
    BigEndianFront(a);
    BigEndianFront(b);
    BigEndianBound(a[1..]);
    BigEndianBound(b[1..]);
    WeightedLess(a[0] as nat, b[0] as nat, BigEndian(a[1..]), BigEndian(b[1..]), Pow256(|a| - 1));
  }

  /** Equal leading octets leave the order to the remaining octets. */
  lemma HeadEqual(a: seq<Octet>, b: seq<Octet>)
    requires |a| == |b| > 0 && a[0] == b[0]
    ensures BigEndian(a) < BigEndian(b) <==> BigEndian(a[1..]) < BigEndian(b[1..])
    ensures BigEndian(a) > BigEndian(b) <==> BigEndian(a[1..]) > BigEndian(b[1..])
    ensures a == b <==> a[1..] == b[1..]
  {
    BigEndianFront(a);
    BigEndianFront(b);
    assert a == [a[0]] + a[1..];
    assert b == [b[0]] + b[1..];
  }

  /** The octet-wise comparison is the numeric comparison of the big-endian values. */
  lemma {:induction false} CompareOctetsIsNumeric(a: seq<Octet>, b: seq<Octet>)
    requires |a| == |b|
    ensures var c := CompareOctets(a, b);
      && (c == -1 || c == 0 || c == 1)
      && (c < 0 <==> BigEndian(a) < BigEndian(b))
      && (c == 0 <==> a == b)
      && (c > 0 <==> BigEndian(a) > BigEndian(b))
  {
    if |a| > 0 {
      if a[0] < b[0] {
        HeadDecides(a, b);
      } else if a[0] > b[0] {
        HeadDecides(b, a);
      } else {
        CompareOctetsIsNumeric(a[1..], b[1..]);
        HeadEqual(a, b);
      }
    }
  }

  lemma {:induction false} BigEndianZero(s: seq<Octet>)
    ensures BigEndian(s) == 0 <==> forall i | 0 <= i < |s| :: s[i] == 0
  {
    if |s| > 0 {
      var init := s[..|s| - 1];
      BigEndianZero(init);
      assert forall i | 0 <= i < |init| :: init[i] == s[i];
    }
  }

  // ---------------------------------------------------------------------------
  // Text forms "UU:VV:WW:XX:YY:ZZ" and "UU-VV-WW-XX-YY-ZZ"
  // ---------------------------------------------------------------------------

  predicate IsSeparator(c: char)
  {
    c == ':' || c == '-'
  }

  function HexValue(c: char): (r: Option<Octet>)
    ensures r.Some? ==> r.value < 16
  {
    if '0' <= c <= '9' then Some((c as int - '0' as int) as Octet)
    else if 'a' <= c <= 'f' then Some((c as int - 'a' as int + 10) as Octet)
    else if 'A' <= c <= 'F' then Some((c as int - 'A' as int + 10) as Octet)
    else None
  }

  function HexChar(d: Octet): char
    requires d < 16
  {
    if d < 10 then ('0' as int + d as int) as char else ('a' as int + d as int - 10) as char
  }

  function FormatOctet(o: Octet): string
  {
    [HexChar(o / 16), HexChar(o % 16)]
  }

  function ParseOctet(hi: char, lo: char): Option<Octet>
  {
    match (HexValue(hi), HexValue(lo))
    case (Some(h), Some(l)) => Some(h * 16 + l)
    case _ => None
  }

  /** `n` two-digit hex octets, each pair separated from the next by ':' or '-'. */
  function ParseOctets(s: string, n: nat): (r: Option<seq<Octet>>)
    requires n >= 1
    ensures r.Some? ==> |r.value| == n && |s| == 3 * n - 1
  {
    if |s| < 2 then None
    else match ParseOctet(s[0], s[1])
      case None => None
      case Some(o) =>
        if n == 1 then (if |s| == 2 then Some([o]) else None)
        else if |s| < 3 || !IsSeparator(s[2]) then None
        else match ParseOctets(s[3..], n - 1)
          case None => None
          case Some(rest) => Some([o] + rest)
  }

  function FormatOctets(octets: seq<Octet>, sep: char): (s: string)
    requires |octets| >= 1
    ensures |s| == 3 * |octets| - 1
  {
    if |octets| == 1 then FormatOctet(octets[0])
    else FormatOctet(octets[0]) + [sep] + FormatOctets(octets[1..], sep)
  }

  lemma HexRoundTrip(d: Octet)
    requires d < 16
    ensures HexValue(HexChar(d)) == Some(d)
  {
  }

  lemma OctetRoundTrip(o: Octet)
    ensures ParseOctet(FormatOctet(o)[0], FormatOctet(o)[1]) == Some(o)
  {
    HexRoundTrip(o / 16);
    HexRoundTrip(o % 16);
  }

  lemma {:induction false} ParseFormatOctets(octets: seq<Octet>, sep: char)
    requires |octets| >= 1 && IsSeparator(sep)
    ensures ParseOctets(FormatOctets(octets, sep), |octets|) == Some(octets)
  {
    var s := FormatOctets(octets, sep);
    OctetRoundTrip(octets[0]);
    assert s[0] == FormatOctet(octets[0])[0] && s[1] == FormatOctet(octets[0])[1];
    if |octets| == 1 {
      assert octets == [octets[0]];
    } else {
      ParseFormatOctets(octets[1..], sep);
      assert s[3..] == FormatOctets(octets[1..], sep);
      assert octets == [octets[0]] + octets[1..];
    }
  }

  // ---------------------------------------------------------------------------
  // Eui48
  // ---------------------------------------------------------------------------

  /** An IEEE EUI-48 / MAC address; `value[0]` is the most significant octet. */
  datatype Eui48 = Eui48(value: Octets6)
  {
    /** The default constructor: every octet 0xFF. */
    static function Default(): Eui48
    {
      Eui48([0xff, 0xff, 0xff, 0xff, 0xff, 0xff])
    }

    /** The six-octet constructor, `a` most significant. */
    static function FromOctets(a: Octet, b: Octet, c: Octet, d: Octet, e: Octet, f: Octet): (r: Eui48)
      ensures r.ToUint64() == ((((a as nat * 256 + b as nat) * 256 + c as nat) * 256 + d as nat) * 256 + e as nat) * 256 + f as nat
    {
      BigEndian6(a, b, c, d, e, f);
      Eui48([a, b, c, d, e, f])
    }

    /** The constructor from a right-justified uint64_t: keeps the low 48 bits. */
    static function FromUint64(v: Uint64): (e: Eui48)
      ensures e.ToUint64() == v % Two48
    {
      BigEndianOfToOctets(v, 6);
      Eui48(ToOctets(v, 6))
    }

    /** Text form with ':' or '-' separators; None when `s` is not in that form. */
    static function Parse(s: string): (r: Option<Eui48>)
      ensures r.Some? ==> |s| == 17
    {
      match ParseOctets(s, 6)
      case None => None
      case Some(octets) => Some(Eui48(octets))
    }

    function Format(sep: char): string
    {
      FormatOctets(value, sep)
    }

    function ToUint64(): (r: Uint64)
      ensures r < Two48
    {
      BigEndianBound(value);
      BigEndian(value)
    }

    /** True unless the value is FF:FF:FF:FF:FF:FF. */
    predicate IsSet()
      ensures IsSet() <==> this != Default()
    {
      assert (forall i | 0 <= i < 6 :: value[i] == 0xff) ==> value == Default().value;
      exists i | 0 <= i < 6 :: value[i] != 0xff
    }

    predicate IsUnset()
      ensures IsUnset() <==> this == Default()
    {
      !IsSet()
    }

    /** Numeric compare: -1 if less than `other`, 0 if equal, 1 if greater. */
    function Compare(other: Eui48): (r: int)
      ensures r == -1 || r == 0 || r == 1
      ensures r < 0 <==> ToUint64() < other.ToUint64()
      ensures r == 0 <==> this == other
      ensures r > 0 <==> ToUint64() > other.ToUint64()
    {
      CompareOctetsIsNumeric(value, other.value);
      CompareOctets(value, other.value)
    }

    predicate Less(other: Eui48)
      ensures Less(other) <==> ToUint64() < other.ToUint64()
    {
      Compare(other) < 0
    }

    predicate LessOrEqual(other: Eui48)
      ensures LessOrEqual(other) <==> ToUint64() <= other.ToUint64()
    {
      Compare(other) <= 0
    }

    predicate Equal(other: Eui48)
      ensures Equal(other) <==> this == other
    {
      Compare(other) == 0
    }

    predicate GreaterOrEqual(other: Eui48)
      ensures GreaterOrEqual(other) <==> ToUint64() >= other.ToUint64()
    {
      Compare(other) >= 0
    }

    predicate Greater(other: Eui48)
      ensures Greater(other) <==> ToUint64() > other.ToUint64()
    {
      Compare(other) > 0
    }

    predicate NotEqual(other: Eui48)
      ensures NotEqual(other) <==> this != other
    {
      Compare(other) != 0
    }
  }

  /** Converting to uint64_t and back gives the same EUI-48. */
  lemma Eui48Uint64RoundTrip(e: Eui48)
    ensures Eui48.FromUint64(e.ToUint64()) == e
  {
    ToOctetsOfBigEndian(e.value);
  }

  /** The default (unset) value is numerically the largest EUI-48, and the only one with that value. */
  lemma Eui48DefaultIsMaximum(e: Eui48)
    ensures Eui48.Default().ToUint64() == Two48 - 1
    ensures e.LessOrEqual(Eui48.Default())
    ensures e.ToUint64() == Two48 - 1 <==> e.IsUnset()
  {
    BigEndian6(0xff, 0xff, 0xff, 0xff, 0xff, 0xff);
    var c := e.Compare(Eui48.Default());
  }

  /** Both text forms denote the same six octets, and both read back the value they print. */
  lemma {:induction false} Eui48TextForms(e: Eui48)
    ensures Eui48.Parse(e.Format(':')) == Some(e)
    ensures Eui48.Parse(e.Format('-')) == Some(e)
  {
    ParseFormatOctets(e.value, ':');
    ParseFormatOctets(e.value, '-');
  }

  // ---------------------------------------------------------------------------
  // Eui64
  // ---------------------------------------------------------------------------

  /** An IEEE EUI-64 (an AVDECC entity id); `value[0]` is the most significant octet. */
  datatype Eui64 = Eui64(value: Octets8)
  {
    static function Default(): Eui64
    {
      Eui64([0xff, 0xff, 0xff, 0xff, 0xff, 0xff, 0xff, 0xff])
    }

    static function FromOctets(a: Octet, b: Octet, c: Octet, d: Octet,
                               e: Octet, f: Octet, g: Octet, h: Octet): (r: Eui64)
      ensures r.ToUint64() ==
        ((((((a as nat * 256 + b as nat) * 256 + c as nat) * 256 + d as nat) * 256
          + e as nat) * 256 + f as nat) * 256 + g as nat) * 256 + h as nat
    {
      BigEndian6(a, b, c, d, e, f);
      BigEndian8(a, b, c, d, e, f, g, h);
      Eui64([a, b, c, d, e, f, g, h])
    }

    static function FromUint64(v: Uint64): (e: Eui64)
      ensures e.ToUint64() == v
    {
      BigEndianOfToOctets(v, 8);
      Eui64(ToOctets(v, 8))
    }

    static function Parse(s: string): (r: Option<Eui64>)
      ensures r.Some? ==> |s| == 23
    {
      match ParseOctets(s, 8)
      case None => None
      case Some(octets) => Some(Eui64(octets))
    }

    function Format(sep: char): string
    {
      FormatOctets(value, sep)
    }

    function ToUint64(): Uint64
    {
      BigEndianBound(value);
      BigEndian(value)
    }

    predicate IsSet()
      ensures IsSet() <==> this != Default()
    {
      assert (forall i | 0 <= i < 8 :: value[i] == 0xff) ==> value == Default().value;
      exists i | 0 <= i < 8 :: value[i] != 0xff
    }

    predicate IsUnset()
      ensures IsUnset() <==> this == Default()
    {
      !IsSet()
    }

    /** True when every octet is zero. */
    predicate IsZero()
      ensures IsZero() <==> ToUint64() == 0
    {
      BigEndianZero(value);
      forall i | 0 <= i < 8 :: value[i] == 0
    }

    function Compare(other: Eui64): (r: int)
      ensures r == -1 || r == 0 || r == 1
      ensures r < 0 <==> ToUint64() < other.ToUint64()
      ensures r == 0 <==> this == other
      ensures r > 0 <==> ToUint64() > other.ToUint64()
    {
      CompareOctetsIsNumeric(value, other.value);
      CompareOctets(value, other.value)
    }

    predicate Less(other: Eui64)
      ensures Less(other) <==> ToUint64() < other.ToUint64()
    {
      Compare(other) < 0
    }

    predicate LessOrEqual(other: Eui64)
      ensures LessOrEqual(other) <==> ToUint64() <= other.ToUint64()
    {
      Compare(other) <= 0
    }

    predicate Equal(other: Eui64)
      ensures Equal(other) <==> this == other
    {
      Compare(other) == 0
    }

    predicate GreaterOrEqual(other: Eui64)
      ensures GreaterOrEqual(other) <==> ToUint64() >= other.ToUint64()
    {
      Compare(other) >= 0
    }

    predicate Greater(other: Eui64)
      ensures Greater(other) <==> ToUint64() > other.ToUint64()
    {
      Compare(other) > 0
    }

    predicate NotEqual(other: Eui64)
      ensures NotEqual(other) <==> this != other
    {
      Compare(other) != 0
    }
  }

  lemma Eui64Uint64RoundTrip(e: Eui64)
    ensures Eui64.FromUint64(e.ToUint64()) == e
  {
    ToOctetsOfBigEndian(e.value);
  }

  lemma {:induction false} Eui64TextForms(e: Eui64)
    ensures Eui64.Parse(e.Format(':')) == Some(e)
    ensures Eui64.Parse(e.Format('-')) == Some(e)
  {
    ParseFormatOctets(e.value, ':');
    ParseFormatOctets(e.value, '-');
  }

  // ---------------------------------------------------------------------------
  // Store and load at a buffer position
  // ---------------------------------------------------------------------------

  /** Copies `s` into `buf` at `pos`, leaving every other octet as it was. */
  method WriteOctets(buf: array<Octet>, pos: nat, s: seq<Octet>)
    requires pos + |s| <= buf.Length
    modifies buf
    ensures buf[pos..pos + |s|] == s
    ensures forall k | 0 <= k < buf.Length && !(pos <= k < pos + |s|) :: buf[k] == old(buf[k])
  {
    for i := 0 to |s|
      invariant forall k | 0 <= k < i :: buf[pos + k] == s[k]
      invariant forall k | 0 <= k < buf.Length && !(pos <= k < pos + |s|) :: buf[k] == old(buf[k])
    {
      buf[pos + i] := s[i];
    }
  }

  function Eui48Get(buf: array<Octet>, pos: nat): Eui48
    reads buf
    requires pos + 6 <= buf.Length
  {
    Eui48(buf[pos..pos + 6])
  }

  method Eui48Set(v: Eui48, buf: array<Octet>, pos: nat)
    requires pos + 6 <= buf.Length
    modifies buf
    ensures Eui48Get(buf, pos) == v
    ensures forall k | 0 <= k < buf.Length && !(pos <= k < pos + 6) :: buf[k] == old(buf[k])
  {
    WriteOctets(buf, pos, v.value);
  }

  function Eui64Get(buf: array<Octet>, pos: nat): Eui64
    reads buf
    requires pos + 8 <= buf.Length
  {
    Eui64(buf[pos..pos + 8])
  }

  method Eui64Set(v: Eui64, buf: array<Octet>, pos: nat)
    requires pos + 8 <= buf.Length
    modifies buf
    ensures Eui64Get(buf, pos) == v
    ensures forall k | 0 <= k < buf.Length && !(pos <= k < pos + 8) :: buf[k] == old(buf[k])
  {
    WriteOctets(buf, pos, v.value);
  }
}
