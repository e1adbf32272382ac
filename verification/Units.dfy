/**
 Unit conversion and text helpers (internal/libvirt/utils.go): memory amounts in
 64-bit arithmetic, binary prefixes, and the canonical text form of a UUID.
 */
module Units {

  // ----- memory amounts -------------------------------------------------------------

  datatype Quantity = Quantity(bytes: int) | UnknownUnit(unit: string)

  const TWO_63 := 0x8000_0000_0000_0000
  const TWO_64 := 0x1_0000_0000_0000_0000

  /** The value a signed 64-bit register holds after an operation with exact result `x`. */
  function Wrap64(x: int): (r: int)
    ensures -TWO_63 <= r < TWO_63
    ensures r == x <==> -TWO_63 <= x < TWO_63
  {
    (x + TWO_63) % TWO_64 - TWO_63
  }

  function Times1024(x: int): int {
    Wrap64(x * 1024)
  }

  /** Scales `value` by its unit; each multiplication is a wrapping 64-bit one. */
  function MemoryToResource(value: int, unit: string): Quantity {
    if unit == "KiB" then Quantity(Times1024(value))
    else if unit == "MiB" then Quantity(Times1024(Times1024(value)))
    else if unit == "GiB" then Quantity(Times1024(Times1024(Times1024(value))))
    else if unit == "TiB" then Quantity(Times1024(Times1024(Times1024(Times1024(value)))))
    else UnknownUnit(unit)
  }

  function Pow1024(n: nat): (p: int)
    ensures p >= 1
  {
    if n == 0 then 1 else 1024 * Pow1024(n - 1)
  }

  /** The exponent a unit stands for: 1 for KiB up to 4 for TiB, none otherwise. */
  function UnitExponent(unit: string): (n: nat)
    ensures n <= 4
  {
    if unit == "KiB" then 1 else if unit == "MiB" then 2
    else if unit == "GiB" then 3 else if unit == "TiB" then 4 else 0
  }

  lemma {:induction false} WrapShift(x: int, k: int)
    ensures Wrap64(x + k * TWO_64) == Wrap64(x)
    decreases if k < 0 then -k else k
  {
    if k > 0 {
      WrapShift(x, k - 1);
      WrapStep(x + (k - 1) * TWO_64);
    } else if k < 0 {
      WrapShift(x, k + 1);
      WrapStep(x + k * TWO_64);
    }
  }

  lemma WrapStep(x: int)
    ensures Wrap64(x + TWO_64) == Wrap64(x)
  {
  }

  lemma TimesWrapped(x: int)
    ensures Times1024(Wrap64(x)) == Wrap64(x * 1024)
  {
    var k := (x + TWO_63) / TWO_64;
    assert Wrap64(x) == x - k * TWO_64;
    assert Wrap64(x) * 1024 == x * 1024 + (-1024 * k) * TWO_64;
    WrapShift(x * 1024, -1024 * k);
  }

  /**
   For every unit and every value: intermediate wrap-arounds never matter, only the final
   one does, and the amount is exact just when the exact product fits 64 bits.
   */
  lemma MemoryToResourceExact(value: int, unit: string)
    ensures MemoryToResource(value, unit).Quantity? <==> UnitExponent(unit) > 0
    ensures UnitExponent(unit) > 0 ==>
      var exact := value * Pow1024(UnitExponent(unit));
      && MemoryToResource(value, unit) == Quantity(Wrap64(exact))
      && (MemoryToResource(value, unit) == Quantity(exact) <==> -TWO_63 <= exact < TWO_63)
  {
    assert Pow1024(1) == 1024;
    assert Pow1024(2) == 1024 * 1024;
    assert Pow1024(3) == 1024 * 1024 * 1024;
    assert Pow1024(4) == 1024 * 1024 * 1024 * 1024;
    TimesWrapped(value * 1024);
    TimesWrapped(value * 1024 * 1024);
    TimesWrapped(value * 1024 * 1024 * 1024);
  }

  /** The four units, and no other, with their sizes. */
  lemma UnitTable(value: int)
    ensures MemoryToResource(value, "KiB") == Quantity(Wrap64(value * 1024))
    ensures MemoryToResource(value, "MiB") == Quantity(Wrap64(value * 1048576))
    ensures MemoryToResource(value, "GiB") == Quantity(Wrap64(value * 1073741824))
    ensures MemoryToResource(value, "TiB") == Quantity(Wrap64(value * 1099511627776))
    ensures forall unit | unit !in {"KiB", "MiB", "GiB", "TiB"} :: MemoryToResource(value, unit) == UnknownUnit(unit)
  {
    TimesWrapped(value * 1024);
    TimesWrapped(value * 1024 * 1024);
    TimesWrapped(value * 1024 * 1024 * 1024);
  }

  // ----- binary prefixes ------------------------------------------------------------

  /** What ByteCountIEC prints: a plain count, or `bytes / div` with a prefix letter. */
  datatype ByteCount = Plain(bytes: nat) | Scaled(bytes: nat, div: int, prefix: char)

  const PREFIXES: string := "KMGTPE"

  lemma {:induction false} Pow1024Monotone(m: nat, n: nat)
    requires m <= n
    ensures Pow1024(m) <= Pow1024(n)
  {
    if m < n {
      Pow1024Monotone(m, n - 1);
    }
  }

  lemma Pow1024Seven()
    ensures Pow1024(7) > TWO_64 && Pow1024(6) < TWO_63
  {
    assert Pow1024(3) == 1024 * 1024 * 1024;
    assert Pow1024(4) == 1024 * Pow1024(3);
    assert Pow1024(5) == 1024 * Pow1024(4);
    assert Pow1024(6) == 1024 * Pow1024(5);
    assert Pow1024(7) == 1024 * Pow1024(6);
  }

  /** One turn of the scaling loop: dividing the quotient by 1024 scales the divisor by 1024. */
  lemma ScaleStep(b: int, n: int, div: int)
    requires div > 0 && n * div <= b < n * div + div
    ensures n / 1024 * (1024 * div) <= b < n / 1024 * (1024 * div) + 1024 * div
  {
    var q, r := n / 1024, n % 1024;
    SplitProduct(q, r, div);
    assert n == 1024 * q + r;
  }

  lemma SplitProduct(q: int, r: int, div: int)
    requires div > 0 && 0 <= r < 1024
    ensures (1024 * q + r) * div == q * (1024 * div) + r * div
    ensures 0 <= r * div <= 1023 * div
  {
  }

  /** For every 64-bit count: the divisor fits a signed register and the prefix exists and is the right one. */
  method ByteCountIEC(b: nat) returns (r: ByteCount)
    requires b < TWO_64
    ensures b < 1024 <==> r == Plain(b)
    ensures b >= 1024 ==>
      exists exp: nat ::
        && exp < 6
        && r == Scaled(b, Pow1024(exp + 1), "KMGTPE"[exp])
        && r.div <= b < 1024 * r.div
        && r.div < TWO_63
  {
    if b < 1024 {
      return Plain(b);
    }
    var div, exp := 1024, 0;
    var n := b / 1024;
    Pow1024Seven();
    assert Pow1024(1) == 1024;
    while n >= 1024
      invariant div == Pow1024(exp + 1)
      invariant n * div <= b < n * div + div
      invariant 0 <= exp <= 5
      invariant n >= 1
    {
      ScaleStep(b, n, div);
      assert 1024 * div <= n * div;
      assert Pow1024(exp + 2) == 1024 * div;
      Pow1024Monotone(if exp >= 5 then 7 else 0, exp + 2);
      div := div * 1024;
      exp := exp + 1;
      n := n / 1024;
    }
    assert div <= n * div <= 1023 * div;
    Pow1024Monotone(exp + 1, 6);
    r := Scaled(b, div, PREFIXES[exp]);
  }

  /** The prefix is forced: no other exponent puts the count in range. */
  lemma PrefixUnique(b: nat, e1: nat, e2: nat)
    requires Pow1024(e1 + 1) <= b < 1024 * Pow1024(e1 + 1)
    requires Pow1024(e2 + 1) <= b < 1024 * Pow1024(e2 + 1)
    ensures e1 == e2
  {
    if e1 < e2 {
      Pow1024Monotone(e1 + 2, e2 + 1);
    } else if e2 < e1 {
      Pow1024Monotone(e2 + 2, e1 + 1);
    }
  }

  // ----- UUIDs ----------------------------------------------------------------------

  type Byte = x: int | 0 <= x < 256
  type Uuid = u: seq<Byte> | |u| == 16 witness seq(16, _ => 0)

  function HexDigit(n: int): (c: char)
    requires 0 <= n < 16
    ensures '0' <= c <= '9' || 'a' <= c <= 'f'
  {
    if n < 10 then '0' + n as char else 'a' + (n - 10) as char
  }

  function HexValue(c: char): int {
    if '0' <= c <= '9' then c as int - '0' as int
    else if 'a' <= c <= 'f' then c as int - 'a' as int + 10
    else 0
  }

  function HexPair(b: Byte): (s: string)
    ensures |s| == 2
  {
    [HexDigit(b / 16), HexDigit(b % 16)]
  }

  /** Two lower-case digits a byte, high half first. */
  function Hex(bytes: seq<Byte>): (s: string)
    ensures |s| == 2 * |bytes|
  {
    if bytes == [] then ""
    else Hex(bytes[..|bytes| - 1]) + HexPair(bytes[|bytes| - 1])
  }

  /** Reads pairs of digits back as bytes. */
  function Unhex(s: string): (bytes: seq<int>)
    requires |s| % 2 == 0
  {
    if s == "" then []
    else Unhex(s[..|s| - 2]) + [UnhexPair(s[|s| - 2], s[|s| - 1])]
  }

  function UnhexPair(hi: char, lo: char): int {
    HexValue(hi) * 16 + HexValue(lo)
  }

  lemma PairValue(b: Byte)
    ensures UnhexPair(HexPair(b)[0], HexPair(b)[1]) == b
  {
    HexValueOfDigit(b / 16);
    HexValueOfDigit(b % 16);
  }

  lemma {:induction false} UnhexHex(bytes: seq<Byte>)
    ensures Unhex(Hex(bytes)) == bytes
  {
    if bytes != [] {
      var last, rest := bytes[|bytes| - 1], bytes[..|bytes| - 1];
      UnhexHex(rest);
      var s := Hex(bytes);
      assert s == Hex(rest) + HexPair(last);
      assert s[..|s| - 2] == Hex(rest);
      assert s[|s| - 2] == HexPair(last)[0] && s[|s| - 1] == HexPair(last)[1];
      PairValue(last);
    }
  }

  /** Section 4 of RFC 9562: the 8-4-4-4-12 form. */
  function CanonicalForm(u: Uuid): string {
    Hex(u[..4]) + "-" + Hex(u[4..6]) + "-" + Hex(u[6..8]) + "-" + Hex(u[8..10]) + "-" + Hex(u[10..])
  }

  /** Reads the sixteen bytes back from the five groups of a text of the right length. */
  function Decode(s: string): (u: seq<int>)
    requires |s| == 36
  {
    Unhex(s[..8]) + Unhex(s[9..13]) + Unhex(s[14..18]) + Unhex(s[19..23]) + Unhex(s[24..])
  }

  predicate IsLowerHex(c: char) {
    '0' <= c <= '9' || 'a' <= c <= 'f'
  }

  lemma CanonicalShape(u: Uuid)
    ensures var s := CanonicalForm(u);
      && |s| == 36
      && forall i | 0 <= i < 36 ::
        if i == 8 || i == 13 || i == 18 || i == 23 then s[i] == '-' else IsLowerHex(s[i])
  {
    var s := CanonicalForm(u);
    assert |s| == 36;
    HexIsLower(u[..4]);
    HexIsLower(u[4..6]);
    HexIsLower(u[6..8]);
    HexIsLower(u[8..10]);
    HexIsLower(u[10..]);
  }

  /** Where the two digits of byte `k` stand. */
  function DigitAt(k: nat): nat {
    2 * k + if k < 4 then 0 else if k < 6 then 1 else if k < 8 then 2 else if k < 10 then 3 else 4
  }

  /** The bytes stand in order, each as its high and its low half. */
  lemma CanonicalDigits(u: Uuid, k: nat)
    requires k < 16
    ensures |CanonicalForm(u)| == 36
    ensures CanonicalForm(u)[DigitAt(k)] == "0123456789abcdef"[u[k] / 16]
    ensures CanonicalForm(u)[DigitAt(k) + 1] == "0123456789abcdef"[u[k] % 16]
  {
    var a, b, c, d, e := u[..4], u[4..6], u[6..8], u[8..10], u[10..];
    var s := CanonicalForm(u);
    Groups(Hex(a), Hex(b), Hex(c), Hex(d), Hex(e));
    if k < 4 {
      HexDigits(a, k);
      assert s[DigitAt(k)] == s[..8][2 * k] && s[DigitAt(k) + 1] == s[..8][2 * k + 1];
    } else if k < 6 {
      HexDigits(b, k - 4);
    } else if k < 8 {
      HexDigits(c, k - 6);
    } else if k < 10 {
      HexDigits(d, k - 8);
    } else {
      HexDigits(e, k - 10);
    }
  }

  lemma {:induction false} HexDigits(bytes: seq<Byte>, k: nat)
    requires k < |bytes|
    ensures Hex(bytes)[2 * k] == "0123456789abcdef"[bytes[k] / 16]
    ensures Hex(bytes)[2 * k + 1] == "0123456789abcdef"[bytes[k] % 16]
  {
    var n := |bytes| - 1;
    if k < n {
      HexDigits(bytes[..n], k);
    }
  }

  lemma {:induction false} HexIsLower(bytes: seq<Byte>)
    ensures forall i | 0 <= i < |Hex(bytes)| :: IsLowerHex(Hex(bytes)[i])
  {
    if bytes != [] {
      HexIsLower(bytes[..|bytes| - 1]);
    }
  }

  lemma HexValueOfDigit(n: int)
    requires 0 <= n < 16
    ensures HexValue(HexDigit(n)) == n
  {
  }

  lemma Groups(a: string, b: string, c: string, d: string, e: string)
    requires |a| == 8 && |b| == |c| == |d| == 4 && |e| == 12
    ensures var s := a + "-" + b + "-" + c + "-" + d + "-" + e;
      && |s| == 36 && s[..8] == a && s[9..13] == b && s[14..18] == c && s[19..23] == d && s[24..] == e
  {
  }

  lemma RoundTrip(u: Uuid)
    ensures |CanonicalForm(u)| == 36
    ensures Decode(CanonicalForm(u)) == u
  {
    var a, b, c, d, e := u[..4], u[4..6], u[6..8], u[8..10], u[10..];
    Groups(Hex(a), Hex(b), Hex(c), Hex(d), Hex(e));
    UnhexHex(a);
    UnhexHex(b);
    UnhexHex(c);
    UnhexHex(d);
    UnhexHex(e);
    assert a + b + c + d + e == u;
  }

  /** Two domains share a Migration object name only if they are the same domain. */
  lemma NamesAreDistinct(u: Uuid, v: Uuid)
    ensures CanonicalForm(u) == CanonicalForm(v) <==> u == v
  {
    RoundTrip(u);
    RoundTrip(v);
  }

  /** Overwriting the two characters after `pre + h` extends `h` by them. */
  lemma Extend(pre: string, h: string, post: string, pair: string)
    requires |post| >= 2 && |pair| == 2
    ensures var at := |pre| + |h|;
      (pre + h + post)[at := pair[0]][at + 1 := pair[1]] == pre + (h + pair) + post[2..]
  {
  }

  method HexEncode(dst: array<char>, at: nat, src: seq<Byte>)
    requires at + 2 * |src| <= dst.Length
    modifies dst
    ensures dst[..] == old(dst[..at]) + Hex(src) + old(dst[at + 2 * |src|..])
  {
    ghost var orig := dst[..];
    for i := 0 to |src|
      invariant dst[..] == orig[..at] + Hex(src[..i]) + orig[at + 2 * i..]
    {
      ghost var before := dst[..];
      var pair := HexPair(src[i]);
      dst[at + 2 * i] := pair[0];
      dst[at + 2 * i + 1] := pair[1];
      assert dst[..] == before[at + 2 * i := pair[0]][at + 2 * i + 1 := pair[1]];
      Extend(orig[..at], Hex(src[..i]), orig[at + 2 * i..], pair);
      assert orig[at + 2 * i..][2..] == orig[at + 2 * i + 2..];
      assert src[..i + 1][..i] == src[..i];
    }
    assert src[..|src|] == src;
  }

  /** UUID.String: fills a 36-character buffer group by group. */
  method UuidString(u: Uuid) returns (s: string)
    ensures s == CanonicalForm(u)
  {
    var tmp := new char[36];
    HexEncode(tmp, 0, u[..4]);
    tmp[8] := '-';
    assert tmp[..9] == Hex(u[..4]) + "-";
    HexEncode(tmp, 9, u[4..6]);
    tmp[13] := '-';
    assert tmp[..14] == Hex(u[..4]) + "-" + Hex(u[4..6]) + "-";
    HexEncode(tmp, 14, u[6..8]);
    tmp[18] := '-';
    assert tmp[..19] == Hex(u[..4]) + "-" + Hex(u[4..6]) + "-" + Hex(u[6..8]) + "-";
    HexEncode(tmp, 19, u[8..10]);
    tmp[23] := '-';
    assert tmp[..24] == Hex(u[..4]) + "-" + Hex(u[4..6]) + "-" + Hex(u[6..8]) + "-" + Hex(u[8..10]) + "-";
    HexEncode(tmp, 24, u[10..]);
    s := tmp[..];
  }
}
