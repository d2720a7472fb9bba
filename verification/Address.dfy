/** internal/network/addr.go: the addressing of a network. */
module Address {
  import opened Common
  import opened Text

  const MIN_PREFIX_BITS: nat := 16
  const MAX_PREFIX_BITS: nat := 29
  /** The upper sixteen bits of 169.254.0.0/16. */
  const LINK_LOCAL: nat := 0xA9FE

  /** An IPv4 address as the number its four bytes make. */
  type Addr = x: int | 0 <= x < 0x1_0000_0000

  function Pow2(n: nat): (p: nat)
    ensures p >= 1
  {
    if n == 0 then 1 else 2 * Pow2(n - 1)
  }

  lemma {:induction false} Pow2Times(a: nat, b: nat, x: nat)
    requires x == Pow2(b)
    ensures Pow2(a + b) == Pow2(a) * x
  {
    if a > 0 {
      Pow2Times(a - 1, b, x);
      assert Pow2(a) * x == 2 * (Pow2(a - 1) * x);
    }
  }

  lemma Pow2Add(a: nat, b: nat)
    ensures Pow2(a + b) == Pow2(a) * Pow2(b)
  {
    Pow2Times(a, b, Pow2(b));
  }

  lemma Pow2Bytes()
    ensures Pow2(8) == 0x100 && Pow2(16) == 0x1_0000 && Pow2(24) == 0x100_0000 && Pow2(32) == 0x1_0000_0000
    ensures Pow2(3) == 8
  {
    assert Pow2(4) == 16;
    Pow2Add(4, 4);
    Pow2Add(8, 8);
    Pow2Add(16, 8);
    Pow2Add(16, 16);
  }

  // ---------------------------------------------------------------- bytes and bits

  function Bytes(a: Addr): (b: seq<nat>)
    ensures |b| == 4
  {
    var c := a / 0x100;
    var d := c / 0x100;
    [d / 0x100, d % 0x100, c % 0x100, a % 0x100]
  }

  function OfBytes(b: seq<nat>): nat
    requires |b| == 4
  {
    b[0] * 0x100_0000 + b[1] * 0x1_0000 + b[2] * 0x100 + b[3]
  }

  lemma OfBytesOf(a: Addr)
    ensures OfBytes(Bytes(a)) == a && forall i :: 0 <= i < 4 ==> Bytes(a)[i] < 256
  {
  }

  /** Bitwise or. */
  function Or(x: nat, y: nat): nat {
    if x == 0 && y == 0 then 0
    else (if x % 2 == 1 || y % 2 == 1 then 1 else 0) + 2 * Or(x / 2, y / 2)
  }

  lemma {:induction false} OrZero(x: nat)
    ensures Or(x, 0) == x
  {
    if x > 0 {
      OrZero(x / 2);
    }
  }

  lemma OrDouble(x: nat, y: nat)
    ensures Or(2 * x, 2 * y + 1) == 1 + 2 * Or(x, y)
  {
    assert 2 * x / 2 == x && (2 * y + 1) / 2 == y;
  }

  /** Setting the low bits of a number that has none of them adds them. */
  lemma {:induction false} OrLow(t: nat, m: nat)
    ensures Or(Pow2(m) * t, Pow2(m) - 1) == Pow2(m) * t + Pow2(m) - 1
  {
    if m == 0 {
      OrZero(t);
    } else {
      OrLow(t, m - 1);
      OrDouble(Pow2(m - 1) * t, Pow2(m - 1) - 1);
      Associative(2, Pow2(m - 1), t);
    }
  }

  /** How many low bits byte `i` of net.CIDRMask leaves free. */
  function FreeBits(bits: nat, i: nat): nat {
    if bits >= 8 * i + 8 then 0 else if bits <= 8 * i then 8 else 8 * i + 8 - bits
  }

  /** Byte `i` of the mask, complemented. */
  function HostByte(bits: nat, i: nat): nat {
    Pow2(FreeBits(bits, i)) - 1
  }

  lemma Pow2Small(m: nat)
    requires m <= 8
    ensures Pow2(m) * Pow2(8 - m) == 256 && Pow2(m) <= 256
  {
    Pow2Add(m, 8 - m);
    Pow2Bytes();
    assert Pow2(m) * Pow2(8 - m) >= Pow2(m) * 1;
  }

  lemma Associative(a: int, b: int, c: int)
    ensures (a * b) * c == a * (b * c)
  {
  }

  lemma Distributes(a: int, b: int, c: int)
    ensures a * (b + c) == a * b + a * c
  {
  }

  lemma SmallerProduct(p: nat, s: nat, q: nat)
    requires s < q
    ensures p * s + p <= p * q
  {
    Distributes(p, s, q - s);
    assert p * (q - s) >= p;
  }

  /** The remainder modulo 256 of a multiple of a divisor of 256 is a multiple of it. */
  lemma DivisorMultiple(p: nat, q: nat, t: nat, d: nat, s: nat)
    requires p > 0 && p * q == 256 && t == q * d + s && s < q
    ensures (p * t) % 256 == p * s
  {
    Distributes(p, q * d, s);
    Associative(p, q, d);
    SmallerProduct(p, s, q);
    assert p * t == 256 * d + p * s;
  }

  lemma Quotient(t: nat, q: nat)
    requires q > 0
    ensures t == q * (t / q) + t % q && t % q < q
  {
  }

  lemma ByteMultiple(t: nat, m: nat) returns (s: nat)
    requires m <= 8
    ensures (Pow2(m) * t) % 256 == Pow2(m) * s
  {
    Pow2Small(m);
    var q := Pow2(8 - m);
    s := t % q;
    Quotient(t, q);
    DivisorMultiple(Pow2(m), q, t, t / q, s);
  }

  /** Low bits split off a multiple of a power of two. */
  lemma PeelBits(h: nat, k: nat, t: nat) returns (u: nat)
    requires k <= h
    ensures u == Pow2(h - k) * t && Pow2(h) * t == Pow2(k) * u
  {
    u := Pow2(h - k) * t;
    Pow2Add(k, h - k);
    Associative(Pow2(k), Pow2(h - k), t);
  }

  /** Where an address has no host bits, its bytes have none either. */
  lemma BytesMasked(a: Addr, bits: nat, t: nat, i: nat) returns (s: nat)
    requires bits <= 32 && a == Pow2(32 - bits) * t && i < 4
    ensures Bytes(a)[i] == Pow2(FreeBits(bits, i)) * s
  {
    var m := FreeBits(bits, i);
    if m == 0 {
      s := Bytes(a)[i];
    } else {
      s := BytesFree(a, 32 - bits, t, i, m);
    }
  }

  lemma BytesFree(a: Addr, h: nat, t: nat, i: nat, m: nat) returns (s: nat)
    requires i < 4 && m <= 8 && 8 * (3 - i) + m <= h && a == Pow2(h) * t
    ensures Bytes(a)[i] == Pow2(m) * s
  {
    var k := 8 * (3 - i);
    var u := PeelBits(h, k, t);
    var v := PeelBits(h - k, m, t);
    s := ByteMultiple(v, m);
    ByteAt(a, i, u);
  }

  lemma ByteAt(a: Addr, i: nat, u: nat)
    requires i < 4 && a == Pow2(8 * (3 - i)) * u
    ensures Bytes(a)[i] == u % 256
  {
    Pow2Bytes();
    assert Pow2(0) == 1;
    if i == 0 {
      HighByte(u);
    } else if i == 1 {
      assert a == 0x1_0000 * u;
      assert a / 0x100 == 0x100 * u;
    } else if i == 2 {
      assert a == 0x100 * u;
    }
  }

  lemma HighByte(u: nat)
    requires 0x100_0000 * u < 0x1_0000_0000
    ensures Bytes(0x100_0000 * u)[0] == u == u % 256
  {
    assert 0x100_0000 * u / 0x100 == 0x1_0000 * u;
    assert 0x1_0000 * u / 0x100 == 0x100 * u;
  }

  // ---------------------------------------------------------------- layouts

  lemma Divided(x: nat, p: nat)
    requires p > 0
    ensures 0 <= p * (x / p) <= x < p * (x / p) + p
  {
  }

  /** Prefix.Masked: the address without its host bits. */
  function Mask(a: Addr, bits: nat): (network: Addr)
    requires bits <= 32
    ensures network <= a < network + Pow2(32 - bits)
  {
    Divided(a, Pow2(32 - bits));
    Pow2(32 - bits) * (a / Pow2(32 - bits))
  }

  /** The value of the host bits, byte by byte. */
  function LowBits(bits: nat): int
    requires bits <= 32
  {
    (Pow2(FreeBits(bits, 0)) - 1) * 0x100_0000 + (Pow2(FreeBits(bits, 1)) - 1) * 0x1_0000
    + (Pow2(FreeBits(bits, 2)) - 1) * 0x100 + (Pow2(FreeBits(bits, 3)) - 1)
  }

  lemma LowBytesLong(bits: nat)
    requires bits < 16
    ensures LowBits(bits) == Pow2(32 - bits) - 1
  {
    Pow2Bytes();
    assert Pow2(0) == 1;
    if 8 <= bits {
      assert FreeBits(bits, 0) == 0 && FreeBits(bits, 1) == 16 - bits && FreeBits(bits, 2) == FreeBits(bits, 3) == 8;
      Pow2Times(16 - bits, 16, 0x1_0000);
    } else {
      assert FreeBits(bits, 0) == 8 - bits && FreeBits(bits, 1) == FreeBits(bits, 2) == FreeBits(bits, 3) == 8;
      Pow2Times(8 - bits, 24, 0x100_0000);
    }
  }

  /** The low bits all set make up the last address. */
  lemma LowBytes(bits: nat)
    requires bits <= 32
    ensures LowBits(bits) == Pow2(32 - bits) - 1
  {
    Pow2Bytes();
    assert Pow2(0) == 1;
    if bits >= 24 {
      assert FreeBits(bits, 0) == FreeBits(bits, 1) == FreeBits(bits, 2) == 0 && FreeBits(bits, 3) == 32 - bits;
    } else if 16 <= bits {
      assert FreeBits(bits, 0) == FreeBits(bits, 1) == 0 && FreeBits(bits, 2) == 24 - bits && FreeBits(bits, 3) == 8;
      Pow2Times(24 - bits, 8, 0x100);
    } else {
      LowBytesLong(bits);
    }
  }

  lemma LastByBytes(network: Addr, bits: nat, t: nat, a: seq<nat>)
    requires bits <= 32 && network == Pow2(32 - bits) * t && |a| == 4
    requires forall i :: 0 <= i < 4 ==> a[i] == Or(Bytes(network)[i], HostByte(bits, i))
    ensures OfBytes(a) == network + Pow2(32 - bits) - 1
  {
    HostBitsSet(network, bits, t, 0);
    HostBitsSet(network, bits, t, 1);
    HostBitsSet(network, bits, t, 2);
    HostBitsSet(network, bits, t, 3);
    LowBytes(bits);
    OfBytesOf(network);
    OfBytesAdds(a, Bytes(network), Pow2(FreeBits(bits, 0)) - 1, Pow2(FreeBits(bits, 1)) - 1,
                Pow2(FreeBits(bits, 2)) - 1, Pow2(FreeBits(bits, 3)) - 1);
  }

  lemma HostBitsSet(network: Addr, bits: nat, t: nat, i: nat)
    requires bits <= 32 && network == Pow2(32 - bits) * t && i < 4
    ensures Or(Bytes(network)[i], HostByte(bits, i)) == Bytes(network)[i] + Pow2(FreeBits(bits, i)) - 1
  {
    var s := BytesMasked(network, bits, t, i);
    OrLow(s, FreeBits(bits, i));
  }

  lemma OfBytesAdds(a: seq<nat>, b: seq<nat>, l0: int, l1: int, l2: int, l3: int)
    requires |a| == |b| == 4
    requires a[0] == b[0] + l0 && a[1] == b[1] + l1 && a[2] == b[2] + l2 && a[3] == b[3] + l3
    ensures OfBytes(a) == OfBytes(b) + (l0 * 0x100_0000 + l1 * 0x1_0000 + l2 * 0x100 + l3)
  {
  }

  /** lastAddr: setting the host bits byte by byte gives the last address of the prefix. */
  method LastAddr(a: Addr, bits: nat) returns (last: nat)
    requires bits <= 32
    ensures last == Mask(a, bits) + Pow2(32 - bits) - 1
  {
    var network := Mask(a, bits);
    var b := Bytes(network);
    for i := 0 to 4
      invariant |b| == 4
      invariant forall k :: 0 <= k < i ==> b[k] == Or(Bytes(network)[k], HostByte(bits, k))
      invariant forall k :: i <= k < 4 ==> b[k] == Bytes(network)[k]
    {
      b := b[i := Or(b[i], HostByte(bits, i))];
    }
    LastByBytes(network, bits, a / Pow2(32 - bits), b);
    last := OfBytes(b);
  }

  // ---------------------------------------------------------------- address text

  predicate Octet(s: string) {
    Decimal(s) && NumberOf(s) < 256 && (s[0] == '0' ==> |s| == 1)
  }

  /** netip.ParseAddr, as far as it yields an IPv4 address. */
  function ParseAddr(s: string): Option<Addr> {
    var parts := Split(s, '.');
    if |parts| == 4 && Octet(parts[0]) && Octet(parts[1]) && Octet(parts[2]) && Octet(parts[3]) then
      Some(OfBytes([NumberOf(parts[0]), NumberOf(parts[1]), NumberOf(parts[2]), NumberOf(parts[3])]))
    else None
  }

  function AddrText(a: Addr): string {
    var b := Bytes(a);
    Join([Itoa(b[0]), Itoa(b[1]), Itoa(b[2]), Itoa(b[3])], '.')
  }

  lemma OctetOf(n: nat)
    requires n < 256
    ensures Octet(Itoa(n)) && NumberOf(Itoa(n)) == n && '.' !in Itoa(n)
  {
    NumberOfItoa(n);
  }

  /** An address survives being written down and read back. */
  lemma ParseAddrText(a: Addr)
    ensures ParseAddr(AddrText(a)) == Some(a)
  {
    var b := Bytes(a);
    OfBytesOf(a);
    OctetOf(b[0]);
    OctetOf(b[1]);
    OctetOf(b[2]);
    OctetOf(b[3]);
    var parts := [Itoa(b[0]), Itoa(b[1]), Itoa(b[2]), Itoa(b[3])];
    SplitJoin(parts, '.');
    assert [NumberOf(parts[0]), NumberOf(parts[1]), NumberOf(parts[2]), NumberOf(parts[3])] == b;
  }

  lemma {:induction false} ItoaNumberOf(s: string)
    requires Decimal(s) && (s[0] == '0' ==> |s| == 1)
    ensures Itoa(NumberOf(s)) == s
  {
    var last := |s| - 1;
    if last > 0 {
      ItoaNumberOf(s[..last]);
      LeadingDigit(s[..last]);
      assert s == s[..last] + [s[last]];
    } else {
      assert s[..0] == "" && s == [s[0]];
    }
  }

  lemma {:induction false} LeadingDigit(s: string)
    requires Decimal(s) && s[0] != '0'
    ensures NumberOf(s) > 0
  {
    if |s| > 1 {
      LeadingDigit(s[..|s| - 1]);
    } else {
      assert s[..0] == "";
    }
  }

  lemma {:induction false} JoinSplit(s: string, sep: char)
    ensures Join(Split(s, sep), sep) == s
  {
    if s != "" {
      JoinSplit(s[1..], sep);
      var rest := Split(s[1..], sep);
      if s[0] == sep {
        assert ([""] + rest)[1..] == rest;
      } else if |rest| > 1 {
        assert ([[s[0]] + rest[0]] + rest[1..])[1..] == rest[1..];
      }
    }
  }

  lemma LastOf(q: nat, r: nat)
    requires r < 0x100
    ensures (q * 0x100 + r) / 0x100 == q && (q * 0x100 + r) % 0x100 == r
  {
  }

  lemma BytesOf(b: seq<nat>)
    requires |b| == 4 && forall i :: 0 <= i < 4 ==> b[i] < 0x100
    ensures OfBytes(b) < 0x1_0000_0000 && Bytes(OfBytes(b)) == b
  {
    var d := b[0] * 0x100 + b[1];
    var c := d * 0x100 + b[2];
    assert OfBytes(b) == c * 0x100 + b[3];
    LastOf(c, b[3]);
    LastOf(d, b[2]);
    LastOf(b[0], b[1]);
  }

  lemma OctetBack(p: string, n: nat)
    requires Octet(p) && n == NumberOf(p)
    ensures n < 256 && Itoa(n) == p
  {
    ItoaNumberOf(p);
  }

  lemma TextOfBytes(b: seq<nat>)
    requires |b| == 4 && forall i :: 0 <= i < 4 ==> b[i] < 256
    ensures OfBytes(b) < 0x1_0000_0000
    ensures AddrText(OfBytes(b)) == Join([Itoa(b[0]), Itoa(b[1]), Itoa(b[2]), Itoa(b[3])], '.')
  {
    BytesOf(b);
  }

  lemma OctetsBack(parts: seq<string>, b: seq<nat>)
    requires |parts| == |b| == 4 && forall i :: 0 <= i < 4 ==> Octet(parts[i]) && b[i] == NumberOf(parts[i])
    ensures OfBytes(b) < 0x1_0000_0000 && AddrText(OfBytes(b)) == Join(parts, '.')
  {
    OctetBack(parts[0], b[0]);
    OctetBack(parts[1], b[1]);
    OctetBack(parts[2], b[2]);
    OctetBack(parts[3], b[3]);
    TextOfBytes(b);
    assert parts == [Itoa(b[0]), Itoa(b[1]), Itoa(b[2]), Itoa(b[3])];
  }

  /** What parses is the text of an address and nothing else: no leading zeros, signs, spaces or missing parts. */
  lemma ParsesIffText(s: string, a: Addr)
    ensures ParseAddr(s) == Some(a) <==> s == AddrText(a)
  {
    ParseAddrText(a);
    if ParseAddr(s) == Some(a) {
      var parts := Split(s, '.');
      OctetsBack(parts, [NumberOf(parts[0]), NumberOf(parts[1]), NumberOf(parts[2]), NumberOf(parts[3])]);
      JoinSplit(s, '.');
    }
  }

  // ---------------------------------------------------------------- resolve

  /** A network's CIDR as netip.ParsePrefix reads it. */
  datatype Cidr = Malformed | V6 | V4(addr: Addr, bits: nat)

  datatype Spec = Spec(name: string, cidr: Cidr, gatewayIP: string)

  datatype Layout = Layout(bits: nat, network: Addr, gateway: Addr, host: Addr, broadcast: Addr)

  predicate LabelChar(c: char) {
    'a' <= c <= 'z' || '0' <= c <= '9'
  }

  predicate DnsLabel(s: string) {
    && 1 <= |s| <= 63 && LabelChar(s[0]) && LabelChar(s[|s| - 1])
    && forall i :: 0 <= i < |s| ==> LabelChar(s[i]) || s[i] == '-'
  }

  /** Prefix.Contains. */
  predicate Contains(a: Addr, bits: nat, ip: Addr)
    requires bits <= 32
  {
    Mask(ip, bits) == Mask(a, bits)
  }

  /** Prefix.Overlaps with 169.254.0.0/16: equal on the shorter of the two prefixes. */
  predicate OverlapsLinkLocal(a: Addr, bits: nat)
    requires bits <= 32
  {
    var shorter := if bits < 16 then bits else 16;
    Mask(a, shorter) == Mask(LINK_LOCAL * 0x1_0000, shorter)
  }

  /** The addressing every accepted specification has. */
  predicate ValidLayout(l: Layout) {
    && MIN_PREFIX_BITS <= l.bits <= MAX_PREFIX_BITS
    && l.network == Mask(l.network, l.bits) && l.broadcast == l.network + Pow2(32 - l.bits) - 1
    && l.host == l.broadcast - 1 && l.network < l.gateway < l.host
  }

  predicate GatewayAllowed(network: Addr, bits: nat, gw: Addr)
    requires bits <= 32
  {
    && Contains(network, bits, gw) && gw != network
    && gw != network + Pow2(32 - bits) - 1 && gw != network + Pow2(32 - bits) - 2
  }

  predicate Acceptable(spec: Spec) {
    && DnsLabel(spec.name) && spec.cidr.V4? && MIN_PREFIX_BITS <= spec.cidr.bits <= MAX_PREFIX_BITS
    && !OverlapsLinkLocal(Mask(spec.cidr.addr, spec.cidr.bits), spec.cidr.bits)
    && (spec.gatewayIP != "" ==>
          && ParseAddr(spec.gatewayIP).Some?
          && GatewayAllowed(Mask(spec.cidr.addr, spec.cidr.bits), spec.cidr.bits, ParseAddr(spec.gatewayIP).value))
  }

  lemma {:induction false} Pow2Monotone(a: nat, b: nat)
    requires a <= b
    ensures Pow2(a) <= Pow2(b)
  {
    if a < b {
      Pow2Monotone(a, b - 1);
    }
  }

  lemma SameQuotient(x: nat, p: nat, t: nat)
    requires p > 0 && p * t <= x < p * t + p
    ensures x / p == t
  {
    var q := x / p;
    assert x == p * q + x % p;
    if t < q {
      SmallerProduct(p, t, q);
    } else if q < t {
      SmallerProduct(p, q, t);
    }
  }

  lemma QuotientBound(x: nat, p: nat, n: nat)
    requires p > 0 && x < p * n
    ensures p * (x / p) + p <= p * n
  {
    var q := x / p;
    assert x == p * q + x % p;
    if q < n {
      SmallerProduct(p, q, n);
    } else if n < q {
      SmallerProduct(p, n, q);
    }
  }

  /** Masking twice is masking once; a masked address spans its block. */
  lemma MaskedBlock(a: Addr, bits: nat)
    requires bits <= 32
    ensures Mask(Mask(a, bits), bits) == Mask(a, bits)
    ensures Mask(a, bits) + Pow2(32 - bits) <= 0x1_0000_0000
  {
    SameQuotient(Mask(a, bits), Pow2(32 - bits), a / Pow2(32 - bits));
    Pow2Add(32 - bits, bits);
    Pow2Bytes();
    QuotientBound(a, Pow2(32 - bits), Pow2(bits));
  }

  /** The addresses of a prefix are the block from its network address on. */
  lemma ContainsIsBlock(network: Addr, bits: nat, ip: Addr)
    requires bits <= 32 && network == Mask(network, bits)
    ensures Contains(network, bits, ip) <==> network <= ip < network + Pow2(32 - bits)
  {
    var size := Pow2(32 - bits);
    if network <= ip < network + size {
      SameQuotient(ip, size, network / size);
    }
  }

  lemma MultiplesApart(p: nat, x: nat, y: nat)
    requires p * x < p * y + p
    ensures p * x <= p * y
  {
    if y < x {
      SmallerProduct(p, y, x);
    }
  }

  /** A block of `size` and one of a multiple of that size, both at multiples of their size: which contains which. */
  lemma BlocksMeet(small: nat, large: nat, size: nat, k: nat, x: nat, y: nat)
    requires size > 0 && k > 0 && small == size * x && large == size * k * y
    ensures small < large + size * k && large < small + size <==> large <= small < large + size * k
  {
    if large < small + size {
      assert large == size * (k * y);
      MultiplesApart(size, k * y, x);
    }
  }

  lemma MaskIsMultiple(network: Addr, bits: nat)
    requires bits <= 32 && network == Mask(network, bits)
    ensures network == Pow2(32 - bits) * (network / Pow2(32 - bits))
  {
  }

  lemma LongPrefixMeets(network: Addr, bits: nat)
    requires 16 <= bits <= 32 && network == Mask(network, bits)
    ensures 0xA9FE_0000 <= network <= 0xA9FE_FFFF <==> network <= 0xA9FE_FFFF && 0xA9FE_0000 < network + Pow2(32 - bits)
  {
    Pow2Bytes();
    Pow2Add(32 - bits, bits - 16);
    MaskIsMultiple(network, bits);
    BlocksMeet(network, 0xA9FE_0000, Pow2(32 - bits), Pow2(bits - 16), network / Pow2(32 - bits), 0xA9FE);
  }

  lemma ShortPrefixMeets(network: Addr, bits: nat)
    requires bits < 16 && network == Mask(network, bits)
    ensures network <= 0xA9FE_0000 < network + Pow2(32 - bits) <==>
              network <= 0xA9FE_FFFF && 0xA9FE_0000 < network + Pow2(32 - bits)
  {
    Pow2Bytes();
    Pow2Add(16, 16 - bits);
    MaskIsMultiple(network, bits);
    BlocksMeet(0xA9FE_0000, network, 0x1_0000, Pow2(16 - bits), 0xA9FE, network / Pow2(32 - bits));
  }

  lemma LinkLocalMasked()
    ensures Mask(0xA9FE_0000, 16) == 0xA9FE_0000
  {
    Pow2Bytes();
  }

  /** A prefix overlaps the link-local range exactly when some address is in both: 169.254.0.0 to 169.254.255.255. */
  lemma OverlapMeans(network: Addr, bits: nat)
    requires bits <= 32 && network == Mask(network, bits)
    ensures OverlapsLinkLocal(network, bits) <==>
              network <= 0xA9FE_FFFF && 0xA9FE_0000 < network + Pow2(32 - bits)
  {
    Pow2Bytes();
    if bits < 16 {
      ShortPrefixMeets(network, bits);
      ContainsIsBlock(network, bits, 0xA9FE_0000);
    } else {
      LongPrefixMeets(network, bits);
      LinkLocalMasked();
      ContainsIsBlock(0xA9FE_0000, 16, network);
    }
  }

  /**
   * What is acceptable: a DNS label, an IPv4 prefix of /16 to /29 with no link-local address, and as gateway, if one
   * is named, an address of the prefix other than its first and its last two.
   */
  lemma AcceptableMeans(spec: Spec)
    ensures Acceptable(spec) <==>
              && DnsLabel(spec.name) && spec.cidr.V4? && 16 <= spec.cidr.bits <= 29
              && var network := Mask(spec.cidr.addr, spec.cidr.bits);
                 var size := Pow2(32 - spec.cidr.bits);
                 && (network + size <= 0xA9FE_0000 || network > 0xA9FE_FFFF)
                 && (spec.gatewayIP != "" ==>
                       ParseAddr(spec.gatewayIP).Some? && network < ParseAddr(spec.gatewayIP).value < network + size - 2)
  {
    if spec.cidr.V4? && 16 <= spec.cidr.bits <= 29 {
      var network := Mask(spec.cidr.addr, spec.cidr.bits);
      MaskedBlock(spec.cidr.addr, spec.cidr.bits);
      OverlapMeans(network, spec.cidr.bits);
      if ParseAddr(spec.gatewayIP).Some? {
        ContainsIsBlock(network, spec.cidr.bits, ParseAddr(spec.gatewayIP).value);
      }
    }
  }

  /** resolve: accepts exactly the acceptable specifications, with this addressing. */
  method Resolve(spec: Spec) returns (r: Result<Layout, ()>)
    ensures r.Ok? <==> Acceptable(spec)
    ensures r.Ok? ==>
              && ValidLayout(r.value) && r.value.bits == spec.cidr.bits
              && r.value.network == Mask(spec.cidr.addr, spec.cidr.bits)
              && !OverlapsLinkLocal(r.value.network, r.value.bits)
              && (if spec.gatewayIP == "" then r.value.gateway == r.value.network + 1
                  else Some(r.value.gateway) == ParseAddr(spec.gatewayIP))
  {
    if !DnsLabel(spec.name) || !spec.cidr.V4? {
      return Err(());
    }
    var bits := spec.cidr.bits;
    if bits < MIN_PREFIX_BITS || bits > MAX_PREFIX_BITS {
      return Err(());
    }
    var network := Mask(spec.cidr.addr, bits);
    MaskedBlock(spec.cidr.addr, bits);
    if OverlapsLinkLocal(network, bits) {
      return Err(());
    }
    var broadcast := LastAddr(network, bits);
    Pow2Bytes();
    Pow2Monotone(3, 32 - bits);
    var host, gateway := broadcast - 1, network + 1;
    if spec.gatewayIP != "" {
      var gw := ParseAddr(spec.gatewayIP);
      if gw.None? || !Contains(network, bits, gw.value) || gw.value == network || gw.value == broadcast || gw.value == host {
        return Err(());
      }
      ContainsIsBlock(network, bits, gw.value);
      gateway := gw.value;
    }
    return Ok(Layout(bits, network, gateway, host, broadcast));
  }

  // ---------------------------------------------------------------- the pool

  predicate PoolContains(l: Layout, ip: Addr)
    requires l.bits <= 32
  {
    Contains(l.network, l.bits, ip) && ip != l.network && ip != l.gateway && ip != l.host && ip != l.broadcast
  }

  function PoolSize(l: Layout): int
    requires l.bits <= 32
  {
    Pow2(32 - l.bits) - 4
  }

  ghost function Interval(lo: int, n: nat): set<int> {
    if n == 0 then {} else Interval(lo, n - 1) + {lo + n - 1}
  }

  lemma {:induction false} IntervalIs(lo: int, n: nat)
    ensures |Interval(lo, n)| == n
    ensures forall x: int :: x in Interval(lo, n) <==> lo <= x < lo + n
  {
    if n > 0 {
      IntervalIs(lo, n - 1);
    }
  }

  /** The addresses between the network address and the host alias, without the gateway. */
  ghost function Pool(l: Layout): set<int>
    requires ValidLayout(l)
  {
    Interval(l.network + 1, l.host - l.network - 1) - {l.gateway}
  }

  lemma PoolIs(l: Layout, ip: Addr)
    requires ValidLayout(l)
    ensures PoolContains(l, ip) <==> ip in Pool(l)
  {
    IntervalIs(l.network + 1, l.host - l.network - 1);
    ContainsIsBlock(l.network, l.bits, ip);
  }

  /** Whatever the gateway, four addresses of the block are not handed out. */
  lemma PoolHasSize(l: Layout)
    requires ValidLayout(l)
    ensures |Pool(l)| == PoolSize(l) && PoolSize(l) >= 4
    ensures forall ip :: ip in Pool(l) ==> l.network < ip < l.host
  {
    Pow2Bytes();
    Pow2Monotone(3, 32 - l.bits);
    IntervalIs(l.network + 1, l.host - l.network - 1);
  }

  predicate Ascending(s: seq<Addr>) {
    forall i, j :: 0 <= i < j < |s| ==> s[i] < s[j]
  }

  /** The addresses before `ip` in the pool all let the walk go on. */
  ghost predicate Reaches(l: Layout, go: Addr -> bool, ip: int)
    requires ValidLayout(l)
  {
    forall j: Addr :: j in Pool(l) && j < ip ==> go(j)
  }

  /** eachPool: the pool addresses in ascending order, until `go` says no to one. */
  method EachPool(l: Layout, go: Addr -> bool) returns (visited: seq<Addr>)
    requires ValidLayout(l)
    ensures Ascending(visited)
    ensures forall ip: Addr :: ip in visited <==> ip in Pool(l) && Reaches(l, go, ip)
  {
    PoolHasSize(l);
    visited := [];
    var ip := l.network + 1;
    while ip < l.broadcast
      invariant l.network < ip <= l.broadcast
      invariant Ascending(visited) && forall k :: 0 <= k < |visited| ==> visited[k] < ip
      invariant Reaches(l, go, ip)
      invariant forall j: Addr :: j in visited <==> j in Pool(l) && j < ip
    {
      PoolIs(l, ip);
      if PoolContains(l, ip) {
        visited := visited + [ip];
        if !go(ip) {
          return;
        }
      }
      ip := ip + 1;
    }
  }

  lemma {:induction false} AscendingSize(s: seq<Addr>, all: set<int>)
    requires Ascending(s) && forall ip: int :: ip in all <==> ip in s
    ensures |all| == |s|
  {
    if s != [] {
      var last := s[|s| - 1];
      var rest := s[..|s| - 1];
      assert s == rest + [last];
      AscendingSize(rest, all - {last});
    } else {
      assert forall ip: int :: ip !in all;
    }
  }

  /** A walk nothing stops visits every pool address, exactly the pool size of them. */
  method WholePool(l: Layout) returns (visited: seq<Addr>)
    requires ValidLayout(l)
    ensures Ascending(visited) && |visited| == PoolSize(l)
    ensures forall ip: Addr :: ip in visited <==> ip in Pool(l)
  {
    visited := EachPool(l, _ => true);
    PoolHasSize(l);
    AscendingSize(visited, Pool(l));
  }
}
