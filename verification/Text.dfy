/** The text encodings the service exchanges: hex digests and dotted decimal. */
module Text {
  import opened Common

  newtype byte = x: int | 0 <= x < 256

  // ---------------------------------------------------------------- hex

  function HexDigit(n: nat): (c: char)
    requires n < 16
    ensures HexValue(c) == Some(n) && Lower(c) == c
  {
    if n < 10 then '0' + n as char else 'a' + (n - 10) as char
  }

  function HexValue(c: char): (v: Option<nat>)
    ensures v.Some? ==> v.value < 16
  {
    if '0' <= c <= '9' then Some((c - '0') as nat)
    else if 'a' <= c <= 'f' then Some((c - 'a') as nat + 10)
    else if 'A' <= c <= 'F' then Some((c - 'A') as nat + 10)
    else None
  }

  function Lower(c: char): char {
    if 'A' <= c <= 'Z' then c + ('a' - 'A') else c
  }

  function ToLower(s: string): (r: string)
    ensures |r| == |s| && forall i :: 0 <= i < |s| ==> r[i] == Lower(s[i])
  {
    if s == "" then "" else [Lower(s[0])] + ToLower(s[1..])
  }

  /** hex.EncodeToString: two lower-case digits per byte. */
  function HexEncode(b: seq<byte>): (s: string)
    ensures |s| == 2 * |b|
  {
    if b == [] then ""
    else [HexDigit(b[0] as nat / 16), HexDigit(b[0] as nat % 16)] + HexEncode(b[1..])
  }

  /** Each byte is written with its high digit first. */
  lemma {:induction false} HexEncodeAt(b: seq<byte>, i: nat)
    requires i < |b|
    ensures HexEncode(b)[2 * i] == "0123456789abcdef"[b[i] as nat / 16]
    ensures HexEncode(b)[2 * i + 1] == "0123456789abcdef"[b[i] as nat % 16]
  {
    if i > 0 {
      HexEncodeAt(b[1..], i - 1);
      assert b[i] == b[1..][i - 1];
    }
  }

  /** hex.DecodeString: an even number of digits of either case. */
  function HexDecode(s: string): (r: Option<seq<byte>>)
    ensures r.Some? ==> |s| == 2 * |r.value|
  {
    if s == "" then Some([])
    else if |s| == 1 || HexValue(s[0]).None? || HexValue(s[1]).None? then None
    else
      var rest := HexDecode(s[2..]);
      if rest.None? then None
      else Some([(HexValue(s[0]).value * 16 + HexValue(s[1]).value) as byte] + rest.value)
  }

  lemma {:induction false} HexDecodeEncode(b: seq<byte>)
    ensures HexDecode(HexEncode(b)) == Some(b)
  {
    if b != [] {
      HexDecodeEncode(b[1..]);
      assert HexEncode(b)[2..] == HexEncode(b[1..]);
      assert b[0] as nat / 16 * 16 + b[0] as nat % 16 == b[0] as nat;
      assert [b[0]] + b[1..] == b;
    }
  }

  lemma HexDigitOfValue(c: char)
    requires HexValue(c).Some?
    ensures HexDigit(HexValue(c).value) == Lower(c)
  {
  }

  lemma {:induction false} HexEncodeDecode(s: string)
    requires HexDecode(s).Some?
    ensures HexEncode(HexDecode(s).value) == ToLower(s)
  {
    if s != "" {
      HexEncodeDecode(s[2..]);
      HexDigitOfValue(s[0]);
      HexDigitOfValue(s[1]);
      assert ToLower(s) == [Lower(s[0]), Lower(s[1])] + ToLower(s[2..]);
    }
  }

  /** Case does not matter. */
  lemma {:induction false} HexDecodeLower(s: string)
    ensures HexDecode(ToLower(s)) == HexDecode(s)
  {
    if |s| >= 2 {
      HexDecodeLower(s[2..]);
      assert ToLower(s) == [Lower(s[0]), Lower(s[1])] + ToLower(s[2..]);
      assert ToLower(s)[2..] == ToLower(s[2..]);
    }
  }

  /** Comparing lower-cased hex text is comparing the bytes. */
  lemma HexComparesBytes(b: seq<byte>, s: string)
    ensures HexEncode(b) == ToLower(s) <==> HexDecode(s) == Some(b)
  {
    if HexDecode(s).Some? {
      HexEncodeDecode(s);
    }
    if HexEncode(b) == ToLower(s) {
      HexDecodeEncode(b);
      HexDecodeLower(s);
    }
  }

  // ---------------------------------------------------------------- dotted text

  /** strings.Split at `sep`: one part more than separators. */
  function Split(s: string, sep: char): (parts: seq<string>)
    ensures |parts| >= 1
    ensures forall i :: 0 <= i < |parts| ==> sep !in parts[i]
  {
    if s == "" then [""]
    else
      var rest := Split(s[1..], sep);
      if s[0] == sep then [""] + rest
      else [[s[0]] + rest[0]] + rest[1..]
  }

  function Join(parts: seq<string>, sep: char): string
    requires |parts| >= 1
  {
    if |parts| == 1 then parts[0] else parts[0] + [sep] + Join(parts[1..], sep)
  }

  lemma {:induction false} SplitPrefix(p: string, s: string, sep: char)
    requires sep !in p
    ensures Split(p + [sep] + s, sep) == [p] + Split(s, sep)
  {
    var t := p + [sep] + s;
    if p == "" {
      assert t[1..] == s;
    } else {
      SplitPrefix(p[1..], s, sep);
      assert t[1..] == p[1..] + [sep] + s;
      assert [p[0]] + p[1..] == p;
    }
  }

  lemma {:induction false} SplitWhole(p: string, sep: char)
    requires sep !in p
    ensures Split(p, sep) == [p]
  {
    if p != "" {
      SplitWhole(p[1..], sep);
      assert [p[0]] + p[1..] == p;
    }
  }

  lemma {:induction false} SplitJoin(parts: seq<string>, sep: char)
    requires |parts| >= 1 && forall i :: 0 <= i < |parts| ==> sep !in parts[i]
    ensures Split(Join(parts, sep), sep) == parts
  {
    if |parts| == 1 {
      SplitWhole(parts[0], sep);
    } else {
      SplitJoin(parts[1..], sep);
      SplitPrefix(parts[0], Join(parts[1..], sep), sep);
    }
  }

  // ---------------------------------------------------------------- decimal

  predicate Digit(c: char) {
    '0' <= c <= '9'
  }

  predicate Decimal(s: string) {
    s != "" && forall i :: 0 <= i < |s| ==> Digit(s[i])
  }

  /** The number a digit string denotes. */
  function NumberOf(s: string): nat
    requires forall i :: 0 <= i < |s| ==> Digit(s[i])
  {
    if s == "" then 0
    else
      var last := s[|s| - 1];
      assert Digit(last);
      NumberOf(s[..|s| - 1]) * 10 + (last - '0') as nat
  }

  function Itoa(n: nat): (s: string)
    ensures Decimal(s)
  {
    if n < 10 then ['0' + n as char] else Itoa(n / 10) + ['0' + (n % 10) as char]
  }

  lemma {:induction false} NumberOfItoa(n: nat)
    ensures NumberOf(Itoa(n)) == n
    ensures Itoa(n)[0] == '0' ==> Itoa(n) == "0"
  {
    if n < 10 {
      assert Itoa(n)[..0] == "";
    } else {
      NumberOfItoa(n / 10);
      assert Itoa(n)[..|Itoa(n)| - 1] == Itoa(n / 10);
    }
  }
}
