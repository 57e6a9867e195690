/**
 * The hybrid cipher: a message is masked with a secret sent under one public key and encrypted with
 * another; both ciphertexts travel in one string with '$' between. The ciphers themselves are parameters.
 */
module HybridCipher {
  import opened Strings

  datatype Result<+T> = Ok(value: T) | Thrown

  // ----- Hexadecimal -------------------------------------------------------------------------

  function HexDigit(n: nat): char
    requires n < 16
  {
    if n < 10 then ('0' as int + n) as char else ('a' as int + n - 10) as char
  }

  /** parseInt(c, 16), with NaN taken as 0 by the XOR that follows. */
  function HexValue(c: char): (n: nat)
    ensures n < 16
  {
    if '0' <= c <= '9' then c as int - '0' as int
    else if 'a' <= c <= 'f' then c as int - 'a' as int + 10
    else if 'A' <= c <= 'F' then c as int - 'A' as int + 10
    else 0
  }

  predicate IsLowerHex(c: char) { '0' <= c <= '9' || 'a' <= c <= 'f' }

  predicate IsHex(s: string) { forall i :: 0 <= i < |s| ==> IsLowerHex(s[i]) }

  /** The `^` of two numbers of `bits` bits. */
  function Xor(a: nat, b: nat, bits: nat): nat {
    if bits == 0 then 0 else 2 * Xor(a / 2, b / 2, bits - 1) + (a % 2 + b % 2) % 2
  }

  function Pow2(bits: nat): nat { if bits == 0 then 1 else 2 * Pow2(bits - 1) }

  lemma {:induction false} XorBounded(a: nat, b: nat, bits: nat)
    ensures Xor(a, b, bits) < Pow2(bits)
  {
    if bits > 0 { XorBounded(a / 2, b / 2, bits - 1); }
  }

  lemma {:induction false} XorUndoes(a: nat, b: nat, bits: nat)
    requires a < Pow2(bits)
    ensures Xor(Xor(a, b, bits), b, bits) == a
  {
    if bits > 0 {
      XorUndoes(a / 2, b / 2, bits - 1);
      XorStep(Xor(a / 2, b / 2, bits - 1), (a % 2 + b % 2) % 2, b, bits);
      ParityUndoes(a, b);
    }
  }

  lemma XorStep(high: nat, low: nat, b: nat, bits: nat)
    requires low < 2 && bits > 0
    ensures Xor(2 * high + low, b, bits) == 2 * Xor(high, b / 2, bits - 1) + (low + b % 2) % 2
  {
    assert (2 * high + low) / 2 == high && (2 * high + low) % 2 == low;
  }

  lemma ParityUndoes(a: nat, b: nat)
    ensures ((a % 2 + b % 2) % 2 + b % 2) % 2 == a % 2
  {}

  function XorDigit(a: char, b: char): char {
    XorBounded(HexValue(a), HexValue(b), 4);
    assert Pow2(4) == 16;
    HexDigit(Xor(HexValue(a), HexValue(b), 4))
  }

  lemma XorDigitUndoes(a: char, b: char)
    requires IsLowerHex(a)
    ensures IsLowerHex(XorDigit(a, b)) && XorDigit(XorDigit(a, b), b) == a
  {
    XorBounded(HexValue(a), HexValue(b), 4);
    assert Pow2(4) == 16;
    XorUndoes(HexValue(a), HexValue(b), 4);
    HexDigitValue(Xor(HexValue(a), HexValue(b), 4));
  }

  lemma HexDigitValue(n: nat)
    requires n < 16
    ensures HexValue(HexDigit(n)) == n && IsLowerHex(HexDigit(n))
  {}

  function XorAll(a: string, b: string): (r: string)
    requires |a| == |b|
    ensures |r| == |a|
  {
    seq(|a|, i requires 0 <= i < |a| => XorDigit(a[i], b[i]))
  }

  /** XORhex, from the last digit to the first. */
  method XORhex(a: string, b: string) returns (res: Result<string>)
    ensures res == if |a| == |b| then Ok(XorAll(a, b)) else Thrown
  {
    var i, j := |a|, |b|;
    if i != j {
      return Thrown;
    }
    var out := "";
    while i > 0 && j > 0
      invariant 0 <= i == j <= |a| && out == XorAll(a, b)[i..]
    {
      i, j := i - 1, j - 1;
      out := [XorDigit(a[i], b[j])] + out;
    }
    assert out == XorAll(a, b);
    res := Ok(out);
  }

  /** On lowercase hex, masking twice with the same string undoes the mask. */
  lemma XorAllUndoes(a: string, b: string)
    requires |a| == |b| && IsHex(a)
    ensures IsHex(XorAll(a, b)) && XorAll(XorAll(a, b), b) == a
  {
    forall i | 0 <= i < |a| ensures IsLowerHex(XorAll(a, b)[i]) && XorAll(XorAll(a, b), b)[i] == a[i] {
      XorDigitUndoes(a[i], b[i]);
    }
  }

  const HEX := "0123456789abcdef"

  /** What a mask digit does to a digit, bit by bit. */
  function Flipped(m: nat, n: nat): nat {
    (m % 2 + n % 2) % 2 + 2 * ((m / 2 % 2 + n / 2 % 2) % 2)
    + 4 * ((m / 4 % 2 + n / 4 % 2) % 2) + 8 * ((m / 8 % 2 + n / 8 % 2) % 2)
  }

  /** Digits are read in either case, and what is not a digit as 0. */
  lemma HexValueIsLiteral(c: char, n: nat)
    requires n < 16
    ensures HexValue("0123456789abcdef"[n]) == HexValue("0123456789ABCDEF"[n]) == n && HexDigit(n) == HEX[n]
    ensures c !in "0123456789abcdef" && c !in "0123456789ABCDEF" ==> HexValue(c) == 0
  {
    if HexValue(c) > 0 {
      var k := HexValue(c);
      assert c == "0123456789abcdef"[k] || c == "0123456789ABCDEF"[k];
    }
  }

  lemma XorIsFlipped(m: nat, n: nat)
    requires m < 16 && n < 16
    ensures Xor(m, n, 4) == Flipped(m, n) < 16
  {
    assert m / 2 / 2 == m / 4 && m / 4 / 2 == m / 8 && n / 2 / 2 == n / 4 && n / 4 / 2 == n / 8;
    assert Xor(m / 8, n / 8, 1) == (m / 8 % 2 + n / 8 % 2) % 2;
    assert Xor(m / 4, n / 4, 2) == 2 * Xor(m / 8, n / 8, 1) + (m / 4 % 2 + n / 4 % 2) % 2;
    assert Xor(m / 2, n / 2, 3) == 2 * Xor(m / 4, n / 4, 2) + (m / 2 % 2 + n / 2 % 2) % 2;
    assert Xor(m, n, 4) == 2 * Xor(m / 2, n / 2, 3) + (m % 2 + n % 2) % 2;
  }

  /** Each digit of the result is the lowercase digit of the two values' bits added without carry. */
  lemma XorAllIsLiteral(a: string, b: string, i: nat)
    requires |a| == |b| && i < |a|
    ensures Flipped(HexValue(a[i]), HexValue(b[i])) < 16
    ensures XorAll(a, b)[i] == HEX[Flipped(HexValue(a[i]), HexValue(b[i]))]
  {
    XorIsFlipped(HexValue(a[i]), HexValue(b[i]));
    HexValueIsLiteral(a[i], Flipped(HexValue(a[i]), HexValue(b[i])));
  }

  /** Buffer.toString('hex'). */
  function ToHex(bytes: seq<Byte>): (r: string)
    ensures |r| == 2 * |bytes|
  {
    seq(2 * |bytes|, i requires 0 <= i < 2 * |bytes| => HexPair(bytes[i / 2])[i % 2])
  }

  function HexPair(b: Byte): (r: string)
    ensures |r| == 2
  {
    [HexDigit(b as int / 16), HexDigit(b as int % 16)]
  }

  /** A byte is written as two lowercase digits, the high one first. */
  lemma ToHexIsLiteral(bytes: seq<Byte>, i: nat)
    requires i < |bytes|
    ensures ToHex(bytes)[2 * i] == HEX[bytes[i] as int / 16] && ToHex(bytes)[2 * i + 1] == HEX[bytes[i] as int % 16]
  {
    HexValueIsLiteral('0', bytes[i] as int / 16);
    HexValueIsLiteral('0', bytes[i] as int % 16);
    assert (2 * i) / 2 == i && (2 * i + 1) / 2 == i && (2 * i) % 2 == 0 && (2 * i + 1) % 2 == 1;
  }

  function PairValue(high: char, low: char): Byte { (16 * HexValue(high) + HexValue(low)) as Byte }

  /** Buffer.from(s, 'hex'), on strings of whole bytes. */
  function FromHex(s: string): (r: seq<Byte>)
    requires |s| % 2 == 0
    ensures 2 * |r| == |s|
  {
    seq(|s| / 2, i requires 0 <= i < |s| / 2 => PairValue(s[2 * i], s[2 * i + 1]))
  }

  lemma PairRoundTrip(b: Byte)
    ensures IsHex(HexPair(b)) && PairValue(HexPair(b)[0], HexPair(b)[1]) == b
  {
    HexDigitValue(b as int / 16);
    HexDigitValue(b as int % 16);
  }

  lemma PairAt(bytes: seq<Byte>, i: nat)
    requires i < |bytes|
    ensures [ToHex(bytes)[2 * i], ToHex(bytes)[2 * i + 1]] == HexPair(bytes[i])
  {
    assert (2 * i) / 2 == i && (2 * i + 1) / 2 == i && (2 * i) % 2 == 0 && (2 * i + 1) % 2 == 1;
  }

  lemma ByteComesBack(bytes: seq<Byte>, i: nat)
    requires i < |bytes|
    ensures FromHex(ToHex(bytes))[i] == bytes[i]
  {
    PairRoundTrip(bytes[i]);
    PairAt(bytes, i);
  }

  lemma WrittenInHex(bytes: seq<Byte>)
    ensures IsHex(ToHex(bytes))
  {
    forall i | 0 <= i < 2 * |bytes| ensures IsLowerHex(ToHex(bytes)[i]) { PairRoundTrip(bytes[i / 2]); }
  }

  lemma HexRoundTrip(bytes: seq<Byte>)
    ensures IsHex(ToHex(bytes)) && FromHex(ToHex(bytes)) == bytes
  {
    WrittenInHex(bytes);
    forall i | 0 <= i < |bytes| ensures FromHex(ToHex(bytes))[i] == bytes[i] { ByteComesBack(bytes, i); }
  }

  // ----- Text --------------------------------------------------------------------------------

  predicate HighSurrogate(u: Unit) { 0xD800 <= u < 0xDC00 }
  predicate LowSurrogate(u: Unit) { 0xDC00 <= u < 0xE000 }

  function ThreeBytes(code: nat): seq<Byte>
    requires code < 0x1_0000
  {
    [(0xE0 + code / 0x1000) as Byte, (0x80 + code / 0x40 % 0x40) as Byte, (0x80 + code % 0x40) as Byte]
  }

  /** Buffer.from(s): UTF-8, with lone surrogates replaced by U+FFFD. */
  function Utf8(s: seq<Unit>): seq<Byte>
    decreases |s|
  {
    if s == [] then []
    else
      var c := s[0] as nat;
      if c < 0x80 then [c as Byte] + Utf8(s[1..])
      else if c < 0x800 then [(0xC0 + c / 0x40) as Byte, (0x80 + c % 0x40) as Byte] + Utf8(s[1..])
      else if HighSurrogate(s[0]) && |s| >= 2 && LowSurrogate(s[1]) then
        var code := 0x1_0000 + (c - 0xD800) * 0x400 + (s[1] as nat - 0xDC00);
        [(0xF0 + code / 0x4_0000) as Byte, (0x80 + code / 0x1000 % 0x40) as Byte, (0x80 + code / 0x40 % 0x40) as Byte,
         (0x80 + code % 0x40) as Byte] + Utf8(s[2..])
      else if HighSurrogate(s[0]) || LowSurrogate(s[0]) then ThreeBytes(0xFFFD) + Utf8(s[1..])
      else ThreeBytes(c) + Utf8(s[1..])
  }

  /** Every character takes a single byte in UTF-8. */
  predicate SingleByte(s: seq<Unit>) { forall i :: 0 <= i < |s| ==> s[i] < 0x80 }

  lemma {:induction false} Utf8Length(s: seq<Unit>)
    ensures |Utf8(s)| >= |s|
    ensures |Utf8(s)| == |s| <==> SingleByte(s)
    decreases |s|
  {
    if s != [] {
      var c := s[0] as nat;
      if c >= 0x800 && HighSurrogate(s[0]) && |s| >= 2 && LowSurrogate(s[1]) {
        Utf8Length(s[2..]);
      } else {
        Utf8Length(s[1..]);
        assert SingleByte(s) <==> c < 0x80 && SingleByte(s[1..]) by { assert s == [s[0]] + s[1..]; }
      }
    }
  }

  function AsUnits(bytes: seq<Byte>): seq<Unit> {
    seq(|bytes|, i requires 0 <= i < |bytes| => bytes[i] as Unit)
  }

  lemma {:induction false} Utf8OfSingleByte(s: seq<Unit>)
    requires SingleByte(s)
    ensures |Utf8(s)| == |s| && AsUnits(Utf8(s)) == s
  {
    if s != [] {
      Utf8OfSingleByte(s[1..]);
      assert AsUnits(Utf8(s))[1..] == AsUnits(Utf8(s[1..]));
    }
  }

  // ----- Base64 ------------------------------------------------------------------------------

  function Digit64(n: nat): char
    requires n < 64
  {
    if n < 26 then ('A' as int + n) as char
    else if n < 52 then ('a' as int + n - 26) as char
    else if n < 62 then ('0' as int + n - 52) as char
    else if n == 62 then '+'
    else '/'
  }

  function Value64(c: char): (n: nat)
    ensures n < 64
  {
    if 'A' <= c <= 'Z' then c as int - 'A' as int
    else if 'a' <= c <= 'z' then c as int - 'a' as int + 26
    else if '0' <= c <= '9' then c as int - '0' as int + 52
    else if c == '+' then 62
    else if c == '/' then 63
    else 0
  }

  /** One to three bytes as four characters, padded with '='. */
  function Group(bytes: seq<Byte>): (r: string)
    requires 1 <= |bytes| <= 3
    ensures |r| == 4
  {
    var a := bytes[0] as nat;
    var b := if |bytes| > 1 then bytes[1] as nat else 0;
    var c := if |bytes| > 2 then bytes[2] as nat else 0;
    [Digit64(a / 4), Digit64(a % 4 * 16 + b / 16),
     if |bytes| > 1 then Digit64(b % 16 * 4 + c / 64) else '=',
     if |bytes| > 2 then Digit64(c % 64) else '=']
  }

  function Ungroup(s: string): seq<Byte>
    requires |s| == 4
  {
    var p, q, r, t := Value64(s[0]), Value64(s[1]), Value64(s[2]), Value64(s[3]);
    [(p * 4 + q / 16) as Byte]
    + (if s[2] == '=' then [] else [(q % 16 * 16 + r / 4) as Byte])
    + (if s[3] == '=' then [] else [(r % 4 * 64 + t) as Byte])
  }

  /** The base 64 encoding of section 4 of RFC 4648. */
  function ToBase64(bytes: seq<Byte>): string
    decreases |bytes|
  {
    if bytes == [] then ""
    else if |bytes| <= 3 then Group(bytes)
    else Group(bytes[..3]) + ToBase64(bytes[3..])
  }

  /** The digits are the upper-case letters, the lower-case letters, the ten digits, '+' and '/', in this order. */
  lemma Digit64IsLiteral(n: nat)
    requires n < 64
    ensures Digit64(n) == if n < 26 then "ABCDEFGHIJKLMNOPQRSTUVWXYZ"[n]
                          else if n < 52 then "abcdefghijklmnopqrstuvwxyz"[n - 26]
                          else "0123456789+/"[n - 52]
  {}

  /** Three bytes are one number, written to the base 64; a missing byte counts 0, and has '=' for its own digit. */
  lemma GroupIsLiteral(bytes: seq<Byte>) returns (p: nat, q: nat, r: nat, t: nat)
    requires 1 <= |bytes| <= 3
    ensures p < 64 && q < 64 && r < 64 && t < 64
    ensures 262144 * p + 4096 * q + 64 * r + t
            == 65536 * bytes[0] as nat + (if |bytes| > 1 then 256 * bytes[1] as nat else 0)
               + if |bytes| > 2 then bytes[2] as nat else 0
    ensures Group(bytes) == [Digit64(p), Digit64(q), if |bytes| > 1 then Digit64(r) else '=',
                             if |bytes| > 2 then Digit64(t) else '=']
  {
    var a := bytes[0] as nat;
    var b := if |bytes| > 1 then bytes[1] as nat else 0;
    var c := if |bytes| > 2 then bytes[2] as nat else 0;
    p, q, r, t := a / 4, a % 4 * 16 + b / 16, b % 16 * 4 + c / 64, c % 64;
    InBase64(a, b, c);
  }

  lemma InBase64(a: nat, b: nat, c: nat)
    requires a < 256 && b < 256 && c < 256
    ensures 262144 * (a / 4) + 4096 * (a % 4 * 16 + b / 16) + 64 * (b % 16 * 4 + c / 64) + c % 64
            == 65536 * a + 256 * b + c
  {
    assert a == 4 * (a / 4) + a % 4 && b == 16 * (b / 16) + b % 16 && c == 64 * (c / 64) + c % 64;
  }

  lemma {:induction false} Base64Length(bytes: seq<Byte>, groups: nat)
    requires 3 * groups - 3 < |bytes| <= 3 * groups
    ensures |ToBase64(bytes)| == 4 * groups
    decreases |bytes|
  {
    if |bytes| > 3 { Base64Length(bytes[3..], groups - 1); }
  }

  lemma {:induction false} DropGroups(bytes: seq<Byte>, k: nat)
    requires 3 * k <= |bytes|
    ensures 4 * k <= |ToBase64(bytes)| && ToBase64(bytes)[4 * k..] == ToBase64(bytes[3 * k..])
    decreases |bytes|
  {
    if k == 0 {
      assert bytes[0..] == bytes;
    } else if |bytes| == 3 {
      assert ToBase64(bytes) == Group(bytes) && bytes[3..] == [];
    } else {
      DropGroups(bytes[3..], k - 1);
      LaterTail(Group(bytes[..3]), ToBase64(bytes[3..]), 4 * (k - 1));
      assert bytes[3..][3 * (k - 1)..] == bytes[3 * k..];
    }
  }

  lemma LaterTail(head: string, tail: string, i: nat)
    requires |head| == 4 && i <= |tail|
    ensures (head + tail)[4 + i..] == tail[i..]
  {}

  lemma FirstGroup(bytes: seq<Byte>)
    requires bytes != []
    ensures |ToBase64(bytes)| >= 4
    ensures ToBase64(bytes)[..4] == Group(if |bytes| < 3 then bytes else bytes[..3])
  {
    if |bytes| == 3 { assert bytes[..3] == bytes; }
  }

  /** The text is the groups of three bytes, one after another, and only the last may be shorter. */
  lemma ToBase64IsLiteral(bytes: seq<Byte>, k: nat)
    requires 3 * k < |bytes|
    ensures 4 * k + 4 <= |ToBase64(bytes)| && ToBase64(bytes)[4 * k..4 * k + 4] == Group(Triple(bytes, k))
  {
    DropGroups(bytes, k);
    FirstGroup(bytes[3 * k..]);
    assert Triple(bytes, k) == if |bytes[3 * k..]| < 3 then bytes[3 * k..] else bytes[3 * k..][..3];
    assert ToBase64(bytes)[4 * k..4 * k + 4] == ToBase64(bytes)[4 * k..][..4];
  }

  /** The `k`-th three bytes, or what is left of them. */
  function Triple(bytes: seq<Byte>, k: nat): (r: seq<Byte>)
    requires 3 * k < |bytes|
    ensures 1 <= |r| <= 3
  {
    bytes[3 * k..if 3 * k + 3 <= |bytes| then 3 * k + 3 else |bytes|]
  }

  function FromBase64(s: string): seq<Byte>
    decreases |s|
  {
    if |s| < 4 then [] else Ungroup(s[..4]) + FromBase64(s[4..])
  }

  lemma Digit64Values(n: nat)
    requires n < 64
    ensures Value64(Digit64(n)) == n && Digit64(n) != '=' && Digit64(n) != '$'
  {}

  lemma UngroupGroup(bytes: seq<Byte>)
    requires 1 <= |bytes| <= 3
    ensures Ungroup(Group(bytes)) == bytes && '$' !in Group(bytes)
  {
    var a := bytes[0] as nat;
    var b := if |bytes| > 1 then bytes[1] as nat else 0;
    var c := if |bytes| > 2 then bytes[2] as nat else 0;
    var s := Group(bytes);
    Digit64Values(a / 4);
    Digit64Values(a % 4 * 16 + b / 16);
    Digit64Values(b % 16 * 4 + c / 64);
    Digit64Values(c % 64);
    GroupRoundTrip(a, b, c);
    UngroupIs(s, bytes);
  }

  /** Reading a group back, byte by byte. */
  lemma UngroupIs(s: string, bytes: seq<Byte>)
    requires |s| == 4 && 1 <= |bytes| <= 3
    requires (Value64(s[0]) * 4 + Value64(s[1]) / 16) == bytes[0] as int
    requires s[2] == '=' <==> |bytes| < 2
    requires s[3] == '=' <==> |bytes| < 3
    requires |bytes| > 1 ==> Value64(s[1]) % 16 * 16 + Value64(s[2]) / 4 == bytes[1] as int
    requires |bytes| > 2 ==> Value64(s[2]) % 4 * 64 + Value64(s[3]) == bytes[2] as int
    ensures Ungroup(s) == bytes
  {}

  lemma {:induction false} Base64RoundTrip(bytes: seq<Byte>)
    ensures FromBase64(ToBase64(bytes)) == bytes
    ensures '$' !in ToBase64(bytes)
    decreases |bytes|
  {
    if 1 <= |bytes| <= 3 {
      UngroupGroup(bytes);
      assert Group(bytes)[..4] == Group(bytes);
      assert FromBase64(Group(bytes)[4..]) == [];
    } else if |bytes| > 3 {
      UngroupGroup(bytes[..3]);
      Base64RoundTrip(bytes[3..]);
      var s := ToBase64(bytes);
      assert s[..4] == Group(bytes[..3]) && s[4..] == ToBase64(bytes[3..]);
      assert bytes == bytes[..3] + bytes[3..];
    }
  }

  lemma GroupRoundTrip(a: nat, b: nat, c: nat)
    requires a < 0x100 && b < 0x100 && c < 0x100
    ensures a / 4 * 4 + (a % 4 * 16 + b / 16) / 16 == a
    ensures (a % 4 * 16 + b / 16) % 16 * 16 + (b % 16 * 4 + c / 64) / 4 == b
    ensures (b % 16 * 4 + c / 64) % 4 * 64 + c % 64 == c
  {}

  // ----- Framing -----------------------------------------------------------------------------

  const HYBRID_MODE := "SHlicmlkTW9kZQ=="

  /** A frame splits back into its three parts. */
  lemma FrameSplits(prefix: string, a: string, b: string)
    requires '$' !in prefix && '$' !in a && '$' !in b
    ensures Split(prefix + "$" + a + "$" + b, '$') == [prefix, a, b]
  {
    SplitFirst(prefix, a + "$" + b, '$');
    SplitFirst(a, b, '$');
    SplitFirst(b, "", '$');
    assert prefix + "$" + a + "$" + b == prefix + "$" + (a + "$" + b);
  }

  // ----- The ciphers, as parameters ----------------------------------------------------------

  /** The two ciphers under one pair of keys each, the hash that stretches a secret, and the text decoder. */
  datatype Suite = Suite(
    kyberCiphertext: seq<Byte>,
    kyberSecret: seq<Byte>,
    decapsulate: seq<Byte> -> seq<Byte>,
    encrypt: seq<Unit> -> seq<Byte>,
    decrypt: seq<Byte> -> Result<seq<Unit>>,
    extendSecret: (seq<Byte>, nat) -> Result<string>,
    utf8ToString: seq<Byte> -> seq<Unit>)

  /** What is assumed: the keys match, the hash gives the bits asked for, and single bytes decode as themselves. */
  ghost predicate Matching(k: Suite) {
    && k.decapsulate(k.kyberCiphertext) == k.kyberSecret
    && (forall m :: k.decrypt(k.encrypt(m)) == Ok(m))
    && (forall secret, bits: nat :: bits > 0 && bits % 8 == 0 ==>
          k.extendSecret(secret, bits).Ok? && 4 * |k.extendSecret(secret, bits).value| == bits)
    && (forall bytes :: SingleByte(AsUnits(bytes)) ==> k.utf8ToString(bytes) == AsUnits(bytes))
  }

  function Chars(s: string): seq<Unit>
    requires forall i :: 0 <= i < |s| ==> s[i] as int < 0x1_0000
  {
    seq(|s|, i requires 0 <= i < |s| => s[i] as Unit)
  }

  /** The text of units that are hex digits; anything else is not masked text. */
  function TextOf(units: seq<Unit>): string {
    seq(|units|, i requires 0 <= i < |units| => if units[i] < 0x80 then (units[i] as int) as char else '?')
  }

  lemma TextOfChars(s: string)
    requires IsHex(s)
    ensures TextOf(Chars(s)) == s
  {}

  /** hybridEncryptMessageWithPublicKey. */
  method HybridEncrypt(k: Suite, message: seq<Unit>, hybrid: bool) returns (r: Result<string>)
    ensures r == Encrypted(k, message, hybrid)
    ensures FramedAs(k, message, hybrid, r)
  {
    EncryptedIsLiteral(k, message, hybrid);
    var result := "";
    var plaintext := message;
    if hybrid {
      var bits := |message| * 8;
      var secretHex := k.extendSecret(k.kyberSecret, bits);
      if secretHex.Thrown? {
        return Thrown;
      }
      var masked := XORhex(ToHex(Utf8(message)), secretHex.value);
      if masked.Thrown? {
        return Thrown;
      }
      XorIsHex(ToHex(Utf8(message)), secretHex.value);
      plaintext := Chars(masked.value);
      result := HYBRID_MODE + "$" + ToBase64(k.kyberCiphertext) + "$";
    }
    r := Ok(result + ToBase64(k.encrypt(plaintext)));
  }

  lemma XorIsHex(a: string, b: string)
    requires |a| == |b|
    ensures IsHex(XorAll(a, b))
  {
    forall i | 0 <= i < |a| ensures IsLowerHex(XorAll(a, b)[i]) {
      XorBounded(HexValue(a[i]), HexValue(b[i]), 4);
      assert Pow2(4) == 16;
      HexDigitValue(Xor(HexValue(a[i]), HexValue(b[i]), 4));
    }
  }

  function Encrypted(k: Suite, message: seq<Unit>, hybrid: bool): Result<string> {
    if !hybrid then Ok("" + ToBase64(k.encrypt(message)))
    else
      var secretHex := k.extendSecret(k.kyberSecret, |message| * 8);
      var hex := ToHex(Utf8(message));
      if secretHex.Thrown? || |hex| != |secretHex.value| then Thrown
      else
        XorIsHex(hex, secretHex.value);
        Ok(HYBRID_MODE + "$" + ToBase64(k.kyberCiphertext) + "$"
           + ToBase64(k.encrypt(Chars(XorAll(hex, secretHex.value)))))
  }

  /**
   * The message sent: without Kyber the ciphertext of the message alone; with it the fixed prefix, the Kyber
   * ciphertext and the ciphertext of the masked bytes, or nothing where the secret does not cover the bytes.
   */
  ghost predicate FramedAs(k: Suite, message: seq<Unit>, hybrid: bool, r: Result<string>) {
    if !hybrid then r == Ok(ToBase64(k.encrypt(message)))
    else
      match k.extendSecret(k.kyberSecret, 8 * |message|)
      case Thrown => r == Thrown
      case Ok(secretHex) =>
        if |secretHex| != 2 * |Utf8(message)| then r == Thrown
        else
          exists masked :: MaskedBytes(Utf8(message), secretHex, masked)
            && r == Ok("SHlicmlkTW9kZQ==" + "$" + ToBase64(k.kyberCiphertext) + "$" + ToBase64(k.encrypt(masked)))
  }

  /** Two digits a byte, the high one first, each flipped by the secret's digit in its place. */
  ghost predicate MaskedBytes(bytes: seq<Byte>, secretHex: string, masked: seq<Unit>) {
    && |masked| == |secretHex| == 2 * |bytes|
    && forall j :: 0 <= j < |masked| ==> IsDigitOf(masked[j], Flipped(Nibble(bytes, j), HexValue(secretHex[j])))
  }

  /** The `j`-th half byte, high halves first. */
  function Nibble(bytes: seq<Byte>, j: nat): nat
    requires j < 2 * |bytes|
  {
    if j % 2 == 0 then bytes[j / 2] as nat / 16 else bytes[j / 2] as nat % 16
  }

  predicate IsDigitOf(u: Unit, n: nat) { n < 16 && u as int == "0123456789abcdef"[n] as int }

  lemma EncryptedIsLiteral(k: Suite, message: seq<Unit>, hybrid: bool)
    ensures FramedAs(k, message, hybrid, Encrypted(k, message, hybrid))
  {
    assert 8 * |message| == |message| * 8 && "" + ToBase64(k.encrypt(message)) == ToBase64(k.encrypt(message));
    var bytes, secret := Utf8(message), k.extendSecret(k.kyberSecret, 8 * |message|);
    if hybrid && secret.Ok? && |secret.value| == 2 * |bytes| {
      var hex := ToHex(bytes);
      XorIsHex(hex, secret.value);
      MaskIsLiteral(bytes, secret.value);
      var masked := Chars(XorAll(hex, secret.value));
      assert MaskedBytes(bytes, secret.value, masked);
      assert Encrypted(k, message, hybrid)
             == Ok("SHlicmlkTW9kZQ==" + "$" + ToBase64(k.kyberCiphertext) + "$" + ToBase64(k.encrypt(masked)));
    }
  }

  lemma MaskIsLiteral(bytes: seq<Byte>, secretHex: string)
    requires |secretHex| == 2 * |bytes| && IsHex(XorAll(ToHex(bytes), secretHex))
    ensures MaskedBytes(bytes, secretHex, Chars(XorAll(ToHex(bytes), secretHex)))
  {
    var masked := Chars(XorAll(ToHex(bytes), secretHex));
    forall j | 0 <= j < |masked| ensures IsDigitOf(masked[j], Flipped(Nibble(bytes, j), HexValue(secretHex[j]))) {
      NibbleIsWritten(bytes, j);
      DigitIsMasked(ToHex(bytes), secretHex, j, Nibble(bytes, j));
    }
  }

  lemma NibbleIsWritten(bytes: seq<Byte>, j: nat)
    requires j < 2 * |bytes|
    ensures Nibble(bytes, j) < 16 && ToHex(bytes)[j] == HEX[Nibble(bytes, j)]
  {
    ToHexIsLiteral(bytes, j / 2);
    assert j == 2 * (j / 2) + j % 2;
  }

  lemma DigitIsMasked(hex: string, secretHex: string, i: nat, n: nat)
    requires |hex| == |secretHex| && i < |hex| && n < 16 && hex[i] == HEX[n] && IsHex(XorAll(hex, secretHex))
    ensures IsDigitOf(Chars(XorAll(hex, secretHex))[i], Flipped(n, HexValue(secretHex[i])))
  {
    HexValueIsLiteral('0', n);
    XorAllIsLiteral(hex, secretHex, i);
  }

  /** Text that is the prefix up to its first '$' is a hybrid message; all other text is one ciphertext. */
  lemma ModeIsLiteral(k: Suite, head: string, a: string, b: string, kyberKey: bool)
    requires '$' !in head && '$' !in a && '$' !in b
    ensures Decrypted(k, head, kyberKey)
            == if head == "SHlicmlkTW9kZQ==" then Thrown else k.decrypt(FromBase64(head))
    ensures var s := head + "$" + a;
            Decrypted(k, s, kyberKey) == if head == "SHlicmlkTW9kZQ==" then Thrown else k.decrypt(FromBase64(s))
    ensures var s := head + "$" + a + "$" + b;
            Decrypted(k, s, kyberKey)
            == if head != "SHlicmlkTW9kZQ==" then k.decrypt(FromBase64(s))
               else if !kyberKey then Thrown
               else Unmasked(k, k.decapsulate(FromBase64(a)), k.decrypt(FromBase64(b)))
  {
    ShortSplits(head, a);
    FrameSplits(head, a, b);
    assert Split(head, '$') == [head] && Split(head + "$" + a, '$') == [head, a];
    assert Split(head + "$" + a + "$" + b, '$') == [head, a, b];
  }

  lemma ShortSplits(head: string, a: string)
    requires '$' !in head && '$' !in a
    ensures Split(head, '$') == [head] && Split(head + "$" + a, '$') == [head, a]
  {
    SplitFirst(head, a, '$');
    SplitFirst(a, "", '$');
  }

  /**
   * hybridDecryptMessageWithPrivateKey; `kyberKey` says whether the Kyber key was given. Masked
   * text of odd length asks the hash for a fraction of a byte, which it refuses.
   */
  method HybridDecrypt(k: Suite, encrypted: string, kyberKey: bool) returns (r: Result<seq<Unit>>)
    ensures r == Decrypted(k, encrypted, kyberKey)
  {
    var eccCiphertextStr := encrypted;
    var kyberSecret: seq<Byte> := [];
    var ciphertexts := Split(encrypted, '$');
    var isHybridMode := ciphertexts[0] == HYBRID_MODE;
    if isHybridMode {
      if !kyberKey || |ciphertexts| < 3 {
        return Thrown;
      }
      eccCiphertextStr := ciphertexts[2];
      kyberSecret := k.decapsulate(FromBase64(ciphertexts[1]));
    }
    var decrypted := k.decrypt(FromBase64(eccCiphertextStr));
    if decrypted.Thrown? || !isHybridMode {
      return decrypted;
    }
    var masked := TextOf(decrypted.value);
    var secretHex := k.extendSecret(kyberSecret, |masked| * 4);
    if secretHex.Thrown? {
      return Thrown;
    }
    var xored := XORhex(masked, secretHex.value);
    if xored.Thrown? || |xored.value| % 2 != 0 {
      return Thrown;
    }
    r := Ok(k.utf8ToString(FromHex(xored.value)));
  }

  function Decrypted(k: Suite, encrypted: string, kyberKey: bool): Result<seq<Unit>> {
    var parts := Split(encrypted, '$');
    if parts[0] != HYBRID_MODE then k.decrypt(FromBase64(encrypted))
    else if !kyberKey || |parts| < 3 then Thrown
    else Unmasked(k, k.decapsulate(FromBase64(parts[1])), k.decrypt(FromBase64(parts[2])))
  }

  function Unmasked(k: Suite, secret: seq<Byte>, decrypted: Result<seq<Unit>>): Result<seq<Unit>> {
    if decrypted.Thrown? then Thrown
    else
      var masked := TextOf(decrypted.value);
      var secretHex := k.extendSecret(secret, |masked| * 4);
      if secretHex.Thrown? || |masked| != |secretHex.value| || |masked| % 2 != 0 then Thrown
      else Ok(k.utf8ToString(FromHex(XorAll(masked, secretHex.value))))
  }

  /** Hybrid encryption accepts a non-empty message exactly when each of its characters is a single byte. */
  lemma EncryptsIffSingleByte(k: Suite, message: seq<Unit>)
    requires Matching(k) && message != []
    ensures Encrypted(k, message, true).Ok? <==> SingleByte(message)
  {
    Utf8Length(message);
    SecretFor(k, |message|);
  }

  lemma SecretFor(k: Suite, n: nat)
    requires Matching(k) && n > 0
    ensures k.extendSecret(k.kyberSecret, n * 8).Ok? && |k.extendSecret(k.kyberSecret, n * 8).value| == 2 * n
  {
    assert n * 8 % 8 == 0;
  }

  /** Unmasking with the same secret gives a single-byte message back. */
  lemma MaskRoundTrip(k: Suite, message: seq<Unit>)
    requires Matching(k) && message != [] && SingleByte(message)
    ensures var secretHex := k.extendSecret(k.kyberSecret, |message| * 8);
            var hex := ToHex(Utf8(message));
            && secretHex.Ok? && |hex| == |secretHex.value| && IsHex(XorAll(hex, secretHex.value))
            && Unmasked(k, k.kyberSecret, Ok(Chars(XorAll(hex, secretHex.value)))) == Ok(message)
  {
    Utf8OfSingleByte(message);
    SecretFor(k, |message|);
    var bytes := Utf8(message);
    assert k.utf8ToString(bytes) == AsUnits(bytes);
    MaskUndone(k, bytes, k.extendSecret(k.kyberSecret, |message| * 8).value);
  }

  lemma MaskUndone(k: Suite, bytes: seq<Byte>, secretHex: string)
    requires |secretHex| == 2 * |bytes| && k.extendSecret(k.kyberSecret, |bytes| * 8) == Ok(secretHex)
    ensures IsHex(XorAll(ToHex(bytes), secretHex))
    ensures Unmasked(k, k.kyberSecret, Ok(Chars(XorAll(ToHex(bytes), secretHex)))) == Ok(k.utf8ToString(bytes))
  {
    HexRoundTrip(bytes);
    var hex := ToHex(bytes);
    MaskedUndone(k, hex, bytes, |bytes| * 8, secretHex);
  }

  lemma MaskedUndone(k: Suite, hex: string, bytes: seq<Byte>, bits: nat, secretHex: string)
    requires |secretHex| == |hex| && bits == |hex| * 4 && k.extendSecret(k.kyberSecret, bits) == Ok(secretHex)
    requires IsHex(hex) && |hex| % 2 == 0 && FromHex(hex) == bytes
    ensures IsHex(XorAll(hex, secretHex))
    ensures Unmasked(k, k.kyberSecret, Ok(Chars(XorAll(hex, secretHex)))) == Ok(k.utf8ToString(bytes))
  {
    XorAllUndoes(hex, secretHex);
    UnmasksTo(k, XorAll(hex, secretHex), secretHex, hex, bytes);
  }

  lemma UnmasksTo(k: Suite, masked: string, secretHex: string, hex: string, bytes: seq<Byte>)
    requires IsHex(masked) && |masked| == |secretHex| && |masked| % 2 == 0 && XorAll(masked, secretHex) == hex
    requires k.extendSecret(k.kyberSecret, |masked| * 4) == Ok(secretHex) && |hex| % 2 == 0 && FromHex(hex) == bytes
    ensures Unmasked(k, k.kyberSecret, Ok(Chars(masked))) == Ok(k.utf8ToString(bytes))
  {
    TextOfChars(masked);
  }

  /** Decrypting a hybrid message with the matching keys returns it: it is the original or nothing was sent. */
  lemma HybridRoundTrip(k: Suite, message: seq<Unit>)
    requires Matching(k) && message != [] && Encrypted(k, message, true).Ok?
    ensures Decrypted(k, Encrypted(k, message, true).value, true) == Ok(message)
    ensures Decrypted(k, Encrypted(k, message, true).value, false) == Thrown
  {
    EncryptsIffSingleByte(k, message);
    MaskRoundTrip(k, message);
    var hex := ToHex(Utf8(message));
    var masked := XorAll(hex, k.extendSecret(k.kyberSecret, |message| * 8).value);
    Base64RoundTrip(k.kyberCiphertext);
    Base64RoundTrip(k.encrypt(Chars(masked)));
    assert '$' !in HYBRID_MODE;
    FrameSplits(HYBRID_MODE, ToBase64(k.kyberCiphertext), ToBase64(k.encrypt(Chars(masked))));
  }

  /** Without a Kyber key a message comes back exactly when its ciphertext does not spell the hybrid prefix. */
  lemma PlainRoundTripIff(k: Suite, message: seq<Unit>, kyberKey: bool)
    requires Matching(k)
    ensures Encrypted(k, message, false).Ok?
    ensures Decrypted(k, Encrypted(k, message, false).value, kyberKey) == Ok(message)
            <==> ToBase64(k.encrypt(message)) != HYBRID_MODE
  {
    var s := ToBase64(k.encrypt(message));
    Base64RoundTrip(k.encrypt(message));
    SplitFirst(s, "", '$');
    assert "" + s == s;
  }
}
