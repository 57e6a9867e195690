/** Strings of UTF-16 code units to strings of bytes and back, through typed arrays over one buffer. */
module BinaryConverter {
  import opened FileDomain
  import opened Strings

  /** A 16-bit view of a byte buffer stores its low byte first. */
  function Low(u: Unit): Byte { (u % 0x100) as Byte }
  function High(u: Unit): Byte { (u / 0x100) as Byte }
  function Word(low: Byte, high: Byte): Unit { low as Unit + 0x100 * (high as Unit) }

  function BytesOf(s: seq<Unit>): (r: seq<Byte>)
    ensures |r| == 2 * |s|
  {
    if s == [] then [] else BytesOf(s[..|s| - 1]) + [Low(s[|s| - 1]), High(s[|s| - 1])]
  }

  /** A character written into a byte array keeps its low eight bits. */
  function Truncated(binary: seq<Unit>): (r: seq<Byte>)
    ensures |r| == |binary|
  {
    seq(|binary|, i requires 0 <= i < |binary| => Low(binary[i]))
  }

  function UnitsOf(bytes: seq<Byte>): (r: seq<Unit>)
    requires |bytes| % 2 == 0
    ensures |r| * 2 == |bytes|
  {
    if bytes == [] then []
    else UnitsOf(bytes[..|bytes| - 2]) + [Word(bytes[|bytes| - 2], bytes[|bytes| - 1])]
  }

  function Widened(bytes: seq<Byte>): (r: seq<Unit>)
    ensures |r| == |bytes| && forall i :: 0 <= i < |r| ==> r[i] == bytes[i] as Unit
  {
    seq(|bytes|, i requires 0 <= i < |bytes| => bytes[i] as Unit)
  }

  method ConvertStringToBinary(s: seq<Unit>) returns (result: seq<Unit>)
    ensures result == Widened(BytesOf(s))
    ensures |result| == 2 * |s|
    ensures forall i :: 0 <= i < |s| ==> result[2 * i] == s[i] % 256 && result[2 * i + 1] == s[i] / 256
  {
    var buffer := new Byte[2 * |s|](_ => 0);
    for i := 0 to |s|
      invariant buffer[..2 * i] == BytesOf(s[..i])
    {
      buffer[2 * i], buffer[2 * i + 1] := Low(s[i]), High(s[i]);
      assert s[..i + 1][..i] == s[..i];
      assert buffer[..2 * (i + 1)] == buffer[..2 * i] + [Low(s[i]), High(s[i])];
    }
    assert s[..|s|] == s;
    result := [];
    for i := 0 to buffer.Length
      invariant result == Widened(buffer[..i])
    {
      result := result + [buffer[i] as Unit];
    }
    assert buffer[..buffer.Length] == BytesOf(s);
    forall i | 0 <= i < |s| ensures result[2 * i] == s[i] % 256 && result[2 * i + 1] == s[i] / 256 {
      BytesAreLiteral(s, i);
    }
  }

  lemma {:induction false} BytesAreLiteral(s: seq<Unit>, i: nat)
    requires i < |s|
    ensures BytesOf(s)[2 * i] as int == s[i] as int % 256 && BytesOf(s)[2 * i + 1] as int == s[i] as int / 256
  {
    if i < |s| - 1 { BytesAreLiteral(s[..|s| - 1], i); }
  }

  lemma {:induction false} UnitsAreLiteral(bytes: seq<Byte>, k: nat)
    requires |bytes| % 2 == 0 && 2 * k < |bytes|
    ensures UnitsOf(bytes)[k] as int == bytes[2 * k] as int + 256 * bytes[2 * k + 1] as int
  {
    if 2 * k < |bytes| - 2 { UnitsAreLiteral(bytes[..|bytes| - 2], k); }
  }

  lemma UnitsOfNext(bytes: seq<Byte>, k: nat)
    requires 2 * k + 1 < |bytes|
    ensures UnitsOf(bytes[..2 * (k + 1)]) == UnitsOf(bytes[..2 * k]) + [Word(bytes[2 * k], bytes[2 * k + 1])]
  {
    assert bytes[..2 * (k + 1)][..2 * k] == bytes[..2 * k];
  }

  /** An odd number of bytes cannot be viewed as 16-bit units: the constructor throws. */
  method GetStringFromBinary(binary: seq<Unit>) returns (result: Option<seq<Unit>>)
    ensures result == if |binary| % 2 == 0 then Some(UnitsOf(Truncated(binary))) else None
    ensures result.None? <==> |binary| % 2 == 1
    ensures result.Some? ==> 2 * |result.value| == |binary|
    ensures result.Some? ==> forall k :: 0 <= k < |result.value| ==>
              result.value[k] == binary[2 * k] % 256 + 256 * (binary[2 * k + 1] % 256)
  {
    var bytes := new Byte[|binary|](_ => 0);
    ghost var all := Truncated(binary);
    for i := 0 to |binary|
      invariant forall j :: 0 <= j < i ==> bytes[j] == all[j]
    {
      bytes[i] := Low(binary[i]);
    }
    assert bytes[..] == all;
    if bytes.Length % 2 != 0 {
      return None;
    }
    var units: seq<Unit> := [];
    for k := 0 to bytes.Length / 2
      invariant bytes[..] == all && units == UnitsOf(all[..2 * k])
    {
      UnitsOfNext(all, k);
      units := units + [Word(bytes[2 * k], bytes[2 * k + 1])];
    }
    assert all[..2 * (bytes.Length / 2)] == all;
    forall k | 0 <= k < |units| ensures units[k] == binary[2 * k] % 256 + 256 * (binary[2 * k + 1] % 256) {
      UnitsAreLiteral(all, k);
    }
    result := Some(units);
  }

  lemma WordOfHalves(u: Unit)
    ensures Word(Low(u), High(u)) == u
  {}

  lemma HalvesOfWord(low: Byte, high: Byte)
    ensures Low(Word(low, high)) == low && High(Word(low, high)) == high
  {}

  lemma {:induction false} UnitsOfBytes(s: seq<Unit>)
    ensures UnitsOf(BytesOf(s)) == s
  {
    if s != [] {
      var init, last := s[..|s| - 1], s[|s| - 1];
      UnitsOfBytes(init);
      WordOfHalves(last);
      assert BytesOf(s)[..|BytesOf(s)| - 2] == BytesOf(init);
      assert s == init + [last];
    }
  }

  lemma {:induction false} BytesOfUnits(bytes: seq<Byte>)
    requires |bytes| % 2 == 0
    ensures BytesOf(UnitsOf(bytes)) == bytes
  {
    if bytes != [] {
      var init := bytes[..|bytes| - 2];
      BytesOfUnits(init);
      HalvesOfWord(bytes[|bytes| - 2], bytes[|bytes| - 1]);
      var units := UnitsOf(bytes);
      assert units[..|units| - 1] == UnitsOf(init);
      assert bytes == init + [bytes[|bytes| - 2], bytes[|bytes| - 1]];
    }
  }

  lemma TruncatedWidened(bytes: seq<Byte>)
    ensures Truncated(Widened(bytes)) == bytes
  {}

  /** Every string survives conversion to binary and back. */
  lemma StringRoundTrip(s: seq<Unit>)
    ensures |Widened(BytesOf(s))| % 2 == 0
    ensures UnitsOf(Truncated(Widened(BytesOf(s)))) == s
  {
    TruncatedWidened(BytesOf(s));
    UnitsOfBytes(s);
  }

  lemma ByteIffKept(binary: seq<Unit>, i: nat)
    requires i < |binary|
    ensures Widened(Truncated(binary))[i] == binary[i] <==> binary[i] < 0x100
  {}

  /** A binary string survives the other way round exactly when its characters are bytes. */
  lemma BinaryRoundTripIff(binary: seq<Unit>)
    requires |binary| % 2 == 0
    ensures Widened(BytesOf(UnitsOf(Truncated(binary)))) == binary
            <==> forall i :: 0 <= i < |binary| ==> binary[i] < 0x100
  {
    BytesOfUnits(Truncated(binary));
    SameIffKept(binary, Widened(Truncated(binary)));
  }

  lemma SameIffKept(binary: seq<Unit>, back: seq<Unit>)
    requires back == Widened(Truncated(binary))
    ensures back == binary <==> forall i :: 0 <= i < |binary| ==> binary[i] < 0x100
  {
    forall i: nat | i < |binary| { ByteIffKept(binary, i); }
    if forall i :: 0 <= i < |binary| ==> binary[i] < 0x100 {
      assert forall i :: 0 <= i < |binary| ==> back[i] == binary[i];
    }
  }
}
