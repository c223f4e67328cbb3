/** Base16 as the configuration file carries it: section 8 of RFC 4648, in either case. */
module HexCodec {
  import opened Bytes
  import opened Outcomes

  predicate IsHexDigit(c: char) {
    '0' <= c <= '9' || 'a' <= c <= 'f' || 'A' <= c <= 'F'
  }

  function DigitValue(c: char): (v: nat)
    requires IsHexDigit(c)
    ensures v < 16
  {
    if c <= '9' then c as int - '0' as int
    else if c <= 'F' then c as int - 'A' as int + 10
    else c as int - 'a' as int + 10
  }

  /** The lower-case digit of a nibble, as `sendNextBlob` writes it. */
  function HexDigit(v: nat): (c: char)
    requires v < 16
    ensures IsHexDigit(c) && DigitValue(c) == v && !('A' <= c <= 'F')
  {
    if v < 10 then ('0' as int + v) as char else ('a' as int + v - 10) as char
  }

  function ByteOf(hi: char, lo: char): Byte
    requires IsHexDigit(hi) && IsHexDigit(lo)
  {
    DigitValue(hi) * 16 + DigitValue(lo)
  }

  function DigitsOf(b: Byte): (s: string)
    ensures |s| == 2 && IsHexDigit(s[0]) && IsHexDigit(s[1]) && ByteOf(s[0], s[1]) == b
  {
    [HexDigit(b / 16), HexDigit(b % 16)]
  }

  ghost predicate AllHex(s: string) {
    forall i | 0 <= i < |s| :: IsHexDigit(s[i])
  }

  /** A text denotes bytes exactly when it is an even number of hexadecimal digits. */
  ghost predicate IsBase16(s: string) {
    |s| % 2 == 0 && AllHex(s)
  }

  ghost function Decode(s: string): (bytes: seq<Byte>)
    requires IsBase16(s)
    ensures |bytes| == |s| / 2
  {
    if s == "" then [] else Decode(s[..|s| - 2]) + [ByteOf(s[|s| - 2], s[|s| - 1])]
  }

  function Encode(bytes: seq<Byte>): (s: string)
    ensures |s| == 2 * |bytes|
  {
    if bytes == [] then ""
    else Encode(bytes[..|bytes| - 1]) + DigitsOf(bytes[|bytes| - 1])
  }

  /** The same digits in lower case. */
  ghost function Lower(s: string): string
    requires AllHex(s)
  {
    if s == "" then "" else Lower(s[..|s| - 1]) + [HexDigit(DigitValue(s[|s| - 1]))]
  }

  datatype HexError = OddLength | NotHex(byteOffset: nat)

  /** Decodes two digits a step; the first pair that is not hexadecimal is reported. */
  method HexStringToBytes(hexStr: string) returns (r: Result<seq<Byte>, HexError>)
    ensures r.Ok? <==> IsBase16(hexStr)
    ensures r.Ok? ==> r.value == Decode(hexStr)
    ensures r == Err(OddLength) <==> |hexStr| % 2 != 0
    ensures r.Err? && r.error.NotHex? ==>
              var k := r.error.byteOffset;
              && 2 * k + 1 < |hexStr| && AllHex(hexStr[..2 * k])
              && !(IsHexDigit(hexStr[2 * k]) && IsHexDigit(hexStr[2 * k + 1]))
  {
    if |hexStr| % 2 != 0 {
      return Err(OddLength);
    }
    var bytes: seq<Byte> := [];
    var i := 0;
    while i < |hexStr|
      invariant 0 <= i <= |hexStr| && i % 2 == 0
      invariant AllHex(hexStr[..i])
      invariant bytes == Decode(hexStr[..i])
    {
      var hi, lo := hexStr[i], hexStr[i + 1];
      if !IsHexDigit(hi) || !IsHexDigit(lo) {
        return Err(NotHex(i / 2));
      }
      assert hexStr[..i + 2][..i] == hexStr[..i];
      bytes := bytes + [ByteOf(hi, lo)];
      i := i + 2;
    }
    assert hexStr[..i] == hexStr;
    return Ok(bytes);
  }

  /** The dump pushes the high nibble, then the low one. */
  method HexDump(data: seq<Byte>) returns (dump: string)
    ensures dump == Encode(data)
  {
    dump := "";
    for i := 0 to |data|
      invariant dump == Encode(data[..i])
    {
      assert data[..i + 1][..i] == data[..i];
      dump := dump + [HexDigit(data[i] / 16)];
      dump := dump + [HexDigit(data[i] % 16)];
    }
    assert data[..|data|] == data;
  }

  /** Decoding undoes the dump. */
  lemma {:induction false} DecodeEncode(bytes: seq<Byte>)
    ensures IsBase16(Encode(bytes)) && Decode(Encode(bytes)) == bytes
  {
    if bytes != [] {
      var init, last := bytes[..|bytes| - 1], bytes[|bytes| - 1];
      DecodeEncode(init);
      DecodeSnoc(Encode(init), DigitsOf(last));
      assert bytes == init + [last];
    }
  }

  lemma DecodeSnoc(s: string, pair: string)
    requires IsBase16(s) && |pair| == 2 && AllHex(pair)
    ensures IsBase16(s + pair) && Decode(s + pair) == Decode(s) + [ByteOf(pair[0], pair[1])]
  {
    assert (s + pair)[..|s + pair| - 2] == s;
  }

  /** Dumping what was decoded forgets only the case of the digits. */
  lemma {:induction false} EncodeDecode(s: string)
    requires IsBase16(s)
    ensures Encode(Decode(s)) == Lower(s)
  {
    if s != "" {
      var init, hi, lo := s[..|s| - 2], s[|s| - 2], s[|s| - 1];
      assert s == init + [hi, lo];
      EncodeDecode(init);
      EncodeDecodePair(init, hi, lo);
    }
  }

  lemma EncodeDecodePair(init: string, hi: char, lo: char)
    requires IsBase16(init) && IsHexDigit(hi) && IsHexDigit(lo)
    requires Encode(Decode(init)) == Lower(init)
    ensures IsBase16(init + [hi, lo]) && Encode(Decode(init + [hi, lo])) == Lower(init + [hi, lo])
  {
    DecodeSnoc(init, [hi, lo]);
    EncodeSnoc(Decode(init), ByteOf(hi, lo));
    DigitsOfByteOf(hi, lo);
    LowerPair(init, hi, lo);
  }

  lemma EncodeSnoc(bytes: seq<Byte>, b: Byte)
    ensures Encode(bytes + [b]) == Encode(bytes) + DigitsOf(b)
  {
    assert (bytes + [b])[..|bytes|] == bytes;
  }

  lemma DigitsOfByteOf(hi: char, lo: char)
    requires IsHexDigit(hi) && IsHexDigit(lo)
    ensures DigitsOf(ByteOf(hi, lo)) == [HexDigit(DigitValue(hi)), HexDigit(DigitValue(lo))]
  {
    hide DigitValue, IsHexDigit, HexDigit;
    var h, l := DigitValue(hi), DigitValue(lo);
    assert (h * 16 + l) / 16 == h && (h * 16 + l) % 16 == l;
  }

  lemma LowerPair(s: string, hi: char, lo: char)
    requires AllHex(s) && IsHexDigit(hi) && IsHexDigit(lo)
    ensures AllHex(s + [hi, lo])
    ensures Lower(s + [hi, lo]) == Lower(s) + [HexDigit(DigitValue(hi)), HexDigit(DigitValue(lo))]
  {
    assert (s + [hi, lo])[..|s| + 1] == s + [hi];
    assert (s + [hi])[..|s|] == s;
  }

  /** Two texts denote the same bytes exactly when they differ at most in case. */
  lemma SameBytesUpToCase(s: string, t: string)
    requires IsBase16(s) && IsBase16(t)
    ensures Decode(s) == Decode(t) <==> Lower(s) == Lower(t)
  {
    EncodeDecode(s);
    EncodeDecode(t);
    if Lower(s) == Lower(t) {
      DecodeEncode(Decode(s));
      DecodeEncode(Decode(t));
    }
  }

  /** The values of the digits in both cases; the first digit of a pair is the high one. */
  lemma DigitsAre()
    ensures DigitValue('0') == 0 && DigitValue('1') == 1 && DigitValue('2') == 2 && DigitValue('3') == 3
    ensures DigitValue('4') == 4 && DigitValue('5') == 5 && DigitValue('6') == 6 && DigitValue('7') == 7
    ensures DigitValue('8') == 8 && DigitValue('9') == 9 && DigitValue('a') == 10 && DigitValue('b') == 11
    ensures DigitValue('c') == 12 && DigitValue('d') == 13 && DigitValue('e') == 14 && DigitValue('f') == 15
    ensures DigitValue('A') == 10 && DigitValue('B') == 11 && DigitValue('C') == 12 && DigitValue('D') == 13
    ensures DigitValue('E') == 14 && DigitValue('F') == 15
    ensures ByteOf('1', 'f') == 0x1f && DigitsOf(0x1f) == "1f"
  {}
}
