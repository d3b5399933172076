/**
 * The base 64 encoding of section 4 of RFC 4648 (standard alphabet, `=`
 * padding), which is what `Buffer.toString('base64')` produces, and its
 * decoding, used here as the partner that shows the encoding loses nothing.
 */
module Base64 {
  import opened Wrappers
  import opened Streams

  type sextet = x: int | 0 <= x < 64

  /** Table 1 of the RFC: the character for each 6-bit value. */
  function Digit(v: sextet): (c: char)
  {
    if v < 26 then ('A' as int + v) as char
    else if v < 52 then ('a' as int + (v - 26)) as char
    else if v < 62 then ('0' as int + (v - 52)) as char
    else if v == 62 then '+'
    else '/'
  }

  /** The inverse of Table 1; `None` for characters outside the alphabet (including `=`). */
  function DigitValue(c: char): (r: Option<sextet>)
    ensures r.Some? ==> Digit(r.value) == c
  {
    if 'A' <= c <= 'Z' then Some(c as int - 'A' as int)
    else if 'a' <= c <= 'z' then Some(c as int - 'a' as int + 26)
    else if '0' <= c <= '9' then Some(c as int - '0' as int + 52)
    else if c == '+' then Some(62)
    else if c == '/' then Some(63)
    else None
  }

  lemma DigitRoundTrip(v: sextet)
    ensures DigitValue(Digit(v)) == Some(v)
  {
  }

  predicate IsAlphabet(c: char) {
    DigitValue(c).Some?
  }

  /** Three octets become four characters: their 24 bits cut into four 6-bit groups, high bits first. */
  function Quantum(b0: byte, b1: byte, b2: byte): (s: string)
  {
    [Digit(b0 / 4), Digit(b0 % 4 * 16 + b1 / 16), Digit(b1 % 16 * 4 + b2 / 64), Digit(b2 % 64)]
  }

  /** A final quantum of one octet: two characters, the second padded with zero bits, and `==`. */
  function Final1(b0: byte): (s: string)
  {
    [Digit(b0 / 4), Digit(b0 % 4 * 16), '=', '=']
  }

  /** A final quantum of two octets: three characters, the third padded with zero bits, and `=`. */
  function Final2(b0: byte, b1: byte): (s: string)
  {
    [Digit(b0 / 4), Digit(b0 % 4 * 16 + b1 / 16), Digit(b1 % 16 * 4), '=']
  }

  function Encode(bytes: seq<byte>): (s: string)
    decreases |bytes|
  {
    if |bytes| == 0 then ""
    else if |bytes| == 1 then Final1(bytes[0])
    else if |bytes| == 2 then Final2(bytes[0], bytes[1])
    else Quantum(bytes[0], bytes[1], bytes[2]) + Encode(bytes[3..])
  }

  /** Decodes padded base 64 text; `None` for text that no octet sequence encodes to. */
  function Decode(s: string): (r: Option<seq<byte>>)
    decreases |s|
  {
    if |s| == 0 then Some([])
    else if |s| < 4 then None
    else
      match DecodeQuantum(s[..4], |s| == 4)
      case None => None
      case Some(head) =>
        match Decode(s[4..])
        case None => None
        case Some(tail) => Some(head + tail)
  }

  /** One four-character group; padding is accepted only in the last group, and only over zero bits. */
  function DecodeQuantum(q: string, last: bool): (r: Option<seq<byte>>)
    requires |q| == 4
  {
    match (DigitValue(q[0]), DigitValue(q[1]), DigitValue(q[2]), DigitValue(q[3]))
    case (Some(c0), Some(c1), Some(c2), Some(c3)) =>
      Some([c0 as int * 4 + c1 / 16, c1 as int % 16 * 16 + c2 / 4, c2 as int % 4 * 64 + c3])
    case (Some(c0), Some(c1), Some(c2), None) =>
      if last && q[3] == '=' && c2 % 4 == 0 then Some([c0 as int * 4 + c1 / 16, c1 as int % 16 * 16 + c2 / 4])
      else None
    case (Some(c0), Some(c1), None, None) =>
      if last && q[2] == '=' && q[3] == '=' && c1 % 16 == 0 then Some([c0 as int * 4 + c1 / 16])
      else None
    case _ => None
  }

  lemma QuantumRoundTrip(b0: byte, b1: byte, b2: byte, last: bool)
    ensures DecodeQuantum(Quantum(b0, b1, b2), last) == Some([b0, b1, b2])
  {
    var c0: sextet, c1: sextet, c2: sextet, c3: sextet := b0 / 4, b0 % 4 * 16 + b1 / 16, b1 % 16 * 4 + b2 / 64, b2 % 64;
    assert Quantum(b0, b1, b2) == [Digit(c0), Digit(c1), Digit(c2), Digit(c3)];
    DigitRoundTrip(c0);
    DigitRoundTrip(c1);
    DigitRoundTrip(c2);
    DigitRoundTrip(c3);
    assert c1 / 16 == b0 % 4 && c1 % 16 == b1 / 16;
    assert c2 / 4 == b1 % 16 && c2 % 4 == b2 / 64;
  }

  lemma Final1RoundTrip(b0: byte)
    ensures DecodeQuantum(Final1(b0), true) == Some([b0])
  {
    var c0: sextet, c1: sextet := b0 / 4, b0 % 4 * 16;
    assert Final1(b0) == [Digit(c0), Digit(c1), '=', '='];
    DigitRoundTrip(c0);
    DigitRoundTrip(c1);
    assert DigitValue('=') == None;
    assert c1 / 16 == b0 % 4 && c1 % 16 == 0;
  }

  lemma Final2RoundTrip(b0: byte, b1: byte)
    ensures DecodeQuantum(Final2(b0, b1), true) == Some([b0, b1])
  {
    var c0: sextet, c1: sextet, c2: sextet := b0 / 4, b0 % 4 * 16 + b1 / 16, b1 % 16 * 4;
    assert Final2(b0, b1) == [Digit(c0), Digit(c1), Digit(c2), '='];
    DigitRoundTrip(c0);
    DigitRoundTrip(c1);
    DigitRoundTrip(c2);
    assert DigitValue('=') == None;
    assert c1 / 16 == b0 % 4 && c1 % 16 == b1 / 16;
    assert c2 / 4 == b1 % 16 && c2 % 4 == 0;
  }

  /** Encoded text is four characters for every started group of three octets. */
  lemma {:induction false} EncodeLength(bytes: seq<byte>)
    ensures |Encode(bytes)| == 4 * ((|bytes| + 2) / 3)
    decreases |bytes|
  {
    if |bytes| > 2 {
      EncodeLength(bytes[3..]);
      assert (|bytes| + 2) / 3 == (|bytes[3..]| + 2) / 3 + 1;
    }
  }

  /** Every character is from the alphabet, except `=` padding at the end only. */
  lemma {:induction false} EncodeAlphabet(bytes: seq<byte>)
    ensures forall i :: 0 <= i < |Encode(bytes)| ==>
      IsAlphabet(Encode(bytes)[i]) || (Encode(bytes)[i] == '=' && i >= |Encode(bytes)| - 2)
    decreases |bytes|
  {
    if |bytes| > 2 {
      EncodeAlphabet(bytes[3..]);
      forall v: sextet ensures IsAlphabet(Digit(v)) { DigitRoundTrip(v); }
    } else if |bytes| > 0 {
      forall v: sextet ensures IsAlphabet(Digit(v)) { DigitRoundTrip(v); }
    }
  }

  /** Decoding a text that begins with a well-formed group. */
  lemma DecodeGroup(q: string, rest: string, head: seq<byte>)
    requires |q| == 4 && DecodeQuantum(q, rest == []) == Some(head)
    ensures Decode(q + rest) == match Decode(rest) case None => None case Some(tail) => Some(head + tail)
  {
    var s := q + rest;
    assert s[..4] == q && s[4..] == rest;
  }

  lemma RoundTripFinal1(bytes: seq<byte>)
    requires |bytes| == 1
    ensures Decode(Encode(bytes)) == Some(bytes)
  {
    Final1RoundTrip(bytes[0]);
    DecodeGroup(Final1(bytes[0]), [], [bytes[0]]);
    var e := Encode(bytes);
    assert e == Final1(bytes[0]);
    assert Final1(bytes[0]) + [] == e;
    assert Decode([]) == Some([]);
    assert Decode(e) == Some([bytes[0]] + []);
    assert [bytes[0]] + [] == bytes;
  }

  lemma RoundTripFinal2(bytes: seq<byte>)
    requires |bytes| == 2
    ensures Decode(Encode(bytes)) == Some(bytes)
  {
    Final2RoundTrip(bytes[0], bytes[1]);
    DecodeGroup(Final2(bytes[0], bytes[1]), [], [bytes[0], bytes[1]]);
    var e := Encode(bytes);
    assert e == Final2(bytes[0], bytes[1]);
    assert Final2(bytes[0], bytes[1]) + [] == e;
    assert Decode([]) == Some([]);
    assert Decode(e) == Some([bytes[0], bytes[1]] + []);
    assert [bytes[0], bytes[1]] + [] == bytes;
  }

  /** Decoding undoes encoding: no octet sequence is lost or confused with another. */
  lemma {:induction false} RoundTrip(bytes: seq<byte>)
    ensures Decode(Encode(bytes)) == Some(bytes)
    decreases |bytes|
  {
    if |bytes| == 1 {
      RoundTripFinal1(bytes);
    } else if |bytes| == 2 {
      RoundTripFinal2(bytes);
    } else if |bytes| > 2 {
      var rest := Encode(bytes[3..]);
      QuantumRoundTrip(bytes[0], bytes[1], bytes[2], rest == []);
      DecodeGroup(Quantum(bytes[0], bytes[1], bytes[2]), rest, [bytes[0], bytes[1], bytes[2]]);
      RoundTrip(bytes[3..]);
      assert bytes == [bytes[0], bytes[1], bytes[2]] + bytes[3..];
    }
  }

  /** Encoding is injective, a consequence of the round trip. */
  lemma Injective(a: seq<byte>, b: seq<byte>)
    requires Encode(a) == Encode(b)
    ensures a == b
  {
    RoundTrip(a);
    RoundTrip(b);
  }

  /** The example of section 10 of the RFC: "foobar" and its prefixes. */
  lemma Section10Examples()
    ensures Encode([]) == ""
    ensures Encode([102]) == "Zg=="
    ensures Encode([102, 111]) == "Zm8="
    ensures Encode([102, 111, 111]) == "Zm9v"
    ensures Encode([102, 111, 111, 98, 97, 114]) == "Zm9vYmFy"
  {
    assert [102, 111, 111, 98, 97, 114][3..] == [98, 97, 114];
  }
}
