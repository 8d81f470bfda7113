/**
 encoding/base64 StdEncoding: section 4 of RFC 4648, the decoder skipping CR and LF anywhere and
 not checking the unused bits of the last sextet.
 */
module Base64 {
  import opened Bytes
  import opened Wrappers

  const PAD: byte := 61  // '='

  function Digit(v: nat): byte
    requires v < 64
  {
    if v < 26 then 65 + v else if v < 52 then 97 + v - 26 else if v < 62 then 48 + v - 52 else if v
        == 62 then 43 else 47
  }

  function Value(c: byte): Option<nat> {
    if 65 <= c <= 90 then Some(c - 65)
    else if 97 <= c <= 122 then Some(c - 97 + 26)
    else if 48 <= c <= 57 then Some(c - 48 + 52)
    else if c == 43 then Some(62)
    else if c == 47 then Some(63)
    else None
  }

  predicate IsText(c: byte) {
    Value(c).Some? || c == PAD
  }

  lemma {:induction false} DigitValue(v: nat)
    requires v < 64
    ensures Value(Digit(v)) == Some(v) && IsText(Digit(v)) && Digit(v) != PAD
  {
  }

  function EncodeOne(a: byte): bytes {
    [Digit(a / 4), Digit(a % 4 * 16), PAD, PAD]
  }

  function EncodeTwo(a: byte, b: byte): bytes {
    [Digit(a / 4), Digit(a % 4 * 16 + b / 16), Digit(b % 16 * 4), PAD]
  }

  function EncodeThree(a: byte, b: byte, c: byte): bytes {
    [Digit(a / 4), Digit(a % 4 * 16 + b / 16), Digit(b % 16 * 4 + c / 64), Digit(c % 64)]
  }

  function Encode(d: bytes): (r: bytes)
    ensures forall c | c in r :: IsText(c)
    ensures d != [] ==> r != []
    decreases |d|
  {
    match |d|
    case 0 => []
    case 1 => EncodeOne(d[0])
    case 2 => EncodeTwo(d[0], d[1])
    case _ => EncodeThree(d[0], d[1], d[2]) + Encode(d[3..])
  }

  /** Decodes text without line breaks; padding may only end it. */
  function DecodeQuads(t: bytes): Option<bytes>
    decreases |t|
  {
    if t == [] then Some([])
    else if |t| < 4 then None
    else
      var (v0, v1, v2, v3) := (Value(t[0]), Value(t[1]), Value(t[2]), Value(t[3]));
      if v0.None? || v1.None? then None
      else
        var a := v0.value * 4 + v1.value / 16;
        if t[2] == PAD then (if t[3] == PAD && |t| == 4 then Some([a]) else None)
        else if v2.None? then None
        else
          var b := v1.value % 16 * 16 + v2.value / 4;
          if t[3] == PAD then (if |t| == 4 then Some([a, b]) else None)
          else if v3.None? then None
          else
            var c := v2.value % 4 * 64 + v3.value;
            var rest := DecodeQuads(t[4..]);
            if rest.None? then None else Some([a, b, c] + rest.value)
  }

  function Decode(t: bytes): Option<bytes> {
    DecodeQuads(Without(t, {CR, LF}))
  }

  /** Cutting three bytes into sextets and back. */
  lemma {:induction false} Sextets(a: byte, b: byte, c: byte)
    ensures a / 4 < 64 && a % 4 * 16 + b / 16 < 64 && b % 16 * 4 + c / 64 < 64 && c % 64 < 64
    ensures a / 4 * 4 + (a % 4 * 16 + b / 16) / 16 == a
    ensures (a % 4 * 16 + b / 16) % 16 * 16 + (b % 16 * 4 + c / 64) / 4 == b
    ensures (b % 16 * 4 + c / 64) % 4 * 64 + c % 64 == c
  {
    assert (a % 4 * 16 + b / 16) / 16 == a % 4 && (a % 4 * 16 + b / 16) % 16 == b / 16;
    assert (b % 16 * 4 + c / 64) / 4 == b % 16 && (b % 16 * 4 + c / 64) % 4 == c / 64;
  }

  lemma {:induction false} OneBack(a: byte)
    ensures DecodeQuads(EncodeOne(a)) == Some([a])
  {
    Sextets(a, 0, 0);
    DigitValue(a / 4);
    DigitValue(a % 4 * 16);
  }

  lemma {:induction false} TwoBack(a: byte, b: byte)
    ensures DecodeQuads(EncodeTwo(a, b)) == Some([a, b])
  {
    Sextets(a, b, 0);
    DigitValue(a / 4);
    DigitValue(a % 4 * 16 + b / 16);
    DigitValue(b % 16 * 4);
  }

  lemma {:induction false} QuadReads(t: bytes, v0: nat, v1: nat, v2: nat, v3: nat, a: byte, b: byte, c: byte)
    requires |t| >= 4 && t[2] != PAD && t[3] != PAD && DecodeQuads(t[4..]).Some?
    requires Value(t[0]) == Some(v0) && Value(t[1]) == Some(v1) && Value(t[2]) == Some(v2) && Value(t[3]) == Some(v3)
    requires a == v0 * 4 + v1 / 16 && b == v1 % 16 * 16 + v2 / 4 && c == v2 % 4 * 64 + v3
    ensures DecodeQuads(t) == Some([a, b, c] + DecodeQuads(t[4..]).value)
  {
  }

  lemma {:induction false} ThreeBack(a: byte, b: byte, c: byte, rest: bytes)
    requires DecodeQuads(rest).Some?
    ensures DecodeQuads(EncodeThree(a, b, c) + rest) == Some([a, b, c] + DecodeQuads(rest).value)
  {
    Sextets(a, b, c);
    var v0, v1, v2, v3 := a / 4, a % 4 * 16 + b / 16, b % 16 * 4 + c / 64, c % 64;
    DigitValue(v0);
    DigitValue(v1);
    DigitValue(v2);
    DigitValue(v3);
    var t := EncodeThree(a, b, c) + rest;
    assert t[4..] == rest;
    QuadReads(t, v0, v1, v2, v3, a, b, c);
  }

  lemma {:induction false} QuadsBack(d: bytes)
    ensures DecodeQuads(Encode(d)) == Some(d)
    decreases |d|
  {
    match |d| {
      case 0 =>
      case 1 =>
        OneBack(d[0]);
        assert d == [d[0]];
      case 2 =>
        TwoBack(d[0], d[1]);
        assert d == [d[0], d[1]];
      case _ =>
        QuadsBack(d[3..]);
        ThreeBack(d[0], d[1], d[2], Encode(d[3..]));
        assert d == [d[0], d[1], d[2]] + d[3..];
    }
  }

  /** Decoding undoes encoding, wherever line breaks were put into the text. */
  lemma {:induction false} RoundTrip(d: bytes, text: bytes)
    requires Without(text, {CR, LF}) == Encode(d)
    ensures Decode(text) == Some(d)
  {
    QuadsBack(d);
  }

  lemma {:induction false} PlainText(d: bytes)
    ensures Without(Encode(d), {CR, LF}) == Encode(d)
  {
    WithoutNothing(Encode(d), {CR, LF});
  }

  lemma {:induction false} QuadsAreText(t: bytes)
    requires DecodeQuads(t).Some?
    ensures forall c | c in t :: IsText(c)
    decreases |t|
  {
    if t != [] && t[2] != PAD && t[3] != PAD {
      QuadsAreText(t[4..]);
    }
    assert t != [] ==> t == [t[0], t[1], t[2], t[3]] + t[4..];
  }

  /** A byte that is neither base64 text nor a line break makes decoding fail. */
  lemma {:induction false} ForeignByteFails(t: bytes, x: byte)
    requires x in t && !IsText(x) && x != CR && x != LF
    ensures Decode(t) == None
  {
    WithoutMember(t, {CR, LF}, x);
    if Decode(t).Some? {
      QuadsAreText(Without(t, {CR, LF}));
    }
  }

  lemma {:induction false} QuadsShrink(t: bytes)
    requires DecodeQuads(t).Some?
    ensures |DecodeQuads(t).value| <= |t| && (t != [] ==> |DecodeQuads(t).value| < |t|)
    decreases |t|
  {
    if t != [] && t[2] != PAD && t[3] != PAD {
      QuadsShrink(t[4..]);
    }
  }

  /** What is decoded is shorter than its text. */
  lemma {:induction false} DecodeShrinks(t: bytes)
    requires Decode(t).Some?
    ensures |Decode(t).value| <= |t| && (t != [] ==> |Decode(t).value| < |t|)
  {
    WithoutShrinks(t, {CR, LF});
    QuadsShrink(Without(t, {CR, LF}));
  }

  /** Digits alone decode when there are four times as many as some number. */
  lemma {:induction false} DigitsDecode(t: bytes)
    requires |t| % 4 == 0 && forall c | c in t :: Value(c).Some?
    ensures DecodeQuads(t).Some?
    decreases |t|
  {
    if t != [] {
      assert t[0] in t && t[1] in t && t[2] in t && t[3] in t;
      assert forall c | c in t[4..] :: c in t;
      DigitsDecode(t[4..]);
    }
  }

  // ---- The alphabet and the bits: section 4 of RFC 4648 ----

  const ALPHABET := "ABCDEFGHIJKLMNOPQRSTUVWXYZ" + "abcdefghijklmnopqrstuvwxyz" + "0123456789+/"

  /** Sextet v is written as character v of the alphabet, and only that character reads as v. */
  lemma {:induction false} DigitIs(v: nat, c: byte)
    requires v < 64
    ensures |ALPHABET| == 64 && Digit(v) == ALPHABET[v] as int
    ensures Value(c) == Some(v) <==> c == ALPHABET[v] as int
  {
    UpperIs(v);
    LowerIs(v);
    RestIs(v);
  }

  lemma {:induction false} UpperIs(v: nat)
    ensures v < 26 ==> ALPHABET[v] as int == 65 + v
  {
    assert v < 26 ==> ALPHABET[v] == "ABCDEFGHIJKLMNOPQRSTUVWXYZ"[v];
  }

  lemma {:induction false} LowerIs(v: nat)
    ensures 26 <= v < 52 ==> ALPHABET[v] as int == 97 + (v - 26)
  {
    assert 26 <= v < 52 ==> ALPHABET[v] == "abcdefghijklmnopqrstuvwxyz"[v - 26];
  }

  lemma {:induction false} RestIs(v: nat)
    ensures 52 <= v < 64 ==> ALPHABET[v] as int == if v < 62 then 48 + (v - 52) else if v == 62 then 43 else 47
  {
    assert 52 <= v < 64 ==> ALPHABET[v] == "0123456789+/"[v - 52];
  }

  /** Three bytes become the four sextets of one 24-bit number; one or two bytes are filled with zero bits and padded. */
  lemma {:induction false} GroupIs(a: byte, b: byte, c: byte, v0: nat, v1: nat, v2: nat, v3: nat)
    requires v0 < 64 && v1 < 64 && v2 < 64 && v3 < 64
    requires v0 * 262144 + v1 * 4096 + v2 * 64 + v3 == a * 65536 + b * 256 + c
    ensures EncodeThree(a, b, c) == [Digit(v0), Digit(v1), Digit(v2), Digit(v3)]
    ensures c == 0 ==> EncodeTwo(a, b) == [Digit(v0), Digit(v1), Digit(v2), 61]
    ensures b == 0 && c == 0 ==> EncodeOne(a) == [Digit(v0), Digit(v1), 61, 61]
  {
    LastSextet(v0 * 4096 + v1 * 64 + v2, v3, a * 1024 + b * 4 + c / 64, c % 64);
    LastSextet(v0 * 64 + v1, v2, a * 16 + b / 16, b % 16 * 4 + c / 64);
    LastSextet(v0, v1, a / 4, a % 4 * 16 + b / 16);
  }

  /** The last six bits of a number are its own. */
  lemma {:induction false} LastSextet(q: int, v: nat, q': int, v': nat)
    requires v < 64 && v' < 64 && q * 64 + v == q' * 64 + v'
    ensures q == q' && v == v'
  {
  }
}
