/**
 DER headers and values: ITU-T X.690 sections 8.1.3 and 10.1 (definite lengths in the fewest octets),
 8.1.2 (identifiers) and 8.19 (object identifiers), as encoding/asn1 writes and reads them. The reader is
 proved to accept exactly what the writer produces, so encodings are canonical.
 */
module Der {
  import opened Bytes
  import opened Wrappers

  /** The largest length and the largest base-128 number a reader accepts. */
  datatype Limits = Limits(len: nat, arc: nat) {
    predicate Sane() { 127 <= len <= MAX_INT }
  }

  /** encoding/asn1 stops at 31-bit lengths and base-128 numbers. */
  const GO := Limits(0x7fff_ffff, 0x7fff_ffff)

  /** The length of a byte slice is a 64-bit int. */
  const MAX_INT: nat := 0x7fff_ffff_ffff_ffff

  // ---- Base 256: the octets of a long length ----

  function BigEndian(n: nat): (r: bytes)
    ensures |r| > 0
  {
    if n < 256 then [n] else BigEndian(n / 256) + [n % 256]
  }

  function ReadBigEndian(d: bytes, count: nat, acc: nat, cap: nat): Option<(nat, bytes)>
    decreases count
  {
    if count == 0 then Some((acc, d))
    else if d == [] then None
    else
      var acc' := acc * 256 + d[0];
      if acc' == 0 || acc' > cap then None else ReadBigEndian(d[1..], count - 1, acc', cap)
  }

  lemma {:induction false} BigEndianReads(n: nat, rest: bytes, k: nat, cap: nat)
    requires n > 0
    ensures ReadBigEndian(BigEndian(n) + rest, |BigEndian(n)| + k, 0, cap)
            == if n <= cap then ReadBigEndian(rest, k, n, cap) else None
    decreases n
  {
    if n < 256 {
      assert (BigEndian(n) + rest)[1..] == rest;
    } else {
      var low: byte := n % 256;
      assert BigEndian(n) + rest == BigEndian(n / 256) + ([low] + rest);
      BigEndianReads(n / 256, [low] + rest, k + 1, cap);
      assert ([low] + rest)[1..] == rest;
    }
  }

  lemma {:induction false} ReadIsBigEndian(d: bytes, count: nat, acc: nat, cap: nat) returns (digits: bytes)
    requires acc > 0 && ReadBigEndian(d, count, acc, cap).Some?
    ensures var (n, rest) := ReadBigEndian(d, count, acc, cap).value;
            d == digits + rest && |digits| == count && BigEndian(n) == BigEndian(acc) + digits && acc <= n
            && (count > 0 ==> n <= cap)
    decreases count
  {
    if count == 0 {
      digits := [];
    } else {
      var more := ReadIsBigEndian(d[1..], count - 1, acc * 256 + d[0], cap);
      digits := [d[0]] + more;
      assert BigEndian(acc * 256 + d[0]) == BigEndian(acc) + [d[0]];
    }
  }

  lemma {:induction false} ReadIsWhole(d: bytes, count: nat, cap: nat)
    requires count > 0 && ReadBigEndian(d, count, 0, cap).Some?
    ensures var (n, rest) := ReadBigEndian(d, count, 0, cap).value;
            d == BigEndian(n) + rest && |BigEndian(n)| == count && n <= cap
  {
    var first: nat := d[0];
    var digits := ReadIsBigEndian(d[1..], count - 1, first, cap);
    var (n, rest) := ReadBigEndian(d, count, 0, cap).value;
    assert BigEndian(n) == [first] + digits;
    assert d == [d[0]] + d[1..];
  }

  lemma {:induction false} BigEndianShort(n: nat, k: nat)
    requires n < Power256(k) && k > 0
    ensures |BigEndian(n)| <= k
    decreases k
  {
    if n >= 256 {
      BigEndianShort(n / 256, k - 1);
    }
  }

  function Power256(k: nat): nat {
    if k == 0 then 1 else 256 * Power256(k - 1)
  }

  lemma {:induction false} LengthOctetsFit(n: nat)
    requires n <= MAX_INT
    ensures |BigEndian(n)| <= 8
  {
    assert Power256(2) == 0x1_0000;
    assert Power256(4) == 0x1_0000_0000;
    assert Power256(6) == 0x1_0000_0000_0000;
    assert Power256(8) == 0x1_0000_0000_0000_0000;
    BigEndianShort(n, 8);
  }

  // ---- Base 128: high tag numbers and OID arcs ----

  /** The leading groups of seven bits, each with its continuation bit. */
  function High(n: nat): bytes {
    if n == 0 then [] else High(n / 128) + [128 + n % 128]
  }

  function Base128(n: nat): (r: bytes)
    ensures |r| > 0
  {
    High(n / 128) + [n % 128]
  }

  function ReadBase128(d: bytes, acc: nat, cap: nat): (r: Option<(nat, bytes)>)
    ensures r.Some? ==> |r.value.1| < |d|
    decreases |d|
  {
    if d == [] || (acc == 0 && d[0] == 128) then None
    else
      var acc' := acc * 128 + d[0] % 128;
      if acc' > cap then None
      else if d[0] < 128 then Some((acc', d[1..]))
      else ReadBase128(d[1..], acc', cap)
  }

  lemma {:induction false} GroupReads(acc: nat, low: byte, rest: bytes, cap: nat)
    requires low >= 128 && (acc == 0 ==> low > 128)
    ensures var n := acc * 128 + (low - 128);
            ReadBase128([low] + rest, acc, cap) == if n > cap then None else ReadBase128(rest, n, cap)
  {
    var d := [low] + rest;
    assert d[0] == low && d[1..] == rest;
  }

  lemma {:induction false} HighReads(n: nat, rest: bytes, cap: nat)
    ensures ReadBase128(High(n) + rest, 0, cap) == if n == 0 || n <= cap then ReadBase128(rest, n, cap) else None
    decreases n
  {
    if n == 0 {
      assert High(n) + rest == rest;
    } else {
      var low: byte := 128 + n % 128;
      assert High(n) + rest == High(n / 128) + ([low] + rest);
      HighReads(n / 128, [low] + rest, cap);
      GroupReads(n / 128, low, rest, cap);
    }
  }

  lemma {:induction false} LastGroupReads(acc: nat, low: byte, rest: bytes, cap: nat)
    requires low < 128
    ensures var n := acc * 128 + low;
            ReadBase128([low] + rest, acc, cap) == if n > cap then None else Some((n, rest))
  {
    var d := [low] + rest;
    assert d[0] == low && d[1..] == rest;
  }

  lemma {:induction false} Base128Reads(n: nat, rest: bytes, cap: nat)
    ensures ReadBase128(Base128(n) + rest, 0, cap) == if n <= cap then Some((n, rest)) else None
  {
    GroupsRead(n / 128, n % 128, rest, cap);
  }

  lemma {:induction false} GroupsRead(high: nat, low: byte, rest: bytes, cap: nat)
    requires low < 128
    ensures var n := high * 128 + low;
            ReadBase128(High(high) + [low] + rest, 0, cap) == if n <= cap then Some((n, rest)) else None
  {
    assert High(high) + [low] + rest == High(high) + ([low] + rest);
    HighReads(high, [low] + rest, cap);
    LastGroupReads(high, low, rest, cap);
  }

  lemma {:induction false} ReadIsBase128(d: bytes, acc: nat, cap: nat)
    requires ReadBase128(d, acc, cap).Some?
    ensures var (n, rest) := ReadBase128(d, acc, cap).value;
            n <= cap && High(acc) + d == Base128(n) + rest
    decreases |d|
  {
    var acc' := acc * 128 + d[0] % 128;
    assert d == [d[0]] + d[1..];
    assert acc' / 128 == acc && acc' % 128 == d[0] % 128;
    if d[0] < 128 {
      assert High(acc) + d == Base128(acc') + d[1..];
    } else {
      ReadIsBase128(d[1..], acc', cap);
      assert acc' > 0;
      assert High(acc') == High(acc) + [d[0]];
      assert High(acc) + d == High(acc') + d[1..];
    }
  }

  function Power128(k: nat): nat {
    if k == 0 then 1 else 128 * Power128(k - 1)
  }

  lemma {:induction false} HighShort(n: nat, k: nat)
    requires n < Power128(k)
    ensures |High(n)| <= k
    decreases k
  {
    if n > 0 {
      HighShort(n / 128, k - 1);
    }
  }

  lemma {:induction false} Base128IsShort(n: nat)
    requires n <= MAX_INT
    ensures |Base128(n)| <= 9
  {
    assert Power128(2) == 0x4000;
    assert Power128(4) == 0x1000_0000;
    assert Power128(6) == 0x400_0000_0000;
    assert Power128(8) == 0x100_0000_0000_0000;
    HighShort(n / 128, 8);
  }

  // ---- The octets as numbers ----

  /** The number that octets denote in base 256, the last octet counting least. */
  function Number256(d: bytes): nat
    decreases |d|
  {
    if d == [] then 0 else Number256(d[..|d| - 1]) * 256 + d[|d| - 1]
  }

  /** The number that octets denote by their lower seven bits. */
  function Number128(d: bytes): nat
    decreases |d|
  {
    if d == [] then 0 else Number128(d[..|d| - 1]) * 128 + d[|d| - 1] % 128
  }

  lemma {:induction false} Snoc256(d: bytes, x: byte)
    ensures Number256(d + [x]) == Number256(d) * 256 + x
  {
    assert (d + [x])[..|d|] == d && (d + [x])[|d|] == x;
  }

  lemma {:induction false} Snoc128(d: bytes, x: byte)
    ensures Number128(d + [x]) == Number128(d) * 128 + x % 128
  {
    assert (d + [x])[..|d|] == d && (d + [x])[|d|] == x;
  }

  /** Section 8.1.3.5: the number in base 256. */
  lemma {:induction false} BigEndianIs(n: nat)
    ensures Number256(BigEndian(n)) == n
    decreases n
  {
    if n < 256 {
      Snoc256([], n);
      assert [] + [n] == BigEndian(n);
    } else {
      BigEndianIs(n / 256);
      Snoc256(BigEndian(n / 256), n % 256);
    }
  }

  /** No leading zero octet. */
  lemma {:induction false} BigEndianIsShort(n: nat)
    requires n > 0
    ensures BigEndian(n)[0] != 0
    decreases n
  {
    if n >= 256 {
      BigEndianIsShort(n / 256);
    }
  }

  /** The high bit does not count. */
  lemma {:induction false} Unmarked(x: nat)
    requires x < 128
    ensures (128 + x) % 128 == x
  {
  }

  lemma {:induction false} HighIs(n: nat)
    ensures Number128(High(n)) == n
    decreases n
  {
    if n > 0 {
      HighIs(n / 128);
      Snoc128(High(n / 128), 128 + n % 128);
      Unmarked(n % 128);
    }
  }

  lemma {:induction false} HighMarked(n: nat)
    ensures forall i | 0 <= i < |High(n)| :: High(n)[i] >= 128
    ensures n > 0 ==> High(n) != [] && High(n)[0] != 128
    decreases n
  {
    if n > 0 {
      HighMarked(n / 128);
    }
  }

  /** Section 8.19.2: seven bits an octet. */
  lemma {:induction false} Base128Is(n: nat)
    ensures Number128(Base128(n)) == n
  {
    GroupsAre(n / 128, n % 128);
  }

  lemma {:induction false} GroupsAre(high: nat, low: byte)
    requires low < 128
    ensures Number128(High(high) + [low]) == high * 128 + low
  {
    HighIs(high);
    Snoc128(High(high), low);
  }

  /** All octets but the last are marked by the high bit, and the first is not an empty group. */
  lemma {:induction false} Base128Marked(n: nat)
    ensures var d := Base128(n);
            d[|d| - 1] < 128 && (forall i | 0 <= i < |d| - 1 :: d[i] >= 128) && d[0] != 128
  {
    HighMarked(n / 128);
    var front := High(n / 128);
    assert Base128(n)[|front|] == n % 128;
    assert front != [] ==> Base128(n)[0] == front[0];
  }

  // ---- Tag, length, value ----

  datatype Class = Universal | Application | Context | Private

  datatype Tlv = Tlv(class': Class, compound: bool, tag: nat, content: bytes) {
    /** What a reader with these limits can accept. */
    predicate Fits(lim: Limits) {
      |content| <= lim.len && (tag >= 31 ==> tag <= lim.arc)
    }
  }

  function ClassBits(c: Class): nat {
    match c case Universal => 0 case Application => 1 case Context => 2 case Private => 3
  }

  function ClassOf(bits: nat): Class {
    if bits == 0 then Universal else if bits == 1 then Application else if bits == 2 then Context else Private
  }

  function Identifier(c: Class, compound: bool, tag: nat): bytes {
    var lead := ClassBits(c) * 64 + if compound then 32 else 0;
    if tag < 31 then [lead + tag] else [lead + 31] + Base128(tag)
  }

  /** A length within int needs at most eight octets. */
  function Length(n: nat): bytes {
    if n < 128 then [n]
    else
      var b := BigEndian(n);
      [if |b| < 128 then 128 + |b| else 255] + b
  }

  function Encode(t: Tlv): bytes {
    Identifier(t.class', t.compound, t.tag) + (Length(|t.content|) + t.content)
  }

  /** Section 8.1.2: the class in the upper two bits, the form in the next, a tag below 31 in the rest. */
  lemma {:induction false} IdentifierIs(c: Class, compound: bool, tag: nat)
    ensures var class' := match c case Universal => 0 case Application => 64 case Context => 128 case Private => 192;
            var lead := class' + if compound then 32 else 0;
            && (tag < 31 ==> Identifier(c, compound, tag) == [lead + tag])
            && (tag >= 31 ==> Identifier(c, compound, tag) == [lead + 31] + Base128(tag))
  {
  }

  /** Sections 8.1.3.4, 8.1.3.5 and 10.1: one octet below 128, else their count and the fewest octets of the number. */
  lemma {:induction false} LengthIs(n: nat)
    requires n <= MAX_INT
    ensures n < 128 ==> Length(n) == [n]
    ensures n >= 128 ==>
              var octets := Length(n)[1..];
              Length(n)[0] == 128 + |octets| && octets != [] && octets[0] != 0 && Number256(octets) == n
  {
    LengthOctetsFit(n);
    BigEndianIs(n);
    if n >= 128 {
      BigEndianIsShort(n);
      assert Length(n)[1..] == BigEndian(n);
    }
  }

  datatype Ident = Ident(class': Class, compound: bool, tag: nat)

  function ReadIdentifier(d: bytes, cap: nat): (r: Option<(Ident, bytes)>)
    ensures r.Some? ==> |r.value.1| < |d|
  {
    if d == [] then None
    else
      var c, compound := ClassOf(d[0] / 64), d[0] / 32 % 2 == 1;
      if d[0] % 32 < 31 then Some((Ident(c, compound, d[0] % 32), d[1..]))
      else
        match ReadBase128(d[1..], 0, cap)
        case None => None
        case Some((tag, rest)) => if tag < 31 then None else Some((Ident(c, compound, tag), rest))
  }

  function ReadLength(d: bytes, cap: nat): (r: Option<(nat, bytes)>)
    ensures r.Some? ==> |r.value.1| < |d|
  {
    if d == [] then None
    else if d[0] < 128 then Some((d[0], d[1..]))
    else if d[0] == 128 then None
    else
      var r := ReadBigEndian(d[1..], d[0] - 128, 0, cap);
      if r.Some? then
        ReadShrinks(d[1..], d[0] - 128, 0, cap);
        if r.value.0 < 128 then None else r
      else None
  }

  lemma {:induction false} ReadShrinks(d: bytes, count: nat, acc: nat, cap: nat)
    requires ReadBigEndian(d, count, acc, cap).Some?
    ensures |ReadBigEndian(d, count, acc, cap).value.1| <= |d|
    decreases count
  {
    if count > 0 {
      ReadShrinks(d[1..], count - 1, acc * 256 + d[0], cap);
    }
  }

  /** Reads one value; what is left has lost at least two bytes. */
  function Read(d: bytes, lim: Limits): (r: Option<(Tlv, bytes)>)
    ensures r.Some? ==> |r.value.1| <= |d| - 2
  {
    match ReadIdentifier(d, lim.arc)
    case None => None
    case Some((id, afterId)) =>
      match ReadLength(afterId, lim.len)
      case None => None
      case Some((n, rest)) =>
        if n > |rest| then None else Some((Tlv(id.class', id.compound, id.tag, rest[..n]), rest[n..]))
  }

  /** The three fields of a leading identifier octet come apart again. */
  lemma {:induction false} LeadFields(c: Class, compound: bool, low: nat)
    requires low < 32
    ensures var x := ClassBits(c) * 64 + (if compound then 32 else 0) + low;
            ClassOf(x / 64) == c && (x / 32 % 2 == 1) == compound && x % 32 == low
  {
    var half := if compound then 1 else 0;
    var x := ClassBits(c) * 64 + half * 32 + low;
    assert x / 32 == ClassBits(c) * 2 + half;
    assert x / 64 == ClassBits(c);
  }

  lemma {:induction false} IdentifierReads(id: Ident, rest: bytes, cap: nat)
    ensures ReadIdentifier(Identifier(id.class', id.compound, id.tag) + rest, cap)
            == if id.tag < 31 || id.tag <= cap then Some((id, rest)) else None
  {
    var low := if id.tag < 31 then id.tag else 31;
    var lead: byte := ClassBits(id.class') * 64 + (if id.compound then 32 else 0) + low;
    var more := if id.tag < 31 then [] else Base128(id.tag);
    assert Identifier(id.class', id.compound, id.tag) == [lead] + more;
    assert ([lead] + more + rest)[1..] == more + rest;
    LeadFields(id.class', id.compound, low);
    if id.tag >= 31 {
      Base128Reads(id.tag, rest, cap);
    }
  }

  lemma {:induction false} LeadByte(x: byte)
    ensures ClassBits(ClassOf(x / 64)) * 64 + (if x / 32 % 2 == 1 then 32 else 0) + x % 32 == x
  {
    assert x == 32 * (x / 32) + x % 32 && x / 32 == 2 * (x / 64) + x / 32 % 2;
  }

  lemma {:induction false} LeadIdentifier(x: byte, tag: nat)
    requires x % 32 == if tag < 31 then tag else 31
    ensures Identifier(ClassOf(x / 64), x / 32 % 2 == 1, tag) == [x] + if tag < 31 then [] else Base128(tag)
  {
    LeadByte(x);
  }

  lemma {:induction false} ReadIsIdentifier(d: bytes, cap: nat)
    requires ReadIdentifier(d, cap).Some?
    ensures var (id, rest) := ReadIdentifier(d, cap).value;
            d == Identifier(id.class', id.compound, id.tag) + rest && (id.tag >= 31 ==> id.tag <= cap)
  {
    assert d == [d[0]] + d[1..];
    var (id, rest) := ReadIdentifier(d, cap).value;
    if id.tag >= 31 {
      ReadIsBase128(d[1..], 0, cap);
      assert High(0) + d[1..] == d[1..];
      assert d == [d[0]] + Base128(id.tag) + rest;
    }
    LeadIdentifier(d[0], id.tag);
  }

  lemma {:induction false} LengthReads(n: nat, rest: bytes, cap: nat)
    requires n <= MAX_INT
    ensures ReadLength(Length(n) + rest, cap) == if n < 128 || n <= cap then Some((n, rest)) else None
  {
    LengthOctetsFit(n);
    if n < 128 {
      assert (Length(n) + rest)[1..] == rest;
    } else {
      assert (Length(n) + rest)[1..] == BigEndian(n) + rest;
      BigEndianReads(n, rest, 0, cap);
    }
  }

  lemma {:induction false} ReadIsLength(d: bytes, cap: nat)
    requires ReadLength(d, cap).Some?
    ensures var (n, rest) := ReadLength(d, cap).value;
            d == Length(n) + rest && (n >= 128 ==> n <= cap)
  {
    assert d == [d[0]] + d[1..];
    if d[0] >= 128 {
      ReadIsWhole(d[1..], d[0] - 128, cap);
    }
  }

  lemma {:induction false} Regrouped(head: bytes, length: bytes, content: bytes, rest: bytes)
    ensures head + (length + (content + rest)) == (head + (length + content)) + rest
  {
    assert length + (content + rest) == (length + content) + rest;
    assert head + ((length + content) + rest) == (head + (length + content)) + rest;
  }

  /**
   Canonical form: reading yields a value and a rest exactly when the input is the value's encoding followed
   by the rest and the value is within the reader's limits.
   */
  lemma {:induction false} ReadIff(d: bytes, t: Tlv, rest: bytes, lim: Limits)
    requires lim.Sane()
    ensures Read(d, lim) == Some((t, rest)) <==> d == Encode(t) + rest && t.Fits(lim)
  {
    if d == Encode(t) + rest && t.Fits(lim) {
      EncodeReads(t, rest, lim);
    }
    if Read(d, lim) == Some((t, rest)) {
      ReadIsEncode(d, lim);
    }
  }

  lemma {:induction false} EncodeReads(t: Tlv, rest: bytes, lim: Limits)
    requires |t.content| <= MAX_INT && lim.Sane()
    ensures Read(Encode(t) + rest, lim) == if t.Fits(lim) then Some((t, rest)) else None
  {
    var id := Ident(t.class', t.compound, t.tag);
    var afterId := Length(|t.content|) + (t.content + rest);
    Regrouped(Identifier(t.class', t.compound, t.tag), Length(|t.content|), t.content, rest);
    IdentifierReads(id, afterId, lim.arc);
    LengthReads(|t.content|, t.content + rest, lim.len);
    assert (t.content + rest)[..|t.content|] == t.content && (t.content + rest)[|t.content|..] == rest;
  }

  lemma {:induction false} ReadIsEncode(d: bytes, lim: Limits)
    requires Read(d, lim).Some? && lim.Sane()
    ensures var (t, rest) := Read(d, lim).value;
            d == Encode(t) + rest && t.Fits(lim)
  {
    var (id, afterId) := ReadIdentifier(d, lim.arc).value;
    var (n, after) := ReadLength(afterId, lim.len).value;
    ReadIsIdentifier(d, lim.arc);
    ReadIsLength(afterId, lim.len);
    var content, rest := after[..n], after[n..];
    assert after == content + rest;
    Regrouped(Identifier(id.class', id.compound, id.tag), Length(n), content, rest);
    assert Encode(Tlv(id.class', id.compound, id.tag, content))
        == Identifier(id.class', id.compound, id.tag) + (Length(n) + content);
  }
}
