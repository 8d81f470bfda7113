/** Object identifiers as encoding/asn1 marshals and unmarshals them (ITU-T X.690 section 8.19). */
module Oid {
  import opened Bytes
  import opened Wrappers
  import opened Der

  /** Arcs are Go ints: 64 bits, two's complement. */
  const TWO64: nat := 0x1_0000_0000_0000_0000

  function Wrap(x: int): int {
    (x + (MAX_INT + 1)) % TWO64 - (MAX_INT + 1)
  }

  predicate IsInt(x: int) {
    -(MAX_INT + 1) <= x <= MAX_INT
  }

  lemma {:induction false} WrapInt(x: int)
    ensures IsInt(Wrap(x)) && (IsInt(x) ==> Wrap(x) == x)
  {
  }

  type Arcs = seq<int>

  predicate AreInts(o: Arcs) {
    forall i | 0 <= i < |o| :: IsInt(o[i])
  }

  predicate AreNatural(o: Arcs) {
    forall i | 0 <= i < |o| :: o[i] >= 0
  }

  /** The marshaller's own test of an OID. */
  predicate Accepted(o: Arcs) {
    |o| >= 2 && o[0] <= 2 && !(o[0] < 2 && o[1] >= 40)
  }

  /** A negative number marshals to nothing. */
  function EncodeArc(n: int): bytes {
    if n < 0 then [] else Base128(n)
  }

  function EncodeArcs(o: Arcs): bytes {
    if o == [] then [] else EncodeArc(o[0]) + EncodeArcs(o[1..])
  }

  function FirstArc(o: Arcs): int
    requires |o| >= 2
  {
    Wrap(o[0] * 40 + o[1])
  }

  function Content(o: Arcs): bytes
    requires |o| >= 2
  {
    EncodeArc(FirstArc(o)) + EncodeArcs(o[2..])
  }

  function DecodeArcs(d: bytes, cap: nat): Option<Arcs>
    decreases |d|
  {
    if d == [] then Some([])
    else
      match ReadBase128(d, 0, cap)
      case None => None
      case Some((n, rest)) =>
        var more := DecodeArcs(rest, cap);
        if more.None? then None else Some([n] + more.value)
  }

  /** The first number holds two arcs. */
  function Split(o: Arcs): Arcs
    requires o != []
  {
    (if o[0] < 80 then [o[0] / 40, o[0] % 40] else [2, o[0] - 80]) + o[1..]
  }

  function Decode(d: bytes, cap: nat): Option<Arcs> {
    match DecodeArcs(d, cap)
    case None => None
    case Some(o) => if o == [] then None else Some(Split(o))
  }

  /** What ITU-T X.690 allows, in numbers that the marshaller's int arithmetic does not wrap. */
  predicate WellFormed(o: Arcs) {
    Accepted(o) && (forall i | 0 <= i < |o| :: o[i] >= 0) && o[0] * 40 + o[1] <= MAX_INT
  }

  predicate Fits(o: Arcs, cap: nat) {
    |o| >= 2 && o[0] * 40 + o[1] <= cap && forall i | 2 <= i < |o| :: o[i] <= cap
  }

  predicate AtMost(o: Arcs, cap: nat) {
    forall i | 0 <= i < |o| :: o[i] <= cap
  }

  lemma {:induction false} AtMostCons(o: Arcs, cap: nat)
    requires o != []
    ensures AtMost(o, cap) <==> o[0] <= cap && AtMost(o[1..], cap)
  {
    assert o == [o[0]] + o[1..];
  }

  lemma {:induction false} ArcsBack(o: Arcs, cap: nat)
    requires forall i | 0 <= i < |o| :: o[i] >= 0
    ensures DecodeArcs(EncodeArcs(o), cap) == if AtMost(o, cap) then Some(o) else None
    decreases |o|
  {
    if o != [] {
      ArcsBack(o[1..], cap);
      Base128Reads(o[0], EncodeArcs(o[1..]), cap);
      AtMostCons(o, cap);
      assert o == [o[0]] + o[1..];
      assert EncodeArcs(o) == Base128(o[0]) + EncodeArcs(o[1..]);
      assert EncodeArcs(o) != [];
    }
  }

  /**
   Decoding an accepted OID gives it back exactly when it is well formed and its numbers are within the
   reader's limit: a negative or wrapped number is lost on the way.
   */
  lemma {:induction false} RoundTripIff(o: Arcs, cap: nat)
    requires Accepted(o) && AreInts(o)
    ensures Decode(Content(o), cap) == Some(o) <==> WellFormed(o) && Fits(o, cap)
  {
    var tail := o[2..];
    var first := FirstArc(o);
    if forall i | 0 <= i < |tail| :: tail[i] >= 0 {
      if first < 0 {
        ArcsBack(tail, cap);
        assert Content(o) == EncodeArcs(tail);
        assert !(WellFormed(o)) by {
          WrapInt(o[0] * 40 + o[1]);
        }
      } else {
        var whole := [first] + tail;
        assert whole[1..] == tail;
        assert Content(o) == EncodeArcs(whole);
        ArcsBack(whole, cap);
        WholeBack(o, cap);
      }
    } else {
      var i :| 0 <= i < |tail| && tail[i] < 0;
      assert o[i + 2] < 0;
      if Decode(Content(o), cap) == Some(o) {
        DecodedArcsAreNatural(Content(o), cap);
      }
    }
  }

  lemma {:induction false} ReadArcsAreNatural(d: bytes, cap: nat)
    ensures DecodeArcs(d, cap).Some? ==> AreNatural(DecodeArcs(d, cap).value)
    decreases |d|
  {
    if d != [] && ReadBase128(d, 0, cap).Some? {
      ReadArcsAreNatural(ReadBase128(d, 0, cap).value.1, cap);
    }
  }

  lemma {:induction false} SplitNatural(o: Arcs)
    requires o != [] && AreNatural(o)
    ensures AreNatural(Split(o))
  {
    var r := Split(o);
    assert r[0] >= 0 && r[1] >= 0;
    forall i | 2 <= i < |r|
      ensures r[i] >= 0
    {
      assert r[i] == o[1..][i - 2] == o[i - 1];
    }
  }

  lemma {:induction false} DecodedArcsAreNatural(d: bytes, cap: nat)
    requires Decode(d, cap).Some?
    ensures AreNatural(Decode(d, cap).value)
  {
    ReadArcsAreNatural(d, cap);
    SplitNatural(DecodeArcs(d, cap).value);
  }

  /** A reader never returns a number above its limit. */
  lemma {:induction false} DecodedArcsAtMost(d: bytes, cap: nat)
    ensures var r := DecodeArcs(d, cap); r.Some? ==> AtMost(r.value, cap)
    decreases |d|
  {
    if d != [] && ReadBase128(d, 0, cap).Some? {
      ReadIsBase128(d, 0, cap);
      DecodedArcsAtMost(ReadBase128(d, 0, cap).value.1, cap);
    }
  }

  lemma {:induction false} SplitAtMost(o: Arcs, cap: nat)
    requires o != [] && AtMost(o, cap) && o[0] >= 0
    ensures AtMost(Split(o), cap)
  {
    var r := Split(o);
    assert o[0] % 40 <= o[0] && o[0] / 40 <= o[0];
    assert r[0] <= cap && r[1] <= cap;
    forall i | 2 <= i < |r|
      ensures r[i] <= cap
    {
      assert r[i] == o[1..][i - 2] == o[i - 1];
    }
  }

  lemma {:induction false} DecodedAreInts(d: bytes, cap: nat)
    requires cap <= MAX_INT && Decode(d, cap).Some?
    ensures AreInts(Decode(d, cap).value)
  {
    DecodedArcsAtMost(d, cap);
    ReadArcsAreNatural(d, cap);
    DecodedArcsAreNatural(d, cap);
    SplitAtMost(DecodeArcs(d, cap).value, cap);
  }

  // ---- Arcs that do not fit in an int ----

  /** o is what is left of n in 64-bit arithmetic. */
  predicate Wraps(n: Arcs, o: Arcs) {
    |o| == |n| && forall i | 0 <= i < |n| :: o[i] == Wrap(n[i])
  }

  lemma {:induction false} WrapsInts(n: Arcs, o: Arcs)
    requires Wraps(n, o)
    ensures AreInts(o) && (AreInts(n) ==> o == n)
  {
    forall i | 0 <= i < |n|
      ensures IsInt(o[i]) && (IsInt(n[i]) ==> o[i] == n[i])
    {
      WrapInt(n[i]);
    }
  }

  lemma {:induction false} ValidAreInts(n: Arcs, cap: nat)
    requires WellFormed(n) && Fits(n, cap) && cap <= MAX_INT
    ensures AreInts(n)
  {
    assert forall i | 0 <= i < |n| :: n[i] >= 0;
    assert n[0] <= n[0] * 40 + n[1] && n[1] <= n[0] * 40 + n[1];
  }

  /**
   An OID kept in wrapped form still decodes to the OID it was meant to be exactly when that one is valid and
   within the reader's limit.
   */
  lemma {:induction false} NamedBackIff(n: Arcs, o: Arcs, cap: nat)
    requires Wraps(n, o) && Accepted(o) && cap <= MAX_INT
    ensures Decode(Content(o), cap) == Some(n) <==> WellFormed(n) && Fits(n, cap)
  {
    WrapsInts(n, o);
    RoundTripIff(o, cap);
    if Decode(Content(o), cap) == Some(n) {
      DecodedAreInts(Content(o), cap);
    }
    if WellFormed(n) && Fits(n, cap) {
      ValidAreInts(n, cap);
    }
  }

  /** Splitting the first number again, when it did not wrap. */
  lemma {:induction false} WholeBack(o: Arcs, cap: nat)
    requires Accepted(o) && AreInts(o) && FirstArc(o) >= 0
    requires forall i | 0 <= i < |o[2..]| :: o[2..][i] >= 0
    ensures var whole := [FirstArc(o)] + o[2..];
            && (Split(whole) == o <==> WellFormed(o))
            && (WellFormed(o) ==> (Fits(o, cap) <==> forall i | 0 <= i < |whole| :: whole[i] <= cap))
  {
    var whole := [FirstArc(o)] + o[2..];
    WrapInt(o[0] * 40 + o[1]);
    assert o == [o[0], o[1]] + o[2..];
    assert forall i | 2 <= i < |o| :: o[i] == o[2..][i - 2] == whole[i - 1];
    assert whole[1..] == o[2..];
    if Split(whole) == o {
      assert o[0] >= 0 && o[1] >= 0;
      assert o[0] * 40 + o[1] == FirstArc(o);
    }
  }

  /** Section 8.19.4: the first two arcs are one number, 40 times the first plus the second; each other arc is its own. */
  lemma {:induction false} ContentIs(o: Arcs, n: nat, rest: Arcs)
    requires WellFormed(o)
    ensures Content(o) == Base128(o[0] * 40 + o[1]) + EncodeArcs(o[2..])
    ensures EncodeArcs([]) == [] && EncodeArcs([n] + rest) == Base128(n) + EncodeArcs(rest)
  {
    WrapInt(o[0] * 40 + o[1]);
    assert ([n] + rest)[1..] == rest;
  }

  /** An OID as a value of its own. */
  function Value(o: Arcs): Tlv
    requires |o| >= 2
  {
    Tlv(Universal, false, 6, Content(o))
  }
}
