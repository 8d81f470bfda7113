/** pkg/handlers/csrattrs.go: configured OID strings become the base64 SEQUENCE of /csrattrs. */
module CsrAttrs {
  import opened Bytes
  import opened Wrappers
  import opened Der
  import opened Oid
  import Base64

  const DOT: byte := 46

  predicate IsDigit(c: byte) {
    48 <= c <= 57
  }

  // ---- Dotted decimal text ----

  /** The pieces between the dots. */
  function Pieces(s: bytes): (r: seq<bytes>)
    ensures |r| > 0
    decreases |s|
  {
    if s == [] then [[]]
    else
      var p, c := Pieces(s[..|s| - 1]), s[|s| - 1];
      if c == DOT then p + [[]] else p[..|p| - 1] + [p[|p| - 1] + [c]]
  }

  function Join(p: seq<bytes>): bytes
    requires |p| > 0
    decreases |p|
  {
    if |p| == 1 then p[0] else Join(p[..|p| - 1]) + [DOT] + p[|p| - 1]
  }

  lemma {:induction false} JoinDot(p: seq<bytes>)
    requires |p| > 0
    ensures Join(p + [[]]) == Join(p) + [DOT]
  {
    assert (p + [[]])[..|p|] == p;
    assert Join(p) + [DOT] + [] == Join(p) + [DOT];
  }

  lemma {:induction false} JoinDigit(p: seq<bytes>, c: byte)
    requires |p| > 0
    ensures Join(p[..|p| - 1] + [p[|p| - 1] + [c]]) == Join(p) + [c]
  {
    var front, last := p[..|p| - 1], p[|p| - 1];
    assert (front + [last + [c]])[..|front|] == front;
    if front != [] {
      assert Join(front) + [DOT] + (last + [c]) == Join(front) + [DOT] + last + [c];
    }
  }

  predicate NoDots(p: seq<bytes>) {
    forall i | 0 <= i < |p| :: DOT !in p[i]
  }

  lemma {:induction false} PiecesSnoc(s: bytes, c: byte)
    ensures var p := Pieces(s);
            Pieces(s + [c]) == if c == DOT then p + [[]] else p[..|p| - 1] + [p[|p| - 1] + [c]]
  {
    assert (s + [c])[..|s|] == s && (s + [c])[|s|] == c;
  }

  lemma {:induction false} JoinSnoc(s: bytes, c: byte)
    requires Join(Pieces(s)) == s
    ensures Join(Pieces(s + [c])) == s + [c]
  {
    PiecesSnoc(s, c);
    if c == DOT {
      JoinDot(Pieces(s));
    } else {
      JoinDigit(Pieces(s), c);
    }
  }

  lemma {:induction false} NoDotsSnoc(s: bytes, c: byte)
    requires NoDots(Pieces(s)) && (|Pieces(s)| >= 2 <==> DOT in s)
    ensures NoDots(Pieces(s + [c])) && (|Pieces(s + [c])| >= 2 <==> DOT in s + [c])
  {
    PiecesSnoc(s, c);
  }

  /** The pieces are what the text is made of: joined by dots they give it back, and none holds a dot. */
  lemma {:induction false} JoinPieces(s: bytes)
    ensures Join(Pieces(s)) == s
    ensures NoDots(Pieces(s))
    ensures |Pieces(s)| >= 2 <==> DOT in s
    decreases |s|
  {
    if s != [] {
      var front, c := s[..|s| - 1], s[|s| - 1];
      assert s == front + [c];
      JoinPieces(front);
      JoinSnoc(front, c);
      NoDotsSnoc(front, c);
    }
  }

  /** The number a digit string denotes; an empty string counts as 0. */
  function Decimal(w: bytes): int
    decreases |w|
  {
    if w == [] then 0 else Decimal(w[..|w| - 1]) * 10 + (w[|w| - 1] as int - 48)
  }

  function Values(p: seq<bytes>): Arcs {
    seq(|p|, i requires 0 <= i < |p| => Wrap(Decimal(p[i])))
  }

  /** The numbers a text names, whatever their size. */
  function Named(s: bytes): Arcs {
    seq(|Pieces(s)|, i requires 0 <= i < |Pieces(s)| => Decimal(Pieces(s)[i]))
  }

  predicate AreDotted(s: bytes) {
    forall i | 0 <= i < |s| :: IsDigit(s[i]) || s[i] == DOT
  }

  function Parsed(s: bytes): Option<Arcs> {
    if AreDotted(s) && DOT in s then Some(Values(Pieces(s))) else None
  }

  lemma {:induction false} WrapDigit(current: int, digit: int)
    ensures Wrap(Wrap(Wrap(current) * 10) + digit) == Wrap(current * 10 + digit)
  {
  }

  lemma {:induction false} ValuesAppend(p: seq<bytes>, w: bytes)
    ensures Values(p + [w]) == Values(p) + [Wrap(Decimal(w))]
  {
  }

  lemma {:induction false} DecimalSnoc(w: bytes, c: byte)
    ensures Decimal(w + [c]) == Decimal(w) * 10 + (c as int - 48)
  {
    assert (w + [c])[..|w|] == w && (w + [c])[|w|] == c;
  }

  lemma {:induction false} DotStep(s: bytes)
    ensures Values(Pieces(s + [DOT])) == Values(Pieces(s)) + [0]
  {
    PiecesSnoc(s, DOT);
    ValuesAppend(Pieces(s), []);
    WrapInt(0);
  }

  lemma {:induction false} DigitStep(s: bytes, c: byte, front: Arcs, current: int)
    requires c != DOT && Values(Pieces(s)) == front + [current]
    ensures Values(Pieces(s + [c])) == front + [Wrap(Wrap(current * 10) + (c as int - 48))]
  {
    var p := Pieces(s);
    var closed, open := p[..|p| - 1], p[|p| - 1];
    PiecesSnoc(s, c);
    assert p == closed + [open];
    ValuesAppend(closed, open);
    ValuesAppend(closed, open + [c]);
    LastOfEqual(Values(closed), Wrap(Decimal(open)), front, current);
    DecimalSnoc(open, c);
    WrapDigit(Decimal(open), c as int - 48);
  }

  lemma {:induction false} LastOfEqual(a: Arcs, x: int, b: Arcs, y: int)
    requires a + [x] == b + [y]
    ensures a == b && x == y
  {
    assert (a + [x])[|a|] == x && (b + [y])[|b|] == y;
    assert (a + [x])[..|a|] == a && (b + [y])[..|b|] == b;
  }

  /** The loop's state after reading s: the closed pieces and the open one. */
  ghost predicate Scanned(s: bytes, oid: Arcs, current: int) {
    AreDotted(s) && Values(Pieces(s)) == oid + [current]
  }

  lemma {:induction false} ScanDot(s: bytes, oid: Arcs, current: int)
    requires Scanned(s, oid, current)
    ensures Scanned(s + [DOT], oid + [current], 0)
  {
    DotStep(s);
  }

  lemma {:induction false} ScanDigit(s: bytes, c: byte, oid: Arcs, current: int)
    requires Scanned(s, oid, current) && IsDigit(c)
    ensures Scanned(s + [c], oid, Wrap(Wrap(current * 10) + (c as int - 48)))
  {
    DigitStep(s, c, oid, current);
  }

  lemma {:induction false} ScanEnd(s: bytes, oid: Arcs, current: int)
    requires Scanned(s, oid, current)
    ensures AreDotted(s) && Values(Pieces(s)) == oid + [current] && (|oid| >= 1 <==> DOT in s)
  {
    JoinPieces(s);
  }

  lemma {:induction false} ScanStart()
    ensures Scanned([], [], 0)
  {
    WrapInt(0);
  }

  /** Accepts exactly digits and dots with a dot; each piece is read in 64-bit int arithmetic. */
  method ParseOid(s: bytes) returns (r: Option<Arcs>)
    ensures r.Some? <==> AreDotted(s) && DOT in s
    ensures r.Some? ==> r.value == Values(Pieces(s))
  {
    var oid: Arcs := [];
    var current := 0;
    ScanStart();
    for i := 0 to |s|
      invariant Scanned(s[..i], oid, current)
    {
      assert s[..i + 1] == s[..i] + [s[i]];
      if s[i] == DOT {
        ScanDot(s[..i], oid, current);
        oid := oid + [current];
        current := 0;
      } else if !IsDigit(s[i]) {
        return None;
      } else {
        ScanDigit(s[..i], s[i], oid, current);
        var component := s[i] as int - 48;
        current := Wrap(Wrap(current * 10) + component);
      }
    }
    assert s[..|s|] == s;
    ScanEnd(s, oid, current);
    oid := oid + [current];
    if |oid| < 2 {
      return None;
    }
    return Some(oid);
  }

  // ---- Printing ----

  function Digits(n: nat): bytes {
    if n < 10 then [48 + n] else Digits(n / 10) + [48 + n % 10]
  }

  function Print(o: Arcs): bytes
    requires o != [] && forall i | 0 <= i < |o| :: o[i] >= 0
    decreases |o|
  {
    if |o| == 1 then Digits(o[0]) else Print(o[..|o| - 1]) + [DOT] + Digits(o[|o| - 1])
  }

  lemma {:induction false} DecimalDigits(n: nat)
    ensures Decimal(Digits(n)) == n
    ensures forall i | 0 <= i < |Digits(n)| :: IsDigit(Digits(n)[i])
    decreases n
  {
    var w := Digits(n);
    if n < 10 {
      assert w[..0] == [];
    } else {
      DecimalDigits(n / 10);
      assert w[..|w| - 1] == Digits(n / 10);
    }
  }

  lemma {:induction false} PiecesAppend(s: bytes, w: bytes)
    requires forall i | 0 <= i < |w| :: IsDigit(w[i])
    ensures Pieces(s + [DOT] + w) == Pieces(s) + [w]
    decreases |w|
  {
    var t := s + [DOT] + w;
    if w == [] {
      assert t[..|t| - 1] == s;
    } else {
      PiecesAppend(s, w[..|w| - 1]);
      assert t[..|t| - 1] == s + [DOT] + w[..|w| - 1];
      assert w == w[..|w| - 1] + [w[|w| - 1]];
    }
  }

  lemma {:induction false} PiecesOfWord(w: bytes)
    requires forall i | 0 <= i < |w| :: IsDigit(w[i])
    ensures Pieces(w) == [w]
    decreases |w|
  {
    if w != [] {
      PiecesOfWord(w[..|w| - 1]);
      assert w == w[..|w| - 1] + [w[|w| - 1]];
    }
  }

  lemma {:induction false} DottedAppend(s: bytes, w: bytes)
    requires AreDotted(s) && forall i | 0 <= i < |w| :: IsDigit(w[i])
    ensures AreDotted(s + [DOT] + w) && DOT in s + [DOT] + w
  {
    assert (s + [DOT] + w)[|s|] == DOT;
  }

  lemma {:induction false} PrintMore(front: Arcs, last: nat)
    requires front != [] && forall i | 0 <= i < |front| :: 0 <= front[i]
    requires AreDotted(Print(front)) && Named(Print(front)) == front
    ensures var s := Print(front + [last]); Named(s) == front + [last] && AreDotted(s) && DOT in s
  {
    var w, o, p := Digits(last), front + [last], Pieces(Print(front));
    assert o[..|o| - 1] == front;
    DecimalDigits(last);
    PiecesAppend(Print(front), w);
    assert forall i | 0 <= i < |p| :: (p + [w])[i] == p[i];
    DottedAppend(Print(front), w);
  }

  /** A printed OID names itself, whatever the size of its numbers. */
  lemma {:induction false} PrintedNames(o: Arcs)
    requires o != [] && forall i | 0 <= i < |o| :: 0 <= o[i]
    ensures Named(Print(o)) == o
    ensures AreDotted(Print(o)) && (|o| >= 2 ==> DOT in Print(o))
    decreases |o|
  {
    var front, last := o[..|o| - 1], o[|o| - 1];
    assert o == front + [last];
    if front == [] {
      DecimalDigits(last);
      PiecesOfWord(Digits(last));
    } else {
      PrintedNames(front);
      PrintMore(front, last);
    }
  }

  lemma {:induction false} NamedWraps(s: bytes)
    ensures Wraps(Named(s), Values(Pieces(s)))
  {
  }

  /** Parsing undoes printing, for every OID of two or more components that fit in an int. */
  lemma {:induction false} ParseUndoesPrint(o: Arcs)
    requires |o| >= 2 && forall i | 0 <= i < |o| :: 0 <= o[i] <= MAX_INT
    ensures Parsed(Print(o)) == Some(o)
  {
    PrintedNames(o);
    NamedWraps(Print(o));
    WrapsInts(o, Values(Pieces(Print(o))));
  }

  // ---- The handler ----

  const EXTENSION_REQUEST: Arcs := [1, 2, 840, 113549, 1, 9, 14]

  /** The configured strings that parse, in order. */
  function Parseable(custom: seq<bytes>): seq<Arcs>
    decreases |custom|
  {
    if custom == [] then []
    else
      Parseable(custom[..|custom| - 1])
      + match Parsed(custom[|custom| - 1]) case Some(o) => [o] case None => []
  }

  /** The OIDs the configured strings name: those of digits and dots with a dot, in order. */
  function NamedOids(custom: seq<bytes>): seq<Arcs>
    decreases |custom|
  {
    if custom == [] then []
    else
      var s := custom[|custom| - 1];
      NamedOids(custom[..|custom| - 1]) + if AreDotted(s) && DOT in s then [Named(s)] else []
  }

  /** What the handler keeps, and what it was asked to keep. */
  function Attributes(custom: seq<bytes>): seq<Arcs> {
    if custom == [] then [EXTENSION_REQUEST] else Parseable(custom)
  }

  function NamedAttributes(custom: seq<bytes>): seq<Arcs> {
    if custom == [] then [EXTENSION_REQUEST] else NamedOids(custom)
  }

  predicate AllAccepted(os: seq<Arcs>) {
    forall o | o in os :: Accepted(o)
  }

  function Elements(os: seq<Arcs>): bytes
    requires AllAccepted(os)
    decreases |os|
  {
    if os == [] then []
    else
      assert os[0] in os;
      Encode(Value(os[0])) + Elements(os[1..])
  }

  /** SEQUENCE OF OBJECT IDENTIFIER; fails when the marshaller refuses one of them. */
  function EncodeAttributes(os: seq<Arcs>): Option<bytes> {
    if AllAccepted(os) then Some(Encode(Tlv(Universal, true, 16, Elements(os)))) else None
  }

  /** The octets of the reply: a SEQUENCE of the OIDs, each with its own header. */
  lemma {:induction false} AttributesOctets(os: seq<Arcs>)
    requires AllAccepted(os)
    ensures EncodeAttributes(os) == Some([48] + (Length(|Elements(os)|) + Elements(os)))
    ensures os == [] ==> Elements(os) == []
    ensures os != [] ==>
              && os[0] in os
              && Elements(os) == ([6] + (Length(|Content(os[0])|) + Content(os[0]))) + Elements(os[1..])
  {
    IdentifierIs(Universal, true, 16);
    IdentifierIs(Universal, false, 6);
    if os != [] {
      assert os[0] in os;
    }
  }

  class CsrAttrsHandler {
    var attributes: seq<Arcs>

    constructor (custom: seq<bytes>)
      ensures attributes == Attributes(custom)
    {
      attributes := [];
      new;
      if |custom| > 0 {
        for i := 0 to |custom|
          invariant attributes == Parseable(custom[..i])
        {
          assert custom[..i + 1][..i] == custom[..i];
          var oid := ParseOid(custom[i]);
          if oid.Some? {
            attributes := attributes + [oid.value];
          }
        }
        assert custom[..|custom|] == custom;
      } else {
        attributes := [EXTENSION_REQUEST];
      }
    }

    /** The status and body of the reply. */
    method ServeHttp(isGet: bool) returns (status: nat, body: bytes)
      ensures !isGet ==> status == 405
      ensures isGet && attributes == [] ==> status == 204 && body == []
      ensures isGet && attributes != [] ==>
                status ==
                if forall o | o in attributes :: |o| >= 2 && o[0] <= 2 && (o[0] < 2 ==> o[1] < 40) then 200 else 500
      ensures (status, body) == Reply(attributes, isGet)
    {
      if !isGet {
        return 405, [];
      }
      if attributes == [] {
        return 204, [];
      }
      var der := EncodeAttributes(attributes);
      if der.None? {
        return 500, [];
      }
      return 200, Base64.Encode(der.value);
    }
  }

  /** 405, 204, 500 or 200; error texts are left out of the body. */
  function Reply(attributes: seq<Arcs>, isGet: bool): (nat, bytes) {
    if !isGet then (405, [])
    else if attributes == [] then (204, [])
    else
      match EncodeAttributes(attributes)
      case None => (500, [])
      case Some(der) => (200, Base64.Encode(der))
  }

  // ---- The client ----

  function DecodeElements(d: bytes, lim: Limits): Option<seq<Arcs>>
    decreases |d|
  {
    if d == [] then Some([])
    else
      match Read(d, lim)
      case None => None
      case Some((t, rest)) =>
        var o := if t.class' == Universal && !t.compound && t.tag == 6 then Oid.Decode(t.content, lim.arc) else None;
        var more := DecodeElements(rest, lim);
        if o.None? || more.None? then None else Some([o.value] + more.value)
  }

  /** Decodes a reply body: base64, one SEQUENCE, nothing after it, OIDs inside. */
  function Client(body: bytes, lim: Limits): Option<seq<Arcs>> {
    match Base64.Decode(body)
    case None => None
    case Some(der) =>
      match Read(der, lim)
      case None => None
      case Some((t, rest)) =>
        if t.class' == Universal && t.compound && t.tag == 16 && rest == [] then DecodeElements(t.content,
            lim) else None
  }

  predicate Survives(o: Arcs, lim: Limits) {
    WellFormed(o) && Fits(o, lim.arc)
  }

  lemma {:induction false} ElementReads(o: Arcs, rest: bytes, lim: Limits)
    requires Accepted(o) && lim.Sane() && |Content(o)| <= lim.len
    ensures var first, more := Oid.Decode(Content(o), lim.arc), DecodeElements(rest, lim);
            DecodeElements(Encode(Value(o)) + rest, lim)
            == if first.None? || more.None? then None else Some([first.value] + more.value)
  {
    EncodeReads(Value(o), rest, lim);
  }

  lemma {:induction false} ConsBackIff<T>(first: Option<T>, more: Option<seq<T>>, all: seq<T>)
    requires all != []
    ensures (if first.None? || more.None? then None else Some([first.value] + more.value)) == Some(all)
            <==> first == Some(all[0]) && more == Some(all[1..])
  {
    assert all == [all[0]] + all[1..];
    if first.Some? && more.Some? {
      assert ([first.value] + more.value)[1..] == more.value;
    }
  }

  predicate AllSurvive(ns: seq<Arcs>, lim: Limits) {
    forall n | n in ns :: Survives(n, lim)
  }

  lemma {:induction false} SurviveCons(n: Arcs, rest: seq<Arcs>, lim: Limits)
    ensures AllSurvive([n] + rest, lim) <==> Survives(n, lim) && AllSurvive(rest, lim)
  {
    assert ([n] + rest)[0] == n && forall m | m in rest :: m in [n] + rest;
  }

  predicate AllWrap(ns: seq<Arcs>, os: seq<Arcs>) {
    |os| == |ns| && forall i | 0 <= i < |ns| :: Wraps(ns[i], os[i])
  }

  lemma {:induction false} AttributesWrap(custom: seq<bytes>)
    ensures AllWrap(NamedOids(custom), Parseable(custom))
    ensures AllWrap(NamedAttributes(custom), Attributes(custom))
    decreases |custom|
  {
    if custom != [] {
      var front, s := custom[..|custom| - 1], custom[|custom| - 1];
      AttributesWrap(front);
      NamedWraps(s);
    }
  }

  lemma {:induction false} AllWrapTail(ns: seq<Arcs>, os: seq<Arcs>)
    requires AllWrap(ns, os) && ns != []
    ensures Wraps(ns[0], os[0]) && AllWrap(ns[1..], os[1..])
  {
    assert forall i | 0 <= i < |ns| - 1 :: ns[1..][i] == ns[i + 1] && os[1..][i] == os[i + 1];
  }

  /** The elements read back as the OIDs they stand for exactly when each of those survives. */
  lemma {:induction false} ElementsBackIff(ns: seq<Arcs>, os: seq<Arcs>, lim: Limits)
    requires AllAccepted(os) && AllWrap(ns, os)
    requires lim.Sane() && lim.arc <= MAX_INT && |Elements(os)| <= lim.len
    ensures DecodeElements(Elements(os), lim) == Some(ns) <==> AllSurvive(ns, lim)
    decreases |os|
  {
    if os != [] {
      var more, rest := ns[1..], os[1..];
      assert ns == [ns[0]] + more;
      AcceptedTail(os);
      AllWrapTail(ns, os);
      ElementsBackIff(more, rest, lim);
      FirstBackIff(ns[0], more, os[0], Elements(rest), lim);
      SurviveCons(ns[0], more, lim);
    }
  }

  lemma {:induction false} FirstBackIff(n: Arcs, more: seq<Arcs>, o: Arcs, rest: bytes, lim: Limits)
    requires Accepted(o) && Wraps(n, o) && lim.Sane() && lim.arc <= MAX_INT && |Content(o)| <= lim.len
    ensures DecodeElements(Encode(Value(o)) + rest, lim) == Some([n] + more)
            <==> Survives(n, lim) && DecodeElements(rest, lim) == Some(more)
  {
    ElementReads(o, rest, lim);
    NamedBackIff(n, o, lim.arc);
    ConsBackIff(Oid.Decode(Content(o), lim.arc), DecodeElements(rest, lim), [n] + more);
    assert ([n] + more)[0] == n && ([n] + more)[1..] == more;
  }

  lemma {:induction false} AcceptedTail(os: seq<Arcs>)
    requires os != [] && AllAccepted(os)
    ensures Accepted(os[0]) && AllAccepted(os[1..])
    ensures Elements(os) == Encode(Value(os[0])) + Elements(os[1..])
    ensures |Content(os[0])| <= |Elements(os)| && |Elements(os[1..])| <= |Elements(os)|
  {
    assert os[0] in os && forall o | o in os[1..] :: o in os;
  }

  /** A client with these limits can be told these OIDs: each is valid by X.690, and all fit into one reply. */
  predicate Tellable(ns: seq<Arcs>, lim: Limits) {
    && AllAccepted(ns)
    && AllSurvive(ns, lim)
    && |Elements(ns)| <= lim.len
  }

  lemma {:induction false} TellableAreKept(ns: seq<Arcs>, os: seq<Arcs>, lim: Limits)
    requires AllWrap(ns, os) && lim.arc <= MAX_INT && AllSurvive(ns, lim)
    ensures os == ns && AllAccepted(os)
  {
    forall i | 0 <= i < |ns|
      ensures os[i] == ns[i] && Accepted(ns[i])
    {
      assert ns[i] in ns;
      ValidAreInts(ns[i], lim.arc);
      WrapsInts(ns[i], os[i]);
    }
  }

  /** What the client makes of a reply whose OIDs the marshaller takes. */
  lemma {:induction false} ClientReadsElements(os: seq<Arcs>, lim: Limits)
    requires os != [] && AllAccepted(os) && lim.Sane() && |Elements(os)| <= MAX_INT
    ensures Reply(os, true).0 == 200
    ensures Client(Reply(os, true).1, lim)
            == if |Elements(os)| <= lim.len then DecodeElements(Elements(os), lim) else None
  {
    var t := Tlv(Universal, true, 16, Elements(os));
    Base64.PlainText(Encode(t));
    Base64.RoundTrip(Encode(t), Base64.Encode(Encode(t)));
    EncodeReads(t, [], lim);
    assert Encode(t) + [] == Encode(t);
  }

  /**
   End to end: the handler answers 200 and the client reads exactly the OIDs the configuration names, in their
   order, if and only if each of them is valid by X.690 and within the client's limits, and all fit into one
   reply. It answers 204 exactly when the configuration names none.
   */
  lemma {:induction false} ClientReadsAttributesIff(custom: seq<bytes>, lim: Limits)
    requires lim.Sane() && lim.arc <= MAX_INT
    requires AllAccepted(Attributes(custom)) ==> |Elements(Attributes(custom))| <= MAX_INT
    ensures var (status, body) := Reply(Attributes(custom), true);
            && (status == 204 <==> NamedAttributes(custom) == [])
            && (status == 200 && Client(body, lim) == Some(NamedAttributes(custom))
                <==> NamedAttributes(custom) != [] && Tellable(NamedAttributes(custom), lim))
  {
    AttributesWrap(custom);
    NamedReadIff(NamedAttributes(custom), Attributes(custom), lim);
  }

  lemma {:induction false} NamedReadIff(ns: seq<Arcs>, os: seq<Arcs>, lim: Limits)
    requires AllWrap(ns, os) && lim.Sane() && lim.arc <= MAX_INT
    requires AllAccepted(os) ==> |Elements(os)| <= MAX_INT
    ensures Reply(os, true).0 == 204 <==> ns == []
    ensures Reply(os, true).0 == 200 && Client(Reply(os, true).1, lim) == Some(ns) <==> ns != [] && Tellable(ns, lim)
  {
    if AllSurvive(ns, lim) {
      TellableAreKept(ns, os, lim);
    }
    if os != [] && AllAccepted(os) {
      ClientReadsElements(os, lim);
      if |Elements(os)| <= lim.len {
        ElementsBackIff(ns, os, lim);
      }
    }
  }

  /** One string that parses to what the marshaller refuses fails every reply. */
  lemma {:induction false} RefusedOidFailsAll(custom: seq<bytes>, i: nat)
    requires i < |custom| && Parsed(custom[i]).Some? && !Accepted(Parsed(custom[i]).value)
    ensures Reply(Attributes(custom), true).0 == 500
  {
    ParseableMember(custom, i);
  }

  lemma {:induction false} ParseableMember(custom: seq<bytes>, i: nat)
    requires i < |custom| && Parsed(custom[i]).Some?
    ensures Parsed(custom[i]).value in Parseable(custom)
    decreases |custom|
  {
    if i < |custom| - 1 {
      ParseableMember(custom[..|custom| - 1], i);
    }
  }

  lemma {:induction false} ArcsAreShort(o: Arcs)
    requires forall i | 0 <= i < |o| :: 0 <= o[i] <= MAX_INT
    ensures |EncodeArcs(o)| <= 9 * |o|
    decreases |o|
  {
    if o != [] {
      Base128IsShort(o[0]);
      ArcsAreShort(o[1..]);
    }
  }

  /** With nothing configured a client reads the one OID of extensionRequest. */
  lemma {:induction false} DefaultReads(lim: Limits)
    requires lim.Sane() && 113549 <= lim.arc
    ensures Client(Reply(Attributes([]), true).1, lim) == Some([[1, 2, 840, 113549, 1, 9, 14]])
  {
    var o := [1, 2, 840, 113549, 1, 9, 14];
    DefaultContent(o, lim.arc);
    OneReads(o, lim);
  }

  lemma {:induction false} DefaultContent(o: Arcs, cap: nat)
    requires o == [1, 2, 840, 113549, 1, 9, 14] && 113549 <= cap
    ensures Accepted(o) && |Content(o)| <= 100 && Oid.Decode(Content(o), cap) == Some(o)
  {
    ContentIsShort(o);
    RoundTripIff(o, cap);
  }

  lemma {:induction false} ContentIsShort(o: Arcs)
    requires 2 <= |o| <= 8 && WellFormed(o) && AreInts(o)
    ensures |Content(o)| <= 100
  {
    var first, tail := FirstArc(o), o[2..];
    assert forall i | 0 <= i < |tail| :: tail[i] == o[i + 2];
    ArcsAreShort(tail);
    WrapInt(o[0] * 40 + o[1]);
    Base128IsShort(first);
  }

  // ---- Components that do not fit in an int ----

  lemma {:induction false} OneConfigured(s: bytes, o: Arcs)
    requires Parsed(s) == Some(o)
    ensures Attributes([s]) == [o]
  {
    assert [s][..0] == [];
    assert Parseable([]) == [];
  }

  /** A reply with one short OID. */
  lemma {:induction false} OneReads(o: Arcs, lim: Limits)
    requires Accepted(o) && |Content(o)| <= 100 && lim.Sane() && Oid.Decode(Content(o), lim.arc).Some?
    ensures Client(Reply([o], true).1, lim) == Some([Oid.Decode(Content(o), lim.arc).value])
  {
    OneElement(o);
    ElementReads(o, [], lim);
    ClientReadsElements([o], lim);
    assert [Oid.Decode(Content(o), lim.arc).value] + [] == [Oid.Decode(Content(o), lim.arc).value];
  }

  lemma {:induction false} OneElement(o: Arcs)
    requires Accepted(o) && |Content(o)| <= 100
    ensures AllAccepted([o]) && Elements([o]) == Encode(Value(o)) + [] && |Elements([o])| <= 127
  {
    assert [o][1..] == [];
  }

  lemma {:induction false} OneByteArc(n: nat)
    requires n < 128
    ensures EncodeArc(n) == [n]
  {
    assert High(0) + [n] == [n];
  }

  lemma {:induction false} OneArc(n: int)
    ensures EncodeArcs([n]) == EncodeArc(n)
  {
    assert [n][1..] == [];
    assert EncodeArc(n) + [] == EncodeArc(n);
  }

  lemma {:induction false} ContentOf(last: int)
    ensures Content([1, 2, last]) == [42] + EncodeArc(last)
  {
    assert [1, 2, last][2..] == [last];
    OneArc(last);
    WrapInt(42);
    OneByteArc(42);
  }

  /** The two arcs in front of a component that vanished. */
  lemma {:induction false} ContentWithout(last: int, cap: nat)
    requires last < 0 && 42 <= cap
    ensures Oid.Decode(Content([1, 2, last]), cap) == Some([1, 2])
  {
    ContentOf(last);
    assert [42] + [] == [42];
    OneArc(42);
    OneByteArc(42);
    ArcsBack([42], cap);
    assert Split([42]) == [1, 2];
  }

  lemma {:induction false} ContentWith(last: nat, cap: nat)
    requires last <= cap <= MAX_INT && 42 <= cap
    ensures Oid.Decode(Content([1, 2, last]), cap) == Some([1, 2, last])
    ensures |Content([1, 2, last])| <= 100
  {
    RoundTripIff([1, 2, last], cap);
    ContentOf(last);
    Base128IsShort(last);
  }

  lemma {:induction false} LastArc(last: nat)
    ensures Attributes([Print([1, 2, last])]) == [[1, 2, Wrap(last)]]
  {
    var o := [1, 2, last];
    PrintedNames(o);
    NamedWraps(Print(o));
    WrapsOf(last, Values(Pieces(Print(o))));
    OneConfigured(Print(o), [1, 2, Wrap(last)]);
  }

  lemma {:induction false} WrapsOf(last: nat, v: Arcs)
    requires Wraps([1, 2, last], v)
    ensures v == [1, 2, Wrap(last)]
  {
    WrapInt(1);
    WrapInt(2);
    assert [1, 2, last][0] == 1 && [1, 2, last][1] == 2 && [1, 2, last][2] == last;
  }

  /**
   A component that does not fit in an int is never reported: 1.2.N is read without it when it wraps to a
   negative number, as from 2^63 on, and otherwise with the wrapped number, as 1.2.0 for 2^64.
   */
  lemma {:induction false} WrappedArcIsLost(last: nat, lim: Limits)
    requires last > MAX_INT && lim.Sane() && 42 <= lim.arc <= MAX_INT && Wrap(last) <= lim.arc
    ensures var read := if Wrap(last) < 0 then [1, 2] else [1, 2, Wrap(last)];
            && Client(Reply(Attributes([Print([1, 2, last])]), true).1, lim) == Some([read])
            && read != [1, 2, last]
  {
    var w := Wrap(last);
    LastArc(last);
    WrapInt(last);
    if w < 0 {
      ContentOf(w);
      ContentWithout(w, lim.arc);
    } else {
      ContentWith(w, lim.arc);
    }
    OneReads([1, 2, w], lim);
  }
}
