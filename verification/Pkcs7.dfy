/**
 pkg/est/pkcs7.go: building and parsing the certificates-only SignedData of RFC 2315 section 9.1, with the
 field rules of encoding/asn1. A certificate is its DER bytes.
 */
module Pkcs7 {
  import opened Bytes
  import opened Search
  import opened Wrappers
  import opened Der
  import Oid
  import Pem

  /** The arc of PKCS#7 and its octets. */
  const ARC: Oid.Arcs := [1, 2, 840, 113549, 1, 7]
  const ARC_OCTETS: bytes := [42, 134, 72, 134, 247, 13, 1, 7]

  const OID_SIGNED_DATA: Oid.Arcs := ARC + [2]
  const OID_DATA: Oid.Arcs := ARC + [1]

  const SIGNED_DATA: Tlv := Tlv(Universal, false, 6, ARC_OCTETS + [2])
  const DATA: Tlv := Tlv(Universal, false, 6, ARC_OCTETS + [1])
  const VERSION: Tlv := Tlv(Universal, false, 2, [1])
  const EMPTY_SET: Tlv := Tlv(Universal, true, 17, [])

  function Sequence(content: bytes): Tlv {
    Tlv(Universal, true, 16, content)
  }

  function Tagged(tag: nat, content: bytes): Tlv {
    Tlv(Context, true, tag, content)
  }

  // ---- Building ----

  function Concat(cs: seq<bytes>): bytes
    decreases |cs|
  {
    if cs == [] then [] else cs[0] + Concat(cs[1..])
  }

  lemma {:induction false} ConcatAppend(cs: seq<bytes>, c: bytes)
    ensures Concat(cs + [c]) == Concat(cs) + c
    decreases |cs|
  {
    if cs == [] {
      assert [c][1..] == [];
    } else {
      ConcatAppend(cs[1..], c);
      assert (cs + [c])[0] == cs[0] && (cs + [c])[1..] == cs[1..] + [c];
    }
  }

  lemma {:induction false} ConcatOne(c: bytes)
    ensures Concat([c]) == c
  {
    assert [c][1..] == [];
    assert c + [] == c;
  }

  function SignedData(raw: bytes): bytes {
    Encode(VERSION) + (Encode(EMPTY_SET) + (Encode(Sequence(Encode(DATA))) + (Encode(Tagged(0, raw))
        + Encode(EMPTY_SET))))
  }

  function ContentInfo(signed: bytes): bytes {
    Encode(Sequence(Encode(SIGNED_DATA) + Encode(Tagged(0, signed))))
  }

  function CertsOnly(raw: bytes): bytes {
    ContentInfo(Encode(Sequence(SignedData(raw))))
  }

  datatype Error =
    | NoCertificates | BadContentInfo | TrailingData | NotSignedData | BadSignedData | BadTlv | BadCertificate

  method CreatePkcs7CertsOnly(certs: seq<bytes>) returns (r: Result<bytes, Error>)
    ensures r == if certs == [] then Err(NoCertificates) else Ok(CertsOnly(Concat(certs)))
  {
    if |certs| == 0 {
      return Err(NoCertificates);
    }
    var rawCerts: bytes := [];
    for i := 0 to |certs|
      invariant rawCerts == Concat(certs[..i])
    {
      assert certs[..i + 1] == certs[..i] + [certs[i]];
      ConcatAppend(certs[..i], certs[i]);
      rawCerts := rawCerts + certs[i];
    }
    assert certs[..|certs|] == certs;
    return Ok(CertsOnly(rawCerts));
  }

  // ---- Reading fields as encoding/asn1 does ----

  /** A field of a fixed universal type; what is left follows it. */
  function Field(d: bytes, compound: bool, tag: nat): Option<(bytes, bytes)> {
    match Read(d, GO)
    case None => None
    case Some((t, rest)) =>
      if t.class' == Universal && t.compound == compound && t.tag == tag then Some((t.content, rest)) else None
  }

  function SequenceField(d: bytes): Option<(bytes, bytes)> {
    Field(d, true, 16)
  }

  function OidField(d: bytes): Option<(Oid.Arcs, bytes)> {
    match Field(d, false, 6)
    case None => None
    case Some((content, rest)) =>
      match Oid.Decode(content, GO.arc)
      case None => None
      case Some(o) => Some((o, rest))
  }

  /** An INTEGER of at most eight octets, minimally encoded. */
  predicate IsInt(content: bytes) {
    && 1 <= |content| <= 8
    && (|content| > 1 ==> !(content[0] == 0 && content[1] < 128) && !(content[0] == 255 && content[1] >= 128))
  }

  function IntField(d: bytes): Option<bytes> {
    match Field(d, false, 2)
    case None => None
    case Some((content, rest)) => if IsInt(content) then Some(rest) else None
  }

  /** An optional context-tagged field kept as raw bytes; absent when the next tag is another one. */
  function OptionalField(d: bytes, tag: nat): Option<(bytes, bytes)> {
    if d == [] then Some(([], []))
    else
      match ReadIdentifier(d, GO.arc)
      case None => None
      case Some((id, afterId)) =>
        match ReadLength(afterId, GO.len)
        case None => None
        case Some((n, rest)) =>
          if id.class' != Context || id.tag != tag then Some(([], d))
          else if n > |rest| then None
          else Some((rest[..n], rest[n..]))
  }

  /** The explicitly tagged Content: as above, but it must be constructed and may not end the data empty. */
  function ContentField(d: bytes): Option<(bytes, bytes)> {
    if d == [] then Some(([], []))
    else
      match ReadIdentifier(d, GO.arc)
      case None => None
      case Some((id, afterId)) =>
        match ReadLength(afterId, GO.len)
        case None => None
        case Some((n, rest)) =>
          if rest == [] then None
          else if id.class' != Context || id.tag != 0 || (n > 0 && !id.compound) then Some(([], d))
          else if n > |rest| then None
          else Some((rest[..n], rest[n..]))
  }

  /** OID and content of a ContentInfo, and what follows the SEQUENCE; data after its last field is ignored. */
  function ContentInfoField(d: bytes): Option<(Oid.Arcs, bytes, bytes)> {
    match SequenceField(d)
    case None => None
    case Some((inner, rest)) =>
      match OidField(inner)
      case None => None
      case Some((o, afterOid)) =>
        match ContentField(afterOid)
        case None => None
        case Some((content, _)) => Some((o, content, rest))
  }

  /** The certificates field of a SignedData. */
  function CertificatesOf(d: bytes): Option<bytes> {
    match SequenceField(d)
    case None => None
    case Some((inner, _)) =>
      match IntField(inner)
      case None => None
      case Some(afterVersion) =>
        match Read(afterVersion, GO)
        case None => None
        case Some((_, afterDigests)) =>
          match ContentInfoField(afterDigests)
          case None => None
          case Some((_, _, afterInfo)) =>
            match OptionalField(afterInfo, 0)
            case None => None
            case Some((certificates, afterCerts)) =>
              match OptionalField(afterCerts, 1)
              case None => None
              case Some((_, afterCrls)) => if Read(afterCrls, GO).None? then None else Some(certificates)
  }

  /** The values of the field, one by one; each must be a certificate. */
  function Certificates(d: bytes, isCert: bytes -> bool): Result<seq<bytes>, Error>
    decreases |d|
  {
    if d == [] then Ok([])
    else
      match Read(d, GO)
      case None => Err(BadTlv)
      case Some((t, rest)) =>
        var full := d[..|d| - |rest|];
        if !isCert(full) then Err(BadCertificate)
        else
          match Certificates(rest, isCert)
          case Err(e) => Err(e)
          case Ok(cs) => Ok([full] + cs)
  }

  /** The bytes that are parsed: those of the first PEM block if there is one. */
  function Unarmoured(data: bytes): bytes {
    match Pem.Decode(data) case Some(d) => d case None => data
  }

  function Parsed(data: bytes, isCert: bytes -> bool): Result<seq<bytes>, Error> {
    match ContentInfoField(Unarmoured(data))
    case None => Err(BadContentInfo)
    case Some((o, content, rest)) =>
      if rest != [] then Err(TrailingData)
      else if o != OID_SIGNED_DATA then Err(NotSignedData)
      else
        match CertificatesOf(content)
        case None => Err(BadSignedData)
        case Some(field) => Certificates(field, isCert)
  }

  method ParsePkcs7(data: bytes, isCert: bytes -> bool) returns (r: Result<seq<bytes>, Error>)
    ensures r == Parsed(data, isCert)
  {
    var der := data;
    var block := Pem.Decode(data);
    if block.Some? {
      der := block.value;
    }
    var info := ContentInfoField(der);
    if info.None? {
      return Err(BadContentInfo);
    }
    var (contentType, content, trailing) := info.value;
    if |trailing| > 0 {
      return Err(TrailingData);
    }
    if contentType != OID_SIGNED_DATA {
      return Err(NotSignedData);
    }
    var signed := CertificatesOf(content);
    if signed.None? {
      return Err(BadSignedData);
    }
    r := ParseCertificates(signed.value, isCert);
  }

  /** The loop over the certificates field. */
  method ParseCertificates(field: bytes, isCert: bytes -> bool) returns (r: Result<seq<bytes>, Error>)
    ensures r == Certificates(field, isCert)
  {
    var certs: seq<bytes> := [];
    var rest := field;
    ghost var all := Certificates(field, isCert);
    assert all.Ok? ==> [] + all.value == all.value;
    while |rest| > 0
      invariant all ==
                match Certificates(rest, isCert) case Err(e) => Err(e) case Ok(cs) => Ok(certs + cs)
      decreases |rest|
    {
      var next := Read(rest, GO);
      if next.None? {
        return Err(BadTlv);
      }
      var full := rest[..|rest| - |next.value.1|];
      if !isCert(full) {
        return Err(BadCertificate);
      }
      ghost var more := Certificates(next.value.1, isCert);
      assert more.Ok? ==> certs + ([full] + more.value) == certs + [full] + more.value;
      certs := certs + [full];
      rest := next.value.1;
    }
    assert certs + [] == certs;
    return Ok(certs);
  }

  // ---- Parsing undoes building ----

  lemma {:induction false} FieldBack(t: Tlv, rest: bytes)
    requires t.Fits(GO) && t.class' == Universal
    ensures Field(Encode(t) + rest, t.compound, t.tag) == Some((t.content, rest))
  {
    EncodeReads(t, rest, GO);
  }

  lemma {:induction false} TaggedBack(tag: nat, content: bytes, rest: bytes)
    requires |content| <= GO.len && tag < 31
    ensures OptionalField(Encode(Tagged(tag, content)) + rest, tag) == Some((content, rest))
    ensures tag == 0 && (content != [] || rest != []) ==>
              ContentField(Encode(Tagged(tag, content)) + rest) == Some((content, rest))
  {
    var t := Tagged(tag, content);
    var afterId := Length(|content|) + (content + rest);
    assert Encode(t) + rest == Identifier(Context, true, tag) + afterId;
    IdentifierReads(Ident(Context, true, tag), afterId, GO.arc);
    LengthReads(|content|, content + rest, GO.len);
    assert (content + rest)[..|content|] == content && (content + rest)[|content|..] == rest;
  }

  /** The bytes of the two content types are their OIDs. */
  lemma {:induction false} OidBytes()
    ensures Oid.Decode(SIGNED_DATA.content, GO.arc) == Some(OID_SIGNED_DATA)
    ensures Oid.Decode(DATA.content, GO.arc) == Some(OID_DATA)
  {
    OidBytesOf(1);
    OidBytesOf(2);
  }

  lemma {:induction false} ArcsCons(x: nat, o: Oid.Arcs, digits: bytes)
    requires Base128(x) == digits
    ensures Oid.EncodeArcs([x] + o) == digits + Oid.EncodeArcs(o)
  {
    assert ([x] + o)[1..] == o;
  }

  lemma {:induction false} LongArcs()
    ensures Base128(840) == [134, 72] && Base128(113549) == [134, 247, 13]
  {
    assert High(6) == High(0) + [134] == [134];
    assert High(887) == High(6) + [247] == [134, 247];
  }

  lemma {:induction false} EncodeConcat(a: Oid.Arcs, b: Oid.Arcs)
    ensures Oid.EncodeArcs(a + b) == Oid.EncodeArcs(a) + Oid.EncodeArcs(b)
    decreases |a|
  {
    if a == [] {
      assert a + b == b;
    } else {
      assert (a + b)[0] == a[0];
      assert (a + b)[1..] == a[1..] + b;
      EncodeConcat(a[1..], b);
      var first, x, y := Oid.EncodeArc(a[0]), Oid.EncodeArcs(a[1..]), Oid.EncodeArcs(b);
      assert first + (x + y) == (first + x) + y;
    }
  }

  lemma {:induction false} OneByte(n: nat)
    requires n < 128
    ensures Oid.EncodeArcs([n]) == [n]
  {
    ArcsCons(n, [], [n]);
    assert [n] + [] == [n];
  }

  lemma {:induction false} LongTail()
    ensures Oid.EncodeArcs([840, 113549]) == [134, 72, 134, 247, 13]
  {
    LongArcs();
    ArcsCons(113549, [], [134, 247, 13]);
    assert [134, 247, 13] + [] == [134, 247, 13];
    ArcsCons(840, [113549], [134, 72]);
    assert [840] + [113549] == [840, 113549];
    assert [134, 72] + [134, 247, 13] == [134, 72, 134, 247, 13];
  }

  lemma {:induction false} ShortTail()
    ensures Oid.EncodeArcs([1, 7]) == [1, 7]
  {
    OneByte(1);
    OneByte(7);
    EncodeConcat([1], [7]);
    assert [1] + [7] == [1, 7];
  }

  /** The arc as the numbers it is encoded by: the first stands for 1.2. */
  lemma {:induction false} ArcOctets()
    ensures Oid.EncodeArcs([42] + ([840, 113549] + [1, 7])) == ARC_OCTETS
  {
    OneByte(42);
    LongTail();
    ShortTail();
    EncodeConcat([840, 113549], [1, 7]);
    EncodeConcat([42], [840, 113549] + [1, 7]);
    assert [134, 72, 134, 247, 13] + [1, 7] == [134, 72, 134, 247, 13, 1, 7];
    assert [42] + [134, 72, 134, 247, 13, 1, 7] == ARC_OCTETS;
  }

  lemma {:induction false} SplitArc(last: nat)
    ensures Oid.Split(([42] + ([840, 113549] + [1, 7])) + [last]) == ARC + [last]
  {
    var tail := [840, 113549] + [1, 7];
    var o := ([42] + tail) + [last];
    assert o[1..] == tail + [last];
    assert [1, 2] + (tail + [last]) == ARC + [last];
  }

  lemma {:induction false} OidBytesOf(last: nat)
    requires last < 128
    ensures Oid.Decode(ARC_OCTETS + [last], GO.arc) == Some(ARC + [last])
  {
    var numbers := [42] + ([840, 113549] + [1, 7]);
    ArcOctets();
    OneByte(last);
    EncodeConcat(numbers, [last]);
    OidFrom(numbers + [last], ARC_OCTETS + [last]);
    SplitArc(last);
  }

  lemma {:induction false} OidFrom(o: Oid.Arcs, d: bytes)
    requires o != [] && Oid.EncodeArcs(o) == d && forall i | 0 <= i < |o| :: 0 <= o[i] <= GO.arc
    ensures Oid.Decode(d, GO.arc) == Some(Oid.Split(o))
  {
    Oid.ArcsBack(o, GO.arc);
  }

  lemma {:induction false} VersionBack(rest: bytes)
    ensures IntField(Encode(VERSION) + rest) == Some(rest)
  {
    FieldBack(VERSION, rest);
  }

  lemma {:induction false} DigestsBack(rest: bytes)
    ensures Read(Encode(EMPTY_SET) + rest, GO) == Some((EMPTY_SET, rest))
  {
    EncodeReads(EMPTY_SET, rest, GO);
  }

  lemma {:induction false} SequenceBack(content: bytes)
    requires |content| <= GO.len
    ensures SequenceField(Encode(Sequence(content))) == Some((content, []))
  {
    assert Encode(Sequence(content)) + [] == Encode(Sequence(content));
    FieldBack(Sequence(content), []);
  }

  /** The stages of reading SignedData put together. */
  lemma {:induction false} Stages(d: bytes, inner: bytes, a1: bytes, a2: bytes, a3: bytes, a4: bytes, field: bytes)
    requires SequenceField(d) == Some((inner, [])) && IntField(inner) == Some(a1)
    requires Read(a1, GO) == Some((EMPTY_SET, a2)) && ContentInfoField(a2) == Some((OID_DATA, [], a3))
    requires OptionalField(a3, 0) == Some((field, a4)) && OptionalField(a4, 1) == Some(([], a4)) && Read(a4, GO).Some?
    ensures CertificatesOf(d) == Some(field)
  {
  }

  lemma {:induction false} SignedDataBack(raw: bytes)
    requires |SignedData(raw)| <= GO.len
    ensures CertificatesOf(Encode(Sequence(SignedData(raw)))) == Some(raw)
  {
    var end := Encode(EMPTY_SET);
    var tagged := Encode(Tagged(0, raw));
    var a3 := tagged + end;
    var a2 := Encode(Sequence(Encode(DATA))) + a3;
    var a1 := Encode(EMPTY_SET) + a2;
    assert SignedData(raw) == Encode(VERSION) + a1;
    assert |raw| <= |tagged| <= |a3| <= |a2| <= |a1|;
    SequenceBack(SignedData(raw));
    VersionBack(a1);
    DigestsBack(a2);
    InfoBack(a3);
    TaggedBack(0, raw, end);
    EndBack();
    Stages(Encode(Sequence(SignedData(raw))), SignedData(raw), a1, a2, a3, end, raw);
  }

  lemma {:induction false} DataOidBack()
    ensures OidField(Encode(DATA)) == Some((OID_DATA, []))
  {
    OidBytes();
    assert Encode(DATA) + [] == Encode(DATA);
    FieldBack(DATA, []);
  }

  /** The inner ContentInfo has no content. */
  lemma {:induction false} InfoBack(rest: bytes)
    ensures ContentInfoField(Encode(Sequence(Encode(DATA))) + rest) == Some((OID_DATA, [], rest))
  {
    DataOidBack();
    FieldBack(Sequence(Encode(DATA)), rest);
  }

  /** After the certificates: no CRLs, and the empty set of signers. */
  lemma {:induction false} EndBack()
    ensures OptionalField(Encode(EMPTY_SET), 1) == Some(([], Encode(EMPTY_SET)))
    ensures Read(Encode(EMPTY_SET), GO).Some?
  {
    assert Encode(EMPTY_SET) + [] == Encode(EMPTY_SET);
    EncodeReads(EMPTY_SET, [], GO);
    var afterId := Length(0) + [];
    assert Encode(EMPTY_SET) == Identifier(Universal, true, 17) + afterId;
    IdentifierReads(Ident(Universal, true, 17), afterId, GO.arc);
  }

  /** The bytes of the outer SEQUENCE: what the length limit of encoding/asn1 applies to. */
  function Body(raw: bytes): bytes {
    Encode(SIGNED_DATA) + Encode(Tagged(0, Encode(Sequence(SignedData(raw)))))
  }

  lemma {:induction false} OuterStages(d: bytes, body: bytes, after: bytes, content: bytes)
    requires SequenceField(d) == Some((body, [])) && OidField(body) == Some((OID_SIGNED_DATA, after))
    requires ContentField(after) == Some((content, []))
    ensures ContentInfoField(d) == Some((OID_SIGNED_DATA, content, []))
  {
  }

  lemma {:induction false} SignedOidBack(rest: bytes)
    ensures OidField(Encode(SIGNED_DATA) + rest) == Some((OID_SIGNED_DATA, rest))
  {
    OidBytes();
    FieldBack(SIGNED_DATA, rest);
  }

  lemma {:induction false} TooLong(content: bytes)
    requires GO.len < |content| <= MAX_INT
    ensures SequenceField(Encode(Sequence(content))).None?
  {
    assert Encode(Sequence(content)) + [] == Encode(Sequence(content));
    EncodeReads(Sequence(content), [], GO);
  }

  lemma {:induction false} StructureBack(raw: bytes)
    requires |Body(raw)| <= MAX_INT
    ensures ContentInfoField(CertsOnly(raw))
            == if |Body(raw)| <= GO.len then Some((OID_SIGNED_DATA, Encode(Sequence(SignedData(raw))), [])) else None
    ensures |Body(raw)| <= GO.len ==> CertificatesOf(Encode(Sequence(SignedData(raw)))) == Some(raw)
  {
    var signed := Encode(Sequence(SignedData(raw)));
    var tagged := Encode(Tagged(0, signed));
    assert Body(raw) == Encode(SIGNED_DATA) + tagged;
    if |Body(raw)| <= GO.len {
      assert |SignedData(raw)| <= |signed| <= |tagged|;
      SequenceBack(Body(raw));
      SignedOidBack(tagged);
      assert tagged + [] == tagged;
      TaggedBack(0, signed, []);
      OuterStages(CertsOnly(raw), Body(raw), tagged, signed);
      SignedDataBack(raw);
    } else {
      TooLong(Body(raw));
    }
  }

  /** An X.509 certificate is one SEQUENCE, here without PEM armour inside. */
  ghost predicate IsCertificate(c: bytes) {
    (exists content :: |content| <= GO.len && c == Encode(Sequence(content))) && !Contains(c, Pem.BEGIN)
  }

  lemma {:induction false} CertificatesBack(cs: seq<bytes>, isCert: bytes -> bool)
    requires forall c | c in cs :: IsCertificate(c) && isCert(c)
    ensures Certificates(Concat(cs), isCert) == Ok(cs)
    decreases |cs|
  {
    if cs != [] {
      assert IsCertificate(cs[0]) && cs == [cs[0]] + cs[1..];
      CertificatesBack(cs[1..], isCert);
      OneCertificate(cs[0], Concat(cs[1..]), isCert);
    }
  }

  lemma {:induction false} OneCertificate(c: bytes, rest: bytes, isCert: bytes -> bool)
    requires IsCertificate(c) && isCert(c) && Certificates(rest, isCert).Ok?
    ensures Certificates(c + rest, isCert) == Ok([c] + Certificates(rest, isCert).value)
  {
    var content :| |content| <= GO.len && c == Encode(Sequence(content));
    EncodeReads(Sequence(content), rest, GO);
    assert (c + rest)[..|c + rest| - |rest|] == c;
  }

  // ---- The octets ----

  /** The lead octet, the length and the content of a value. */
  function Wrapped(lead: byte, content: bytes): bytes {
    [lead] + (Length(|content|) + content)
  }

  lemma {:induction false} WrappedIs(t: Tlv, lead: byte)
    requires t.tag < 31
    requires lead == (match t.class' case Universal => 0 case Application => 64 case Context => 128 case Private => 192)
                     + (if t.compound then 32 else 0) + t.tag
    ensures Encode(t) == Wrapped(lead, t.content)
  {
    IdentifierIs(t.class', t.compound, t.tag);
  }

  /** The fields of SignedData: version 1, no digests, type data, the certificates under [0], no signers. */
  function SignedDataOctets(raw: bytes): bytes {
    [2, 1, 1] + ([49, 0] + ([48, 11, 6, 9, 42, 134, 72, 134, 247, 13, 1, 7, 1] + (Wrapped(160, raw) + [49, 0])))
  }

  /** The whole structure, octet by octet. */
  function CertsOnlyOctets(raw: bytes): bytes {
    Wrapped(48, ([6, 9, 42, 134, 72, 134, 247, 13, 1, 7] + [2]) + Wrapped(160, Wrapped(48, SignedDataOctets(raw))))
  }

  /** What is built has exactly these octets: section 9.1 of RFC 2315. */
  lemma {:induction false} BuiltOctets(raw: bytes)
    ensures CertsOnly(raw) == CertsOnlyOctets(raw)
  {
    FixedFields();
    DataField();
    OidOctets(2);
    WrappedIs(Tagged(0, raw), 160);
    assert SignedData(raw) == SignedDataOctets(raw);
    WrappedIs(Sequence(SignedData(raw)), 48);
    WrappedIs(Tagged(0, Encode(Sequence(SignedData(raw)))), 160);
    WrappedIs(Sequence(Body(raw)), 48);
  }

  /** A structure of these octets around certificates is accepted and gives them back. */
  lemma {:induction false} OctetsParse(cs: seq<bytes>, isCert: bytes -> bool)
    requires cs != [] && forall c | c in cs :: IsCertificate(c) && isCert(c)
    requires |Body(Concat(cs))| <= GO.len
    ensures Parsed(CertsOnlyOctets(Concat(cs)), isCert) == Ok(cs)
  {
    BuiltOctets(Concat(cs));
    ParseUndoesCreate(cs, isCert);
  }

  // ---- Nothing built looks like PEM ----

  ghost predicate Clean(d: bytes) {
    !Contains(d, Pem.BEGIN)
  }

  /** A byte that is not part of the armour line. */
  predicate Foreign(x: byte) {
    x == 48 || x == 49 || x == 2 || x == 6
  }

  lemma {:induction false} ForeignBytes(x: byte)
    requires Foreign(x)
    ensures x !in Pem.BEGIN
  {
    assert forall k | 0 <= k < |Pem.BEGIN| :: Pem.BEGIN[k] != x;
  }

  /** A few bytes before a foreign byte do not add armour. */
  lemma {:induction false} CleanBehind(a: bytes, d: bytes)
    requires Clean(d) && |a| < |Pem.BEGIN| && d != [] && Foreign(d[0])
    ensures Clean(a + d)
  {
    CleanJoin(a, d) by {
      ShortContainsNothing(a, Pem.BEGIN);
    }
  }

  lemma {:induction false} CleanJoin(a: bytes, d: bytes)
    requires Clean(a) && Clean(d) && d != [] && Foreign(d[0])
    ensures Clean(a + d)
  {
    ForeignBytes(d[0]);
    assert d == [d[0]] + d[1..];
    if Contains(d[1..], Pem.BEGIN) {
      SuffixContains([d[0]], d[1..], Pem.BEGIN);
    }
    Barrier(a, d[0], d[1..], Pem.BEGIN);
    assert a + [d[0]] + d[1..] == a + d;
  }

  lemma {:induction false} CleanConcat(cs: seq<bytes>, tail: bytes)
    requires forall c | c in cs :: IsCertificate(c)
    requires Clean(tail) && tail != [] && Foreign(tail[0])
    ensures Clean(Concat(cs) + tail) && Concat(cs) + tail != [] && Foreign((Concat(cs) + tail)[0])
    decreases |cs|
  {
    if cs == [] {
      assert Concat(cs) + tail == tail;
    } else {
      CleanConcat(cs[1..], tail);
      assert IsCertificate(cs[0]);
      CleanJoin(cs[0], Concat(cs[1..]) + tail);
      assert Concat(cs) + tail == cs[0] + (Concat(cs[1..]) + tail);
      assert cs[0][0] == 48;
    }
  }

  lemma {:induction false} LengthIsShort(n: nat)
    requires n <= MAX_INT
    ensures |Length(n)| <= 9
  {
    LengthOctetsFit(n);
  }

  /** One header of at most two bytes and a length in front of content that begins with a foreign byte. */
  lemma {:induction false} CleanHeader(head: bytes, n: nat, d: bytes)
    requires |head| == 1 && n <= MAX_INT && Clean(d) && d != [] && Foreign(d[0])
    ensures Clean(head + (Length(n) + d))
  {
    LengthIsShort(n);
    assert head + (Length(n) + d) == (head + Length(n)) + d;
    CleanBehind(head + Length(n), d);
  }

  predicate StartsForeign(d: bytes) {
    d != [] && Foreign(d[0])
  }

  lemma {:induction false} CleanSequence(d: bytes)
    requires Clean(d) && StartsForeign(d) && |d| <= MAX_INT
    ensures Clean(Encode(Sequence(d))) && StartsForeign(Encode(Sequence(d)))
  {
    CleanHeader([48], |d|, d);
    assert Encode(Sequence(d)) == [48] + (Length(|d|) + d);
  }

  lemma {:induction false} CleanTagged(d: bytes, tail: bytes)
    requires Clean(d + tail) && StartsForeign(d + tail) && |d| <= MAX_INT
    ensures Clean(Encode(Tagged(0, d)) + tail)
  {
    CleanHeader([160], |d|, d + tail);
    assert Encode(Tagged(0, d)) + tail == [160] + (Length(|d|) + (d + tail));
  }

  lemma {:induction false} FixedFields()
    ensures Encode(EMPTY_SET) == [49, 0] && Encode(VERSION) == [2, 1, 1]
  {
  }

  lemma {:induction false} OidOctets(last: byte)
    ensures Encode(Tlv(Universal, false, 6, ARC_OCTETS + [last])) == [6, 9, 42, 134, 72, 134, 247, 13, 1, 7] + [last]
  {
    assert [6] + ([9] + (ARC_OCTETS + [last])) == [6, 9, 42, 134, 72, 134, 247, 13, 1, 7] + [last];
  }

  lemma {:induction false} DataField()
    ensures Encode(Sequence(Encode(DATA))) == [48, 11, 6, 9, 42, 134, 72, 134, 247, 13, 1, 7, 1]
  {
    OidOctets(1);
    var d := [6, 9, 42, 134, 72, 134, 247, 13, 1, 7] + [1];
    assert [48] + ([11] + d) == [48, 11, 6, 9, 42, 134, 72, 134, 247, 13, 1, 7, 1];
  }

  lemma {:induction false} CleanSignedData(cs: seq<bytes>)
    requires forall c | c in cs :: IsCertificate(c)
    requires |Concat(cs)| <= MAX_INT
    ensures Clean(SignedData(Concat(cs))) && StartsForeign(SignedData(Concat(cs)))
  {
    var raw, end := Concat(cs), Encode(EMPTY_SET);
    FixedFields();
    DataField();
    ShortContainsNothing(end, Pem.BEGIN);
    CleanConcat(cs, end);
    CleanTagged(raw, end);
    var certs := Encode(Tagged(0, raw)) + end;
    var info := Encode(Sequence(Encode(DATA)));
    CleanInfo(certs);
    CleanBehind([2, 1, 1, 49, 0], info + certs);
    assert [2, 1, 1] + ([49, 0] + (info + certs)) == [2, 1, 1, 49, 0] + (info + certs);
  }

  lemma {:induction false} CleanBuilt(cs: seq<bytes>)
    requires forall c | c in cs :: IsCertificate(c)
    requires |Body(Concat(cs))| <= MAX_INT
    ensures Clean(CertsOnly(Concat(cs)))
  {
    var raw := Concat(cs);
    var signed := Encode(Sequence(SignedData(raw)));
    var tagged := Encode(Tagged(0, signed));
    assert Body(raw) == Encode(SIGNED_DATA) + tagged;
    assert |raw| <= |SignedData(raw)| <= |signed| <= |tagged| <= |Body(raw)|;
    CleanSignedData(cs);
    CleanSequence(SignedData(raw));
    assert signed + [] == signed && tagged + [] == tagged;
    CleanTagged(signed, []);
    CleanOid(tagged);
    assert StartsForeign(Body(raw)) by {
      assert Encode(SIGNED_DATA)[0] == 6;
    }
    CleanSequence(Body(raw));
  }

  lemma {:induction false} CleanInfo(d: bytes)
    requires Clean(d)
    ensures Clean([48, 11, 6, 9, 42, 134, 72, 134, 247, 13, 1, 7, 1] + d)
  {
    ForeignBytes(6);
    ForeignBytes(48);
    assert 1 !in Pem.BEGIN;
    ShortContainsNothing([42, 134, 72, 134, 247, 13, 1, 7], Pem.BEGIN);
    Barrier([42, 134, 72, 134, 247, 13, 1, 7], 1, d, Pem.BEGIN);
    var d1 := [42, 134, 72, 134, 247, 13, 1, 7] + [1] + d;
    ShortContainsNothing([48, 11], Pem.BEGIN);
    ShortContainsNothing([48, 11, 6], Pem.BEGIN);
    assert 9 !in Pem.BEGIN;
    Barrier([48, 11, 6], 9, d1, Pem.BEGIN);
    assert [48, 11, 6] + [9] + d1 == [48, 11, 6, 9, 42, 134, 72, 134, 247, 13, 1, 7, 1] + d;
  }

  lemma {:induction false} CleanOid(d: bytes)
    requires Clean(d)
    ensures Clean(Encode(SIGNED_DATA) + d)
  {
    OidOctets(2);
    assert Encode(SIGNED_DATA) == [6, 9, 42, 134, 72, 134, 247, 13, 1, 7] + [2];
    ForeignBytes(2);
    assert 9 !in Pem.BEGIN;
    ShortContainsNothing([42, 134, 72, 134, 247, 13, 1, 7], Pem.BEGIN);
    Barrier([42, 134, 72, 134, 247, 13, 1, 7], 2, d, Pem.BEGIN);
    var d1 := [42, 134, 72, 134, 247, 13, 1, 7] + [2] + d;
    ShortContainsNothing([6], Pem.BEGIN);
    Barrier([6], 9, d1, Pem.BEGIN);
    assert [6] + [9] + d1 == ([6, 9, 42, 134, 72, 134, 247, 13, 1, 7] + [2]) + d;
  }

  /**
   Parsing undoes building, in order, for every non-empty list of certificates, exactly when the structure
   is within the 31-bit lengths that encoding/asn1 reads.
   */
  lemma {:induction false} ParseUndoesCreate(cs: seq<bytes>, isCert: bytes -> bool)
    requires cs != [] && forall c | c in cs :: IsCertificate(c) && isCert(c)
    requires |Body(Concat(cs))| <= MAX_INT
    ensures Parsed(CertsOnly(Concat(cs)), isCert) == Ok(cs) <==> |Body(Concat(cs))| <= GO.len
  {
    CleanBuilt(cs);
    Pem.NoArmour(CertsOnly(Concat(cs)));
    StructureBack(Concat(cs));
    if |Body(Concat(cs))| <= GO.len {
      CertificatesBack(cs, isCert);
    }
  }

  // ---- What an accepted input consists of ----

  /**
   The pieces of an accepted structure. The extras are bytes that encoding/asn1 ignores after the last
   field of a SEQUENCE; nothing of the kind is possible after the outer one.
   */
  datatype Outer = Outer(oid: bytes, content: Tlv, extra: bytes) {
    /** der is one ContentInfo of type SignedData with this content and nothing behind it. */
    ghost predicate Describes(der: bytes) {
      && der == Encode(Sequence(Encode(Tlv(Universal, false, 6, oid)) + (Encode(content) + extra)))
      && Oid.Decode(oid, GO.arc) == Some(OID_SIGNED_DATA)
      && content.class' == Context && content.tag == 0
    }
  }

  datatype Inner = Inner(version: bytes, digests: Tlv, info: bytes, afterInfo: bytes, extra: bytes) {
    /** d begins with one SignedData whose certificates field is field. */
    ghost predicate Describes(d: bytes, field: bytes) {
      && d == Encode(Sequence(Encode(Tlv(Universal, false, 2, version))
                              + (Encode(digests) + (Encode(Sequence(info)) + afterInfo)))) + extra
      && IsInt(version)
      && (field != [] ==> exists f: Tlv, rest ::
            f.class' == Context && f.tag == 0 && f.content == field && afterInfo == Encode(f) + rest)
    }
  }

  lemma {:induction false} FieldShape(d: bytes, compound: bool, tag: nat)
    requires Field(d, compound, tag).Some?
    ensures var (content, rest) := Field(d, compound, tag).value;
            d == Encode(Tlv(Universal, compound, tag, content)) + rest
  {
    ReadIsEncode(d, GO);
  }

  lemma {:induction false} TaggedShape(d: bytes, tag: nat, content: bytes, rest: bytes) returns (t: Tlv)
    requires content != []
    requires OptionalField(d, tag) == Some((content, rest)) || (tag == 0 && ContentField(d) == Some((content, rest)))
    ensures t.class' == Context && t.tag == tag && t.content == content && d == Encode(t) + rest
  {
    t := Read(d, GO).value.0;
    ReadIsEncode(d, GO);
  }

  lemma {:induction false} CertificatesShape(d: bytes, isCert: bytes -> bool)
    requires Certificates(d, isCert).Ok?
    ensures Concat(Certificates(d, isCert).value) == d
    ensures forall c | c in Certificates(d, isCert).value :: isCert(c) && Read(c, GO).Some? && Read(c, GO).value.1 == []
    decreases |d|
  {
    if d != [] {
      var (t, rest) := Read(d, GO).value;
      ReadIsEncode(d, GO);
      EncodeReads(t, [], GO);
      assert Encode(t) + [] == Encode(t) == d[..|d| - |rest|];
      CertificatesShape(rest, isCert);
      var cs := Certificates(d, isCert).value;
      assert cs[0] == Encode(t) && cs[1..] == Certificates(rest, isCert).value;
    }
  }

  lemma {:induction false} OuterShape(der: bytes) returns (o: Outer)
    requires ContentInfoField(der).Some? && ContentInfoField(der).value.0 == OID_SIGNED_DATA
    requires ContentInfoField(der).value.1 != [] && ContentInfoField(der).value.2 == []
    ensures o.Describes(der) && o.content.content == ContentInfoField(der).value.1
  {
    var body := SequenceField(der).value.0;
    FieldShape(der, true, 16);
    assert Encode(Sequence(body)) + [] == Encode(Sequence(body));
    var (oid, afterOid) := Field(body, false, 6).value;
    FieldShape(body, false, 6);
    var (content, extra) := ContentField(afterOid).value;
    var t := TaggedShape(afterOid, 0, content, extra);
    o := Outer(oid, t, extra);
  }

  lemma {:induction false} InnerShape(d: bytes) returns (s: Inner)
    requires CertificatesOf(d).Some?
    ensures s.Describes(d, CertificatesOf(d).value)
  {
    var (signed, extra) := SequenceField(d).value;
    FieldShape(d, true, 16);
    var (version, a1) := Field(signed, false, 2).value;
    FieldShape(signed, false, 2);
    var (digests, a2) := Read(a1, GO).value;
    ReadIsEncode(a1, GO);
    var (info, a3) := SequenceField(a2).value;
    FieldShape(a2, true, 16);
    s := Inner(version, digests, info, a3, extra);
    var (field, a4) := OptionalField(a3, 0).value;
    if field != [] {
      var f := TaggedShape(a3, 0, field, a4);
    }
  }

  /** What the stages of an accepted parse returned. */
  lemma {:induction false} ParsedStages(data: bytes, isCert: bytes -> bool)
    requires Parsed(data, isCert).Ok?
    ensures var info := ContentInfoField(Unarmoured(data));
            && info.Some? && info.value.0 == OID_SIGNED_DATA && info.value.1 != [] && info.value.2 == []
            && CertificatesOf(info.value.1).Some?
            && Certificates(CertificatesOf(info.value.1).value, isCert) == Parsed(data, isCert)
  {
    assert SequenceField([]).None?;
  }

  /**
   Every accepted input is one ContentInfo with nothing behind it; the certificates returned are single
   values whose bytes, put together, are exactly the certificates field.
   */
  lemma {:induction false} ParsedShape(data: bytes, isCert: bytes -> bool) returns (o: Outer, s: Inner)
    requires Parsed(data, isCert).Ok?
    ensures var cs := Parsed(data, isCert).value;
            && o.Describes(Unarmoured(data)) && s.Describes(o.content.content, Concat(cs))
            && forall c | c in cs :: isCert(c) && Read(c, GO).Some? && Read(c, GO).value.1 == []
  {
    ParsedStages(data, isCert);
    var content := ContentInfoField(Unarmoured(data)).value.1;
    var field := CertificatesOf(content).value;
    CertificatesShape(field, isCert);
    o := OuterShape(Unarmoured(data));
    s := InnerShape(content);
    var cs := Parsed(data, isCert).value;
    assert Concat(cs) == field;
  }
}
