/**
 pkg/handlers/serverkeygen.go: encoding the generated private key and the multipart reply of RFC 7030
 section 4.4.2. AES-GCM and RSA-OAEP are given functions with stated inverses; random bytes are inputs.
 */
module ServerKeyGen {
  import opened Bytes
  import opened Search
  import opened Wrappers
  import Base64
  import Pem
  import Pkcs7

  // ---- The private key ----

  /** The client's public key: only RSA can receive a password. */
  datatype ClientKey = Rsa(key: bytes) | OtherKey

  /**
   seal and open take key, nonce and text; wrap and unwrap are RSA-OAEP under a public key and with its
   private one.
   */
  datatype Crypto = Crypto(
    seal: (bytes, bytes, bytes) -> bytes,
    open: (bytes, bytes, bytes) -> Option<bytes>,
    wrap: (bytes, bytes) -> Option<bytes>,
    unwrap: (bytes, bytes) -> Option<bytes>)

  /** Opening undoes sealing, unwrapping undoes wrapping, and a wrapped password is not empty. */
  ghost predicate Inverse(c: Crypto) {
    && (forall key, nonce, d :: c.open(key, nonce, c.seal(key, nonce, d)) == Some(d))
    && (forall pub, d | c.wrap(pub, d).Some? ::
          c.wrap(pub, d).value != [] && c.unwrap(pub, c.wrap(pub, d).value) == Some(d))
  }

  const AES_KEY_SIZE := 32
  const NONCE_SIZE := 12
  const KEY_KIND: bytes := Ascii("ENCRYPTED PRIVATE KEY")
  const KEY_HEADER: bytes := Ascii("Encryption: AES-256-GCM")

  predicate IsAesKey(key: bytes) {
    |key| == 16 || |key| == 24 || |key| == 32
  }

  function EncryptWithAesGcm(c: Crypto, data: bytes, key: bytes, nonce: bytes): Option<bytes> {
    if !IsAesKey(key) then None else Some(nonce + c.seal(key, nonce, data))
  }

  function DecryptWithAesGcm(c: Crypto, text: bytes, key: bytes): Option<bytes> {
    if !IsAesKey(key) || |text| < NONCE_SIZE then None
    else c.open(key, text[..NONCE_SIZE], text[NONCE_SIZE..])
  }

  lemma {:induction false} DecryptUndoesEncrypt(c: Crypto, data: bytes, key: bytes, nonce: bytes)
    requires Inverse(c) && IsAesKey(key) && |nonce| == NONCE_SIZE
    ensures EncryptWithAesGcm(c, data, key, nonce).Some?
    ensures DecryptWithAesGcm(c, EncryptWithAesGcm(c, data, key, nonce).value, key) == Some(data)
  {
    var text := nonce + c.seal(key, nonce, data);
    assert text[..NONCE_SIZE] == nonce && text[NONCE_SIZE..] == c.seal(key, nonce, data);
  }

  datatype EncryptedPrivateKey = EncryptedPrivateKey(keyDer: bytes, password: bytes, passwordEncrypted: bool)

  datatype KeyError = MarshalFailed | NoClientCertificate | NotRsa | NoRandomness | EncryptFailed | WrapFailed

  /** random yields the password and the nonce, or fails. */
  datatype Random = Random(password: Option<bytes>, nonce: Option<bytes>) {
    predicate Sized() {
      && (password.Some? ==> |password.value| == 32)
      && (nonce.Some? ==> |nonce.value| == 12)
    }
  }

  method EncodePrivateKey(c: Crypto, pkcs8: Option<bytes>, encrypt: bool, client: Option<ClientKey>, random: Random)
    returns (r: Result<EncryptedPrivateKey, KeyError>)
    requires random.Sized()
    ensures pkcs8.None? ==> r == Err(MarshalFailed)
    ensures pkcs8.Some? && !encrypt ==> r == Ok(EncryptedPrivateKey(pkcs8.value, [], false))
    ensures pkcs8.Some? && encrypt && client.None? ==> r == Err(NoClientCertificate)
    ensures pkcs8.Some? && encrypt && client.Some? && client.value.OtherKey? ==> r == Err(NotRsa)
    ensures pkcs8.Some? && encrypt && client.Some? && client.value.Rsa? ==>
              && (r.Ok? <==>
                    && random.password.Some? && random.nonce.Some?
                    && c.wrap(client.value.key, random.password.value).Some?)
              && (r == Err(NoRandomness) <==> random.password.None?)
              && (r == Err(EncryptFailed) <==> random.password.Some? && random.nonce.None?)
              && (r.Err? ==> r.error in {NoRandomness, EncryptFailed, WrapFailed})
    ensures r.Ok? && encrypt ==>
              && r.value.passwordEncrypted
              && c.wrap(client.value.key, random.password.value) == Some(r.value.password)
              && var sealed := c.seal(random.password.value, random.nonce.value, pkcs8.value);
                 r.value.keyDer == Pem.Encode(Ascii("ENCRYPTED PRIVATE KEY"), Ascii("Encryption: AES-256-GCM"),
                                              random.nonce.value + sealed)
  {
    if pkcs8.None? {
      return Err(MarshalFailed);
    }
    var result := EncryptedPrivateKey([], [], false);
    if !encrypt {
      result := result.(keyDer := pkcs8.value);
      return Ok(result);
    }
    if client.None? {
      return Err(NoClientCertificate);
    }
    if !client.value.Rsa? {
      return Err(NotRsa);
    }
    if random.password.None? {
      return Err(NoRandomness);
    }
    var password := random.password.value;
    if random.nonce.None? {
      return Err(EncryptFailed);
    }
    var sealed := EncryptWithAesGcm(c, pkcs8.value, password, random.nonce.value);
    if sealed.None? {
      return Err(EncryptFailed);
    }
    result := result.(keyDer := Pem.Encode(KEY_KIND, KEY_HEADER, sealed.value));
    var wrapped := c.wrap(client.value.key, password);
    if wrapped.None? {
      return Err(WrapFailed);
    }
    result := result.(password := wrapped.value, passwordEncrypted := true);
    return Ok(result);
  }

  // ---- The multipart reply ----

  const BOUNDARY := "EstServerKeyGenBoundary"
  const DELIMITER: bytes := Ascii("--" + BOUNDARY)
  const CLOSING: bytes := Ascii("--" + BOUNDARY + "--")
  const CERT_TYPE: bytes := Ascii("Content-Type: application/pkcs7-mime; smime-type=certs-only")
  const PLAIN_KEY_TYPE: bytes := Ascii("Content-Type: application/pkcs8")
  const ENCRYPTED_KEY_TYPE: bytes := Ascii("Content-Type: application/pkcs8-encrypted")
  const PASSWORD_TYPE: bytes := Ascii("Content-Type: application/octet-stream")
  const PASSWORD_DESCRIPTION: bytes := Ascii("Content-Description: encrypted-key-password")
  const BASE64_ENCODING: bytes := Ascii("Content-Transfer-Encoding: base64")

  /** Lines, each ended by LF. */
  function Text(lines: seq<bytes>): bytes
    decreases |lines|
  {
    if lines == [] then [] else lines[0] + [LF] + Text(lines[1..])
  }

  lemma {:induction false} TextConcat(a: seq<bytes>, b: seq<bytes>)
    ensures Text(a + b) == Text(a) + Text(b)
    decreases |a|
  {
    if a == [] {
      assert a + b == b;
    } else {
      TextConcat(a[1..], b);
      assert (a + b)[0] == a[0] && (a + b)[1..] == a[1..] + b;
    }
  }

  datatype Part = Part(headers: seq<bytes>, data: bytes)

  function CertPart(cert: bytes): Part {
    Part([CERT_TYPE, BASE64_ENCODING], cert)
  }

  function KeyPart(key: bytes, encrypt: bool): Part {
    Part([if encrypt then ENCRYPTED_KEY_TYPE else PLAIN_KEY_TYPE, BASE64_ENCODING], key)
  }

  function PasswordPart(password: bytes): Part {
    Part([PASSWORD_TYPE, PASSWORD_DESCRIPTION, BASE64_ENCODING], password)
  }

  function PartLines(p: Part): seq<bytes> {
    [DELIMITER] + p.headers + [[], Base64.Encode(p.data)]
  }

  function ReplyLines(parts: seq<Part>): seq<bytes>
    decreases |parts|
  {
    if parts == [] then [CLOSING] else PartLines(parts[0]) + ReplyLines(parts[1..])
  }

  /** The parts the reply is made of: the password only if one was encrypted. */
  function PartsOf(cert: bytes, key: EncryptedPrivateKey, encrypt: bool): seq<Part> {
    [CertPart(cert), KeyPart(key.keyDer, encrypt)]
    + if key.passwordEncrypted && |key.password| > 0 then [PasswordPart(key.password)] else []
  }

  method SendServerKeyGenResponse(cert: bytes, key: EncryptedPrivateKey, encrypt: bool)
    returns (response: Result<bytes, Pkcs7.Error>)
    ensures response == Ok(Text(ReplyLines(PartsOf(Pkcs7.CertsOnly(cert), key, encrypt))))
  {
    var pkcs7 := Pkcs7.CreatePkcs7CertsOnly([cert]);
    if pkcs7.Err? {
      return Err(Pkcs7.NoCertificates);
    }
    Pkcs7.ConcatOne(cert);
    // each of these is one template of lines
    var builder := Text([DELIMITER, CERT_TYPE, BASE64_ENCODING, [], Base64.Encode(pkcs7.value)]);
    TwoHeaders(CERT_TYPE, BASE64_ENCODING, pkcs7.value);
    var keyContentType := PLAIN_KEY_TYPE;
    if encrypt {
      keyContentType := ENCRYPTED_KEY_TYPE;
    }
    builder := builder + Text([DELIMITER, keyContentType, BASE64_ENCODING, [], Base64.Encode(key.keyDer)]);
    TwoHeaders(keyContentType, BASE64_ENCODING, key.keyDer);
    if key.passwordEncrypted && |key.password| > 0 {
      builder := builder
        + Text([DELIMITER, PASSWORD_TYPE, PASSWORD_DESCRIPTION, BASE64_ENCODING, [], Base64.Encode(key.password)]);
      ThreeHeaders(PASSWORD_TYPE, PASSWORD_DESCRIPTION, BASE64_ENCODING, key.password);
    }
    builder := builder + Text([CLOSING]);
    ReplyText(PartsOf(pkcs7.value, key, encrypt));
    return Ok(builder);
  }

  lemma {:induction false} TwoHeaders(h0: bytes, h1: bytes, data: bytes)
    ensures PartLines(Part([h0, h1], data)) == [DELIMITER, h0, h1, [], Base64.Encode(data)]
  {
  }

  lemma {:induction false} ThreeHeaders(h0: bytes, h1: bytes, h2: bytes, data: bytes)
    ensures PartLines(Part([h0, h1, h2], data)) == [DELIMITER, h0, h1, h2, [], Base64.Encode(data)]
  {
  }

  lemma {:induction false} ReplyText(parts: seq<Part>)
    requires 2 <= |parts| <= 3
    ensures var two := Text(PartLines(parts[0])) + Text(PartLines(parts[1]));
            Text(ReplyLines(parts)) == (if |parts| == 3 then two + Text(PartLines(parts[2])) else two) + Text([CLOSING])
  {
    TextConcat(PartLines(parts[0]), ReplyLines(parts[1..]));
    TextConcat(PartLines(parts[1]), ReplyLines(parts[2..]));
    assert parts[1..][1..] == parts[2..];
    if |parts| == 3 {
      TextConcat(PartLines(parts[2]), ReplyLines(parts[3..]));
      assert parts[2..][1..] == parts[3..] == [];
    }
  }

  // ---- The client: section 5.1.1 of RFC 2046, lines ended by LF ----

  function SplitLines(d: bytes): seq<bytes>
    decreases |d|
  {
    if d == [] then []
    else match Find(d, [LF]) case None => [d] case Some(i) => [d[..i]] + SplitLines(d[i + 1..])
  }

  /** The lines up to the first empty one, and those after it. */
  function ReadHeaders(lines: seq<bytes>): (r: Option<(seq<bytes>, seq<bytes>)>)
    ensures r.Some? ==> |r.value.1| < |lines|
    decreases |lines|
  {
    if lines == [] then None
    else if lines[0] == [] then Some(([], lines[1..]))
    else
      match ReadHeaders(lines[1..]) case None => None case Some((headers, rest)) => Some(([lines[0]] + headers, rest))
  }

  predicate IsDelimiter(line: bytes) {
    line == DELIMITER || line == CLOSING
  }

  /** The lines before the next delimiter, and those from it on. */
  function ReadBody(lines: seq<bytes>): (r: (seq<bytes>, seq<bytes>))
    ensures |r.1| <= |lines|
    decreases |lines|
  {
    if lines == [] || IsDelimiter(lines[0]) then ([], lines)
    else
      var (body, rest) := ReadBody(lines[1..]);
      ([lines[0]] + body, rest)
  }

  function ReadParts(lines: seq<bytes>): Option<seq<Part>>
    decreases |lines|
  {
    if lines == [] then None
    else if lines[0] == CLOSING then Some([])
    else if lines[0] != DELIMITER then None
    else
      match ReadHeaders(lines[1..])
      case None => None
      case Some((headers, afterHeaders)) =>
        var (body, rest) := ReadBody(afterHeaders);
        match Base64.Decode(Text(body))
        case None => None
        case Some(data) =>
          match ReadParts(rest) case None => None case Some(parts) => Some([Part(headers, data)] + parts)
  }

  function Client(response: bytes): Option<seq<Part>> {
    ReadParts(SplitLines(response))
  }

  predicate AreLines(lines: seq<bytes>) {
    forall l | l in lines :: LF !in l
  }

  lemma {:induction false} SplitText(lines: seq<bytes>)
    requires AreLines(lines)
    ensures SplitLines(Text(lines)) == lines
    decreases |lines|
  {
    if lines != [] {
      var l, rest := lines[0], Text(lines[1..]);
      var d := l + [LF] + rest;
      assert l in lines;
      SplitText(lines[1..]);
      FirstBreak(l, rest);
      assert d[..|l|] == l && d[|l| + 1..] == rest;
    }
  }

  lemma {:induction false} FirstBreak(l: bytes, rest: bytes)
    requires LF !in l
    ensures Find(l + [LF] + rest, [LF]) == Some(|l|)
  {
    var d := l + [LF] + rest;
    assert d[|l|..|l| + 1] == [LF];
    assert OccursAt(d, [LF], |l|);
    var r := Find(d, [LF]);
    assert d[r.value..r.value + 1] == [LF];
    assert d[r.value] == LF;
  }

  /** A line of base64 text is not a delimiter: it has no dash. */
  lemma {:induction false} EncodedLine(d: bytes)
    ensures !IsDelimiter(Base64.Encode(d)) && LF !in Base64.Encode(d)
  {
    var e := Base64.Encode(d);
    assert forall c | c in e :: Base64.IsText(c);
    assert DELIMITER[0] == CLOSING[0] == 45 && !Base64.IsText(45);
    if |e| > 0 {
      assert e[0] in e;
    }
  }

  predicate WellFormed(p: Part) {
    AreLines(p.headers) && [] !in p.headers
  }

  lemma {:induction false} HeadersBack(headers: seq<bytes>, rest: seq<bytes>)
    requires [] !in headers
    ensures ReadHeaders(headers + [[]] + rest) == Some((headers, rest))
    decreases |headers|
  {
    var lines := headers + [[]] + rest;
    if headers == [] {
      assert lines[1..] == rest;
    } else {
      HeadersBack(headers[1..], rest);
      assert lines[1..] == headers[1..] + [[]] + rest;
      assert headers[0] in headers && headers == [headers[0]] + headers[1..];
    }
  }

  lemma {:induction false} BodyBack(data: bytes, rest: seq<bytes>)
    requires rest != [] && IsDelimiter(rest[0])
    ensures ReadBody([Base64.Encode(data)] + rest) == ([Base64.Encode(data)], rest)
    ensures Base64.Decode(Text([Base64.Encode(data)])) == Some(data)
  {
    var e := Base64.Encode(data);
    EncodedLine(data);
    assert ([e] + rest)[1..] == rest && [e] + [] == [e];
    assert Text([e]) == e + [LF] + Text([]) == e + [LF];
    Base64.PlainText(data);
    WithoutConcat(e, [LF], {CR, LF});
    Base64.RoundTrip(data, e + [LF]);
  }

  lemma {:induction false} PartBack(p: Part, rest: seq<bytes>)
    requires WellFormed(p) && rest != [] && IsDelimiter(rest[0])
    ensures ReadParts(PartLines(p) + rest)
            == match ReadParts(rest) case None => None case Some(parts) => Some([p] + parts)
  {
    var body := [Base64.Encode(p.data)] + rest;
    var lines := PartLines(p) + rest;
    assert lines[0] == DELIMITER && lines[1..] == p.headers + [[]] + body;
    DelimitersDiffer();
    HeadersBack(p.headers, body);
    BodyBack(p.data, rest);
  }

  lemma {:induction false} DelimitersDiffer()
    ensures DELIMITER != CLOSING
  {
    assert |DELIMITER| != |CLOSING|;
  }

  lemma {:induction false} LinesOfPart(p: Part)
    requires WellFormed(p)
    ensures AreLines(PartLines(p))
  {
    EncodedLine(p.data);
    assert forall l | l in PartLines(p) :: l == DELIMITER || l in p.headers || l == [] || l == Base64.Encode(p.data);
  }

  lemma {:induction false} PartsBack(parts: seq<Part>)
    requires forall p | p in parts :: WellFormed(p)
    ensures ReadParts(ReplyLines(parts)) == Some(parts)
    ensures AreLines(ReplyLines(parts)) && ReplyLines(parts) != [] && IsDelimiter(ReplyLines(parts)[0])
    decreases |parts|
  {
    if parts == [] {
      DelimitersDiffer();
    } else {
      var p := parts[0];
      assert parts == [p] + parts[1..];
      assert WellFormed(p);
      PartsBack(parts[1..]);
      PartBack(p, ReplyLines(parts[1..]));
      LinesOfPart(p);
    }
  }

  lemma {:induction false} FixedLines()
    ensures AreLines([DELIMITER, CLOSING, CERT_TYPE, PLAIN_KEY_TYPE, ENCRYPTED_KEY_TYPE])
    ensures AreLines([PASSWORD_TYPE, PASSWORD_DESCRIPTION, BASE64_ENCODING])
    ensures DELIMITER != CLOSING
  {
  }

  lemma {:induction false} BoundaryIs()
    ensures DELIMITER == Ascii("--EstServerKeyGenBoundary") && CLOSING == Ascii("--EstServerKeyGenBoundary--")
  {
    assert "--" + BOUNDARY == "--EstServerKeyGenBoundary";
    assert "--" + BOUNDARY + "--" == "--EstServerKeyGenBoundary--";
  }

  lemma {:induction false} PartText(p: Part)
    ensures Text(PartLines(p)) == DELIMITER + [10] + (Text(p.headers) + ([10] + (Base64.Encode(p.data) + [10])))
  {
    var e := Base64.Encode(p.data);
    assert PartLines(p) == [DELIMITER] + (p.headers + [[], e]);
    TextConcat([DELIMITER], p.headers + [[], e]);
    TextConcat(p.headers, [[], e]);
    OneLine(DELIMITER);
    TwoLines([], e);
    assert [] + [10] == [10];
  }

  /** A part in the reply: delimiter line, header lines, an empty line, one line of base64. */
  lemma {:induction false} ReplyIs(p: Part, rest: seq<Part>)
    ensures Text(ReplyLines([])) == Ascii("--EstServerKeyGenBoundary--") + [10]
    ensures Text(ReplyLines([p] + rest)) ==
              Ascii("--EstServerKeyGenBoundary") + [10]
              + (Text(p.headers) + ([10] + (Base64.Encode(p.data) + [10])))
              + Text(ReplyLines(rest))
  {
    BoundaryIs();
    OneLine(CLOSING);
    assert ([p] + rest)[1..] == rest;
    TextConcat(PartLines(p), ReplyLines(rest));
    PartText(p);
  }

  lemma {:induction false} OneLine(l: bytes)
    ensures Text([l]) == l + [10]
  {
    assert [l][1..] == [];
    assert l + [10] + [] == l + [10];
  }

  lemma {:induction false} TwoLines(l: bytes, m: bytes)
    ensures Text([l, m]) == (l + [10]) + (m + [10])
  {
    assert [l, m][1..] == [m];
    OneLine(m);
  }

  /** Splitting the reply at its delimiter lines and decoding gives back exactly the parts, each with its labels. */
  lemma {:induction false} ClientReadsParts(cert: bytes, key: EncryptedPrivateKey, encrypt: bool)
    ensures var parts := PartsOf(cert, key, encrypt);
            && Client(Text(ReplyLines(parts))) == Some(parts)
            && parts[0].data == cert && parts[1].data == key.keyDer
            && (|parts| == 3 <==> key.passwordEncrypted && key.password != [])
            && (|parts| == 3 ==> parts[2].data == key.password)
            && var base64 := Ascii("Content-Transfer-Encoding: base64");
               && parts[0].headers == [Ascii("Content-Type: application/pkcs7-mime; smime-type=certs-only"), base64]
               && (encrypt ==> parts[1].headers == [Ascii("Content-Type: application/pkcs8-encrypted"), base64])
               && (!encrypt ==> parts[1].headers == [Ascii("Content-Type: application/pkcs8"), base64])
               && (|parts| == 3 ==>
                     parts[2].headers == [Ascii("Content-Type: application/octet-stream"),
                                          Ascii("Content-Description: encrypted-key-password"), base64])
  {
    var parts := PartsOf(cert, key, encrypt);
    FixedLines();
    assert forall p | p in parts :: WellFormed(p);
    PartsBack(parts);
    SplitText(ReplyLines(parts));
  }

  /** Every line of the reply ends with LF alone: section 5.1.1 of RFC 2046 asks for CRLF. */
  lemma {:induction false} LinesEndWithLfOnly(cert: bytes, key: EncryptedPrivateKey, encrypt: bool)
    ensures CR !in Text(ReplyLines(PartsOf(cert, key, encrypt)))
  {
    var parts := PartsOf(cert, key, encrypt);
    forall p | p in parts
      ensures PrintableHeaders(p)
    {
    }
    ReplyIsPrintable(parts);
    TextHasNoCr(ReplyLines(parts));
  }

  predicate IsPrintable(line: bytes) {
    forall x | x in line :: x >= 32
  }

  predicate PrintableHeaders(p: Part) {
    forall h | h in p.headers :: IsPrintable(h)
  }

  predicate ArePrintable(lines: seq<bytes>) {
    forall l | l in lines :: IsPrintable(l)
  }

  lemma {:induction false} PartIsPrintable(p: Part)
    requires PrintableHeaders(p)
    ensures ArePrintable(PartLines(p))
  {
    var e := Base64.Encode(p.data);
    assert forall c | c in e :: Base64.IsText(c);
    assert IsPrintable(e) && IsPrintable(DELIMITER) && IsPrintable([]);
    assert forall l | l in PartLines(p) :: l == DELIMITER || l in p.headers || l == [] || l == e;
  }

  lemma {:induction false} ReplyIsPrintable(parts: seq<Part>)
    requires forall p | p in parts :: PrintableHeaders(p)
    ensures ArePrintable(ReplyLines(parts))
    decreases |parts|
  {
    if parts == [] {
      assert IsPrintable(CLOSING);
    } else {
      assert parts[0] in parts && forall p | p in parts[1..] :: p in parts;
      PartIsPrintable(parts[0]);
      ReplyIsPrintable(parts[1..]);
    }
  }

  lemma {:induction false} TextHasNoCr(lines: seq<bytes>)
    requires ArePrintable(lines)
    ensures CR !in Text(lines)
    decreases |lines|
  {
    if lines != [] {
      assert lines[0] in lines && IsPrintable(lines[0]) && forall l | l in lines[1..] :: l in lines;
      TextHasNoCr(lines[1..]);
    }
  }

  // ---- End to end ----

  /** What the client does with the key: decrypt it if a password came along. */
  function Recover(c: Crypto, key: bytes, parts: seq<Part>): Option<bytes> {
    if |parts| == 2 then Some(parts[1].data)
    else if |parts| != 3 then None
    else
      match c.unwrap(key, parts[2].data)
      case None => None
      case Some(password) =>
        match Pem.Decode(parts[1].data)
        case None => None
        case Some(text) => DecryptWithAesGcm(c, text, password)
  }

  /**
   There is a reply exactly when the key could be encoded, and the client recovers the original PKCS#8 bytes
   from it.
   */
  method ServeKey(c: Crypto, cert: bytes, pkcs8: bytes, encrypt: bool, client: ClientKey, random: Random)
    returns (response: Option<bytes>)
    requires Inverse(c) && random.Sized()
    ensures response.Some? <==>
              || !encrypt
              || (client.Rsa? && random.password.Some? && random.nonce.Some?
                  && c.wrap(client.key, random.password.value).Some?)
    ensures response.Some? ==>
              var parts := Client(response.value);
              && parts.Some? && |parts.value| >= 2 && parts.value[0].data == Pkcs7.CertsOnly(cert)
              && Recover(c, if client.Rsa? then client.key else [], parts.value) == Some(pkcs8)
  {
    var key := EncodePrivateKey(c, Some(pkcs8), encrypt, Some(client), random);
    if key.Err? {
      return None;
    }
    var reply := SendServerKeyGenResponse(cert, key.value, encrypt);
    ClientReadsParts(Pkcs7.CertsOnly(cert), key.value, encrypt);
    if encrypt {
      var password, nonce := random.password.value, random.nonce.value;
      var text := nonce + c.seal(password, nonce, pkcs8);
      KeyPemBack(text);
      DecryptUndoesEncrypt(c, pkcs8, password, nonce);
    }
    return Some(reply.value);
  }

  lemma {:induction false} KeyPemBack(text: bytes)
    requires text != []
    ensures Pem.Decode(Pem.Encode(KEY_KIND, KEY_HEADER, text)) == Some(text)
  {
    assert KEY_HEADER[10] == Pem.COLON && KEY_HEADER[10] in KEY_HEADER;
    Pem.RoundTrip(KEY_KIND, KEY_HEADER, text);
  }
}
