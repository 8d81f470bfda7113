/** pkg/est/csr.go, ReadCSRPayloadWithLimit: one reader for DER, base64 and PEM bodies. */
module CsrReader {
  import opened Bytes
  import opened Search
  import opened Wrappers
  import Base64
  import Der
  import Pem

  const DEFAULT_MAX_SIZE := 64 * 1024

  datatype ReadError = RequestTooLarge | Unreadable | BadPem | BadDer

  /** What the connection delivers before it ends, or before it breaks. */
  datatype Body = Body(data: bytes, breaks: bool)

  /** How a body is understood: base64 if it decodes, then PEM if it holds a block, then DER. A CSR is its DER. */
  function Interpret(body: bytes, isCsr: bytes -> bool): Result<bytes, ReadError> {
    var text := Base64.Decode(body);
    var decoded := if text.Some? then text.value else body;
    match Pem.Decode(decoded)
    case Some(der) => if isCsr(der) then Ok(der) else Err(BadPem)
    case None => if isCsr(decoded) then Ok(decoded) else Err(BadDer)
  }

  function Limit(maxSize: int): int {
    if maxSize <= 0 then DEFAULT_MAX_SIZE else maxSize
  }

  /** The result for a body of the announced length, -1 when none was announced. */
  function Payload(contentLength: int, body: Body, maxSize: int, isCsr: bytes -> bool): Result<bytes, ReadError> {
    if contentLength > Limit(maxSize) || |body.data| > Limit(maxSize) then Err(RequestTooLarge)
    else if body.breaks then Err(Unreadable)
    else Interpret(body.data, isCsr)
  }

  /** io.ReadAll behind a limited reader, which does not look beyond its limit. */
  method ReadAll(body: Body, limit: nat) returns (r: Result<bytes, ReadError>)
    ensures r == if |body.data| >= limit then Ok(body.data[..limit])
                 else if body.breaks then Err(Unreadable) else Ok(body.data)
  {
    if |body.data| >= limit {
      return Ok(body.data[..limit]);
    }
    if body.breaks {
      return Err(Unreadable);
    }
    return Ok(body.data);
  }

  /** Too long by header or by content is one error, whether or not the rest could have been read. */
  method ReadCsrPayloadWithLimit(contentLength: int, body: Body, maxSize: int, isCsr: bytes -> bool)
    returns (r: Result<bytes, ReadError>)
    ensures r == Payload(contentLength, body, maxSize, isCsr)
    ensures var limit := if maxSize <= 0 then 65536 else maxSize;
            && (r == Err(RequestTooLarge) <==> contentLength > limit || |body.data| > limit)
            && (contentLength <= limit && |body.data| <= limit && body.breaks ==> r == Err(Unreadable))
            && (contentLength <= limit && |body.data| <= limit && !body.breaks ==> r == Interpret(body.data, isCsr))
  {
    var max := maxSize;
    if max <= 0 {
      max := DEFAULT_MAX_SIZE;
    }
    if contentLength > max && contentLength != -1 {
      return Err(RequestTooLarge);
    }
    var all := ReadAll(body, max + 1);
    if all.Err? {
      return Err(all.error);
    }
    var read := all.value;
    if |read| > max {
      return Err(RequestTooLarge);
    }
    assert read == body.data;
    var decoded := read;
    var text := Base64.Decode(read);
    if text.Some? {
      decoded := text.value;
    }
    var block := Pem.Decode(decoded);
    if block.Some? {
      return if isCsr(block.value) then Ok(block.value) else Err(BadPem);
    }
    return if isCsr(decoded) then Ok(decoded) else Err(BadDer);
  }

  /** DER with a byte that is not base64 text and without PEM armour; a CSR's version INTEGER has such a byte. */
  ghost predicate IsBinary(der: bytes) {
    && (exists x :: x in der && !Base64.IsText(x) && x != CR && x != LF)
    && !Contains(der, Pem.BEGIN)
  }

  /** A PEM rendering of der: any block type, at most one header line. */
  ghost predicate IsPemOf(text: bytes, der: bytes) {
    exists kind: bytes, header: bytes ::
      LF !in kind && CR !in kind && Pem.IsHeader(header) && text == Pem.Encode(kind, header, der)
  }

  /** A base64 rendering of data with line breaks anywhere. */
  predicate IsBase64Of(text: bytes, data: bytes) {
    Without(text, {CR, LF}) == Base64.Encode(data)
  }

  lemma {:induction false} DerReads(body: bytes, der: bytes, isCsr: bytes -> bool)
    requires IsBinary(der) && isCsr(der) && (body == der || IsBase64Of(body, der))
    ensures Interpret(body, isCsr) == Ok(der)
  {
    Pem.NoArmour(der);
    if body == der {
      var x :| x in der && !Base64.IsText(x) && x != CR && x != LF;
      Base64.ForeignByteFails(der, x);
    } else {
      Base64.RoundTrip(der, body);
    }
  }

  lemma {:induction false} PemReads(body: bytes, pem: bytes, der: bytes, isCsr: bytes -> bool)
    requires der != [] && isCsr(der) && IsPemOf(pem, der) && (body == pem || IsBase64Of(body, pem))
    ensures Interpret(body, isCsr) == Ok(der)
  {
    var kind: bytes, header: bytes :|
      LF !in kind && CR !in kind && Pem.IsHeader(header) && pem == Pem.Encode(kind, header, der);
    Pem.RoundTrip(kind, header, der);
    if body == pem {
      Pem.ArmourIsNotBase64(kind, header, der);
    } else {
      Base64.RoundTrip(pem, body);
    }
  }

  /** All accepted formats of one CSR are read as that CSR. */
  lemma {:induction false} FormatsAgree(body: bytes, der: bytes, isCsr: bytes -> bool)
    requires IsBinary(der) && isCsr(der)
    requires || body == der
             || IsBase64Of(body, der)
             || IsPemOf(body, der)
             || (exists pem :: IsPemOf(pem, der) && IsBase64Of(body, pem))
    ensures Interpret(body, isCsr) == Ok(der)
  {
    if body == der || IsBase64Of(body, der) {
      DerReads(body, der, isCsr);
    } else if IsPemOf(body, der) {
      PemReads(body, body, der, isCsr);
    } else {
      var pem :| IsPemOf(pem, der) && IsBase64Of(body, pem);
      PemReads(body, pem, der, isCsr);
    }
  }

  /** A body that decodes as base64 is read as something shorter than itself. */
  lemma {:induction false} TextIsMisread(body: bytes, isCsr: bytes -> bool)
    requires body != [] && Base64.Decode(body).Some?
    ensures Interpret(body, isCsr) != Ok(body)
  {
    var text := Base64.Decode(body).value;
    Base64.DecodeShrinks(body);
    if Pem.Decode(text).Some? {
      Pem.DecodeShrinks(text);
    }
  }

  /** Raw DER without PEM armour is read as itself exactly when it does not decode as base64. */
  lemma {:induction false} RawReadsIff(der: bytes, isCsr: bytes -> bool)
    requires isCsr(der) && !Contains(der, Pem.BEGIN)
    ensures Interpret(der, isCsr) == Ok(der) <==> der == [] || Base64.Decode(der).None?
  {
    Pem.NoArmour(der);
    if der != [] && Base64.Decode(der).Some? {
      TextIsMisread(der, isCsr);
    }
  }

  /** The DER of a SEQUENCE can be text throughout: tag, length and content all zero digits and a two. */
  lemma {:induction false} RawTextIsMisread(isCsr: bytes -> bool)
    ensures var zeros: bytes := seq(50, _ => 48);
            var der := Der.Encode(Der.Tlv(Der.Universal, true, 16, zeros));
            |der| == 52 && Base64.Decode(der).Some? && Interpret(der, isCsr) != Ok(der)
  {
    var zeros: bytes := seq(50, _ => 48);
    var der := Der.Encode(Der.Tlv(Der.Universal, true, 16, zeros));
    assert der == [48] + ([50] + zeros);
    assert forall c | c in der :: c == 48 || c == 50;
    WithoutNothing(der, {CR, LF});
    Base64.DigitsDecode(der);
    TextIsMisread(der, isCsr);
  }
}
