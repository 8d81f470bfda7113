/**
 pkg/handlers/simpleenroll.go, simplereenroll.go, base_enrollment.go and types.go in their own form, with the
 backend clients of pkg/backend/common_impl.go as objects. One request running alone does exactly its script.
 */
module EnrolmentHandlers {
  import opened Wrappers
  import opened Bytes
  import opened CsrChecks
  import opened Enrolment
  import AuthManager
  import BackendErrors
  import Base64
  import CsrReader
  import Pem
  import Pkcs7

  // ---- The request as it comes in ----

  /** Credentials, TLS client certificate and body of a request, and what its calls on the backend meet. */
  datatype Http = Http(
    isPost: bool, reenroll: bool, credentials: AuthManager.Request, clientCert: Option<Certificate>,
    contentLength: int, body: CsrReader.Body, cloneError: Option<string>, answer: Answer)

  /** Which bytes are the DER of a CSR, and what is in it. */
  datatype CsrParser = CsrParser(isCsr: bytes -> bool, csr: bytes -> Csr)

  datatype Site = Site(config: Config, auth: AuthManager.Config, maxSize: int, parser: CsrParser)

  function ReadBody(site: Site, h: Http): Result<Csr, CsrReader.ReadError> {
    match CsrReader.Payload(h.contentLength, h.body, site.maxSize, site.parser.isCsr)
    case Ok(der) => Ok(site.parser.csr(der))
    case Err(e) => Err(e)
  }

  /** The request as the protocol sees it, given what authentication returned. */
  function Seen(site: Site, h: Http, res: AuthManager.AuthResult): Request {
    Request(h.isPost, h.reenroll, h.clientCert, if res.authenticated then Some(res.token) else None,
            ReadBody(site, h), h.cloneError, h.answer)
  }

  // ---- The backend ----

  const CSR_KIND: bytes := Ascii("CERTIFICATE REQUEST")

  /** A sign call as the OpenBao server receives it: the token it came with, where to, and its two fields. */
  datatype Write = Write(token: bytes, path: string, pem: bytes, ttl: Option<string>)

  function WriteOf(token: bytes, path: string, ttl: string, csr: Csr): Write {
    Write(token, path, Pem.Encode(CSR_KIND, [], csr.der), if ttl == "" then None else Some(ttl))
  }

  class Remote {
    var writes: seq<Write>

    constructor ()
      ensures writes == []
    {
      writes := [];
    }
  }

  class ApiClient {
    var token: bytes

    constructor (token: bytes)
      ensures this.token == token
    {
      this.token := token;
    }

    /** A copy carries the token of the original. */
    method Clone(failure: Option<string>) returns (r: Result<ApiClient, string>)
      ensures failure.Some? ==> r == Err(failure.value)
      ensures failure.None? ==> r.Ok? && fresh(r.value) && r.value.token == token
    {
      if failure.Some? {
        return Err(failure.value);
      }
      var c := new ApiClient(token);
      return Ok(c);
    }

    method SetToken(token: bytes)
      modifies this
      ensures this.token == token
    {
      this.token := token;
    }
  }

  class Backend {
    var client: ApiClient?
    const remote: Remote

    constructor (client: ApiClient, remote: Remote)
      ensures this.client == client && this.remote == remote
    {
      this.client := client;
      this.remote := remote;
    }

    /** A new backend with a client of its own; this one and its token stay as they are. */
    method CloneWithToken(token: bytes, failure: Option<string>) returns (r: Result<Backend, string>)
      requires client != null
      ensures r.Ok? <==> failure.None?
      ensures r.Err? ==> r.error == BackendErrors.CLONE_WRAP + failure.value
      ensures r.Ok? ==> fresh(r.value) && r.value.remote == remote
      ensures r.Ok? ==> r.value.client != null && fresh(r.value.client) && r.value.client.token == token
    {
      var cloned := client.Clone(failure);
      if cloned.Err? {
        return Err(BackendErrors.CLONE_WRAP + cloned.error);
      }
      cloned.value.SetToken(token);
      var b := new Backend(cloned.value, remote);
      return Ok(b);
    }

    /** SignCSR, with a role, and SignCSRVerbatim: the server sees the token of this backend's client. */
    method SignCsr(c: Config, csr: Csr, answer: Answer) returns (r: Result<bytes, string>)
      requires client != null && (c.policy.kind == "role" || c.policy.kind == "sign-verbatim")
      modifies remote
      ensures remote.writes == old(remote.writes) + [WriteOf(client.token, SignPath(c), c.policy.ttl, csr)]
      ensures var w := remote.writes[|old(remote.writes)|];
              var mount := if c.policy.mount == "" then c.defaultMount else c.policy.mount;
              && w.token == client.token
              && (c.policy.kind == "role" ==> w.path == mount + "/sign/" + c.policy.value)
              && (c.policy.kind == "sign-verbatim" ==> w.path == mount + "/sign-verbatim")
              && w.pem == Pem.Encode(Ascii("CERTIFICATE REQUEST"), [], csr.der)
              && (c.policy.ttl == "" ==> w.ttl == None) && (c.policy.ttl != "" ==> w.ttl == Some(c.policy.ttl))
      ensures r == Certified(c, answer)
      ensures forall der :: r == Ok(der) <==>
                answer.Text? && Pem.Decode(answer.pem) == Some(der) && c.x509.isCert(der)
      ensures answer.Refused? ==>
                r == Err((if c.policy.kind == "role" then "failed to sign CSR: " else "failed to sign CSR verbatim: ")
                         + answer.error)
      ensures answer == NoData ==> r == Err("no certificate data returned")
      ensures answer == NoCertificate ==> r == Err("certificate not found in response")
      ensures answer.Text? && Pem.Decode(answer.pem) == None ==> r == Err("failed to decode PEM certificate")
      ensures answer.Text? && Pem.Decode(answer.pem).Some? && !c.x509.isCert(Pem.Decode(answer.pem).value) ==>
                r == Err("failed to parse certificate: " + c.x509.whyNot(Pem.Decode(answer.pem).value))
    {
      SignPathIs(c);
      CertifiedIs(c, answer);
      var mount := Mount(c);
      var path := mount + "/sign-verbatim";
      if c.policy.kind == "role" {
        path := mount + "/sign/" + c.policy.value;
      }
      var csrPem := Pem.Encode(CSR_KIND, [], csr.der);
      var ttl: Option<string> := None;
      if c.policy.ttl != "" {
        ttl := Some(c.policy.ttl);
      }
      remote.writes := remote.writes + [Write(client.token, path, csrPem, ttl)];
      if answer.Refused? {
        if c.policy.kind == "role" {
          return Err(BackendErrors.SIGN_WRAP + answer.error);
        }
        return Err(BackendErrors.VERBATIM_WRAP + answer.error);
      }
      if answer.NoData? {
        return Err(NO_DATA);
      }
      if answer.NoCertificate? {
        return Err(NO_CERTIFICATE);
      }
      var block := Pem.Decode(answer.pem);
      if block.None? {
        return Err(NO_PEM);
      }
      if !c.x509.isCert(block.value) {
        return Err(NOT_PARSED + c.x509.whyNot(block.value));
      }
      return Ok(block.value);
    }

    /** Scrubs the token and drops the client; closing again does nothing. */
    method Close()
      modifies this, if client == null then {} else {client}
      ensures client == null
      ensures old(client) != null ==> old(client).token == []
    {
      if client != null {
        client.SetToken([]);
        client := null;
      }
    }
  }

  /** The sign calls among some acts, as the server sees them. */
  function SignCalls(acts: seq<Act>): seq<Write>
    decreases |acts|
  {
    if acts == [] then []
    else
      var a := acts[0];
      (if a.Sign? then [WriteOf(a.token, a.path, a.ttl, a.csr)] else []) + SignCalls(acts[1..])
  }

  /** The CSR in a sign call reads back as the one that was checked. */
  lemma {:induction false} ServerReadsCsr(token: bytes, path: string, ttl: string, csr: Csr)
    requires csr.der != []
    ensures Pem.Decode(WriteOf(token, path, ttl, csr).pem) == Some(csr.der)
  {
    assert forall x | x in CSR_KIND :: x >= 32;
    Pem.RoundTrip(CSR_KIND, [], csr.der);
  }

  /** Signs with a clone that is closed on every path out; the clone made, if any, is returned for inspection. */
  method ProcessCsrSigning(backend: Backend, c: Config, r: Request, token: bytes, csr: Csr)
    returns (result: Result<bytes, string>, ghost clone: Backend?, ghost client: ApiClient?)
    requires backend.client != null
    modifies backend.remote
    ensures token == [] ==> result == Err(NO_AUTHENTICATION) && clone == null
    ensures token != [] && r.cloneError.Some? ==> result == Err(CloneFailure(r.cloneError.value)) && clone == null
    ensures token != [] && r.cloneError.None? ==> result == Outcome(c, r) && clone != null
    ensures clone != null ==>
              fresh(clone) && clone.client == null && client != null && fresh(client) && client.token == []
    ensures backend.remote.writes ==
              old(backend.remote.writes)
              + if clone != null && CanSign(c) then [WriteOf(token, SignPath(c), c.policy.ttl, csr)] else []
  {
    clone, client := null, null;
    if token == [] {
      return Err(NO_AUTHENTICATION), null, null;
    }
    var made := backend.CloneWithToken(token, r.cloneError);
    if made.Err? {
      return Err(BackendErrors.CREATE_WRAP + made.error), null, null;
    }
    var authenticated := made.value;
    clone, client := authenticated, authenticated.client;
    if c.policy.kind == "role" || c.policy.kind == "sign-verbatim" {
      var cert := authenticated.SignCsr(c, csr, r.answer);
      result := match cert case Ok(der) => Ok(der) case Err(e) => Err(BackendErrors.SIGN_WRAP + e);
    } else {
      result := Err(INVALID_POLICY + c.policy.kind);
    }
    authenticated.Close();
  }

  /** The result of the cascade; a request that is not authenticated is answered 401. */
  method AuthenticateRequest(m: AuthManager.Backend, site: Site, h: Http)
    returns (result: AuthManager.AuthResult, ok: bool)
    modifies m
    ensures AuthManager.Tried(m.answers, old(m.calls), m.calls, AuthManager.Attempts(site.auth, h.credentials),
                              result, h.credentials)
    ensures ok == result.authenticated
  {
    result := AuthManager.Authenticate(m, site.auth, h.credentials);
    return result, result.authenticated;
  }

  /** The CSR if it can be read and its algorithm and signature pass, or the status to refuse with. */
  method ParseAndValidateCsr(site: Site, h: Http) returns (csr: Result<Csr, nat>)
    ensures csr.Ok? <==>
              && ReadBody(site, h).Ok?
              && AlgorithmAllowed(ReadBody(site, h).value.algorithm, site.config.allowed)
              && ReadBody(site, h).value.signatureValid
    ensures csr.Ok? ==> csr.value == ReadBody(site, h).value
    ensures csr.Err? ==>
              csr.error == if ReadBody(site, h).Err? && ReadBody(site, h).error.RequestTooLarge? then 413 else 400
  {
    var der := CsrReader.ReadCsrPayloadWithLimit(h.contentLength, h.body, site.maxSize, site.parser.isCsr);
    if der.Err? {
      if der.error.RequestTooLarge? {
        return Err(413);
      }
      return Err(400);
    }
    var parsed := site.parser.csr(der.value);
    var bad := ValidateCsrSignatureAlgorithm(parsed.algorithm, site.config.allowed);
    if bad.Some? {
      return Err(400);
    }
    if !parsed.signatureValid {
      return Err(400);
    }
    return Ok(parsed);
  }

  method SendCertificateResponse(cert: bytes) returns (body: bytes)
    ensures body == Base64.Encode(Pkcs7.CertsOnly(cert))
  {
    var pkcs7 := Pkcs7.CreatePkcs7CertsOnly([cert]);
    Pkcs7.ConcatOne(cert);
    return Base64.Encode(pkcs7.value);
  }

  method Respond(backend: Backend, c: Config, r: Request, token: bytes, csr: Csr) returns (status: nat, body: bytes)
    requires backend.client != null
    requires Gate(c, r) == Ok((token, csr))
    modifies backend.remote
    ensures Script(c, r)[|Script(c, r)| - 1] == Reply(status)
    ensures backend.remote.writes == old(backend.remote.writes) + SignCalls(Script(c, r))
    ensures status == 200 <==> r.cloneError.None? && token != [] && CanSign(c) && Certified(c, r.answer).Ok?
    ensures status == 200 ==> body == Base64.Encode(Pkcs7.CertsOnly(Outcome(c, r).value))
  {
    var cert, _, _ := ProcessCsrSigning(backend, c, r, token, csr);
    StatusesOfErrors(c, r);
    SignCallsOfScript(c, r);
    if cert.Err? {
      return ErrorStatus(cert.error), [];
    }
    body := SendCertificateResponse(cert.value);
    return 200, body;
  }

  lemma {:induction false} SignCallsOfScript(c: Config, r: Request)
    ensures SignCalls(Script(c, r)) ==
              match Gate(c, r)
              case Err(_) => []
              case Ok((token, csr)) =>
                if token != [] && r.cloneError.None? && CanSign(c)
                then [WriteOf(token, SignPath(c), c.policy.ttl, csr)]
                else []
  {
    ScriptCases(c, r);
    LastNotSigning(Script(c, r)[|Script(c, r)| - 1]);
    if Gate(c, r).Ok? && Gate(c, r).value.0 != [] && r.cloneError.None? {
      SignCallsOfSigning(c, r, Gate(c, r).value.0, Gate(c, r).value.1);
    } else {
      assert Script(c, r) == [Script(c, r)[0]];
    }
  }

  lemma {:induction false} SignCallsOfSigning(c: Config, r: Request, token: bytes, csr: Csr)
    ensures SignCalls(Signing(c, r, token, csr))
            == if CanSign(c) then [WriteOf(token, SignPath(c), c.policy.ttl, csr)] else []
  {
    var reply, sign := Reply(Status(Outcome(c, r))), Sign(token, SignPath(c), c.policy.ttl, csr);
    LastNotSigning(reply);
    EndNotSigning(CloseClone, [reply]);
    assert [CloseClone] + [reply] == [CloseClone, reply];
    if CanSign(c) {
      assert [sign, CloseClone, reply][1..] == [CloseClone, reply];
      EndNotSigning(MakeClone, [sign, CloseClone, reply]);
      assert [MakeClone] + [sign, CloseClone, reply] == Signing(c, r, token, csr);
    } else {
      EndNotSigning(MakeClone, [CloseClone, reply]);
      assert [MakeClone] + [CloseClone, reply] == Signing(c, r, token, csr);
    }
  }

  lemma {:induction false} LastNotSigning(a: Act)
    requires !a.Sign?
    ensures SignCalls([a]) == []
  {
    assert [a][1..] == [];
  }

  lemma {:induction false} EndNotSigning(a: Act, rest: seq<Act>)
    requires !a.Sign?
    ensures SignCalls([a] + rest) == SignCalls(rest)
  {
    assert ([a] + rest)[1..] == rest;
  }

  /** What a handler does for r: its reply, its sign calls and the body of a 200. */
  twostate predicate Handled(remote: Remote, c: Config, r: Request, status: nat, body: bytes)
    reads remote
  {
    && Script(c, r)[|Script(c, r)| - 1] == Reply(status)
    && remote.writes == old(remote.writes) + SignCalls(Script(c, r))
    && (status == 200 ==> Outcome(c, r).Ok? && body == Base64.Encode(Pkcs7.CertsOnly(Outcome(c, r).value)))
  }

  /** Only a POST is authenticated. */
  twostate predicate Authenticated(m: AuthManager.Backend, site: Site, h: Http, res: AuthManager.AuthResult)
    reads m
  {
    if h.isPost then
      AuthManager.Tried(m.answers, old(m.calls), m.calls, AuthManager.Attempts(site.auth, h.credentials),
                        res, h.credentials)
    else m.calls == old(m.calls)
  }

  lemma {:induction false} Refusal(site: Site, h: Http, res: AuthManager.AuthResult, status: nat)
    requires Gate(site.config, Seen(site, h, res)) == Err(status)
    ensures Script(site.config, Seen(site, h, res)) == [Reply(status)]
    ensures SignCalls(Script(site.config, Seen(site, h, res))) == []
    ensures status != 200
  {
    GateRefuses(site.config, Seen(site, h, res));
    LastNotSigning(Reply(status));
  }

  method SimpleEnroll(backend: Backend, m: AuthManager.Backend, site: Site, h: Http)
    returns (status: nat, body: bytes, ghost res: AuthManager.AuthResult)
    requires backend.client != null && !h.reenroll
    modifies backend.remote, m
    ensures Authenticated(m, site, h, res)
    ensures Handled(backend.remote, site.config, Seen(site, h, res), status, body)
  {
    res := AuthManager.REFUSED;
    if !h.isPost {
      Refusal(site, h, res, 405);
      return 405, [], res;
    }
    var authResult, ok := AuthenticateRequest(m, site, h);
    res := authResult;
    if !ok {
      Refusal(site, h, res, 401);
      return 401, [], res;
    }
    var csr := ParseAndValidateCsr(site, h);
    if csr.Err? {
      Refusal(site, h, res, csr.error);
      return csr.error, [], res;
    }
    status, body := Respond(backend, site.config, Seen(site, h, authResult), authResult.token, csr.value);
  }

  /** Same key, and same names unless the CSR asks to change them. */
  method ValidateRenewal(csr: Csr, cert: Certificate, render: Render) returns (ok: bool)
    ensures ok <==> SameKey(csr, cert) && RenewalAllowed(csr, cert, render)
  {
    var key := ValidateCsrMatchesCertificate(csr, cert);
    if key.Some? {
      return false;
    }
    var names := ValidateReenrollmentSubject(csr, cert, render);
    return names.None?;
  }

  method SimpleReenroll(backend: Backend, m: AuthManager.Backend, site: Site, h: Http)
    returns (status: nat, body: bytes, ghost res: AuthManager.AuthResult)
    requires backend.client != null && h.reenroll
    modifies backend.remote, m
    ensures Authenticated(m, site, h, res)
    ensures Handled(backend.remote, site.config, Seen(site, h, res), status, body)
  {
    res := AuthManager.REFUSED;
    if !h.isPost {
      Refusal(site, h, res, 405);
      return 405, [], res;
    }
    var hasTlsCert := h.clientCert.Some?;
    var authResult, ok := AuthenticateRequest(m, site, h);
    res := authResult;
    if !ok {
      Refusal(site, h, res, 401);
      return 401, [], res;
    }
    var csr := ParseAndValidateCsr(site, h);
    if csr.Err? {
      Refusal(site, h, res, csr.error);
      return csr.error, [], res;
    }
    if hasTlsCert {
      var renewable := ValidateRenewal(csr.value, h.clientCert.value, site.config.render);
      if !renewable {
        Refusal(site, h, res, 400);
        return 400, [], res;
      }
    }
    status, body := Respond(backend, site.config, Seen(site, h, authResult), authResult.token, csr.value);
  }

  // ---- From the credentials to the signature ----

  /** Some backend call for credentials of the request was accepted and yields this token. */
  ghost predicate Granted(answers: AuthManager.Answers, attempts: seq<AuthManager.Call>, token: bytes) {
    exists n: nat, call :: call in attempts && answers(n, call).Some?
      && token == if call.LookupToken? then call.token else answers(n, call).value.token
  }

  /** The result is what the cascade returns for these credentials, after any calls made before. */
  ghost predicate ResultOf(answers: AuthManager.Answers, site: Site, h: Http, res: AuthManager.AuthResult) {
    exists before: seq<AuthManager.Call>, after: seq<AuthManager.Call> ::
      AuthManager.Tried(answers, before, after, AuthManager.Attempts(site.auth, h.credentials), res, h.credentials)
  }

  lemma {:induction false} ResultIsGranted(answers: AuthManager.Answers, site: Site, h: Http,
                                           res: AuthManager.AuthResult)
    requires ResultOf(answers, site, h, res) && res.authenticated
    ensures Granted(answers, AuthManager.Attempts(site.auth, h.credentials), res.token)
  {
    var attempts := AuthManager.Attempts(site.auth, h.credentials);
    var before: seq<AuthManager.Call>, after: seq<AuthManager.Call> :|
      AuthManager.Tried(answers, before, after, attempts, res, h.credentials);
    var k: nat :|
      && AuthManager.FirstAccepted(answers, |before|, attempts, k)
      && AuthManager.Reflects(answers, before, after, attempts, res, h.credentials, k);
    assert attempts[k] in attempts && answers(|before| + k, attempts[k]).Some?;
  }

  /** The requests of the protocol are the ones that came in, authenticated by the cascade. */
  ghost predicate Arrived(answers: AuthManager.Answers, site: Site, hs: map<nat, Http>,
                          results: map<nat, AuthManager.AuthResult>, reqs: map<nat, Request>)
  {
    && hs.Keys == reqs.Keys == results.Keys
    && forall q | q in reqs :: ResultOf(answers, site, hs[q], results[q]) && reqs[q] == Seen(site, hs[q], results[q])
  }

  /**
   End to end, in every interleaving: each sign call carries a token that the backend granted for the credentials of
   the request that makes it, and a CSR that its body reads as and that passed all checks.
   */
  lemma {:induction false} EverySignCallIsEarned(answers: AuthManager.Answers, site: Site, hs: map<nat, Http>,
      results: map<nat, AuthManager.AuthResult>, reqs: map<nat, Request>, base: bytes, schedule: seq<nat>,
      q: nat, a: Act)
    requires Arrived(answers, site, hs, results, reqs) && forall x | x in schedule :: x in reqs
    requires Run(site.config, reqs, Start(base, reqs), schedule).Some?
    requires (q, a) in Run(site.config, reqs, Start(base, reqs), schedule).value.log && a.Sign?
    ensures q in hs && Granted(answers, AuthManager.Attempts(site.auth, hs[q].credentials), a.token)
    ensures ReadBody(site, hs[q]) == Ok(a.csr) && hs[q].isPost && a.token != []
    ensures var c := site.config;
            var mount := if c.policy.mount == "" then c.defaultMount else c.policy.mount;
            && (|| (c.policy.kind == "role" && a.path == mount + "/sign/" + c.policy.value)
                || (c.policy.kind == "sign-verbatim" && a.path == mount + "/sign-verbatim"))
            && a.ttl == c.policy.ttl
            && a.csr.signatureValid
            && a.csr.algorithm != MD5WithRSA && a.csr.algorithm != SHA1WithRSA && a.csr.algorithm != ECDSAWithSHA1
            && (c.allowed.names == []
                || exists n | n in c.allowed.names :: IsNameOf(c.allowed.normalise(n), a.csr.algorithm))
            && (hs[q].reenroll && hs[q].clientCert.Some? ==> Renews(c, a.csr, hs[q].clientCert.value))
  {
    EveryRunIsSafe(site.config, reqs, base, schedule);
    LegitimateInFull(site.config, reqs[q], a);
    assert ResultOf(answers, site, hs[q], results[q]);
    ResultIsGranted(answers, site, hs[q], results[q]);
  }

  /** The body of a 200 reply: a client that decodes it finds exactly the certificate the backend signed. */
  lemma {:induction false} ClientReadsCertificate(cert: bytes, isCert: bytes -> bool)
    requires Pkcs7.IsCertificate(cert) && isCert(cert) && |Pkcs7.Body(cert)| <= 0x7fff_ffff
    ensures var der := Base64.Decode(Base64.Encode(Pkcs7.CertsOnly(cert)));
            der.Some? && Pkcs7.Parsed(der.value, isCert) == Ok([cert])
  {
    Base64.PlainText(Pkcs7.CertsOnly(cert));
    Base64.RoundTrip(Pkcs7.CertsOnly(cert), Base64.Encode(Pkcs7.CertsOnly(cert)));
    Pkcs7.ConcatOne(cert);
    Pkcs7.ParseUndoesCreate([cert], isCert);
  }
}
