/**
 pkg/auth/manager.go: a request is authenticated by the first of token, certificate, userpass, LDAP and
 AppRole that is enabled, has its credential present and is accepted by the backend.
 */
module AuthManager {
  import opened Wrappers
  import opened Search
  import opened Bytes
  import Base64

  datatype Config = Config(token: bool, cert: bool, userpass: bool, ldap: bool, appRole: bool)

  /** The Authorization header (empty when missing) and the common name of the TLS client certificate. */
  datatype Request = Request(authorization: bytes, clientCn: Option<bytes>)

  datatype Call =
    | LookupToken(token: bytes)
    | AuthenticateCert
    | AuthenticateUserpass(user: bytes, password: bytes)
    | AuthenticateLdap(user: bytes, password: bytes)
    | AuthenticateAppRole(user: bytes, password: bytes)

  /** What an accepted call yields; the names only come with a token lookup. */
  datatype Grant = Grant(token: bytes, displayName: bytes, entityId: bytes)

  datatype AuthResult = AuthResult(authenticated: bool, token: bytes, method': string, identity: bytes,
            error: Option<string>)

  /** The backend's answer to its n-th call; None is an error. */
  type Answers = (nat, Call) -> Option<Grant>

  // ---- What should happen ----

  const BEARER: bytes := Ascii("Bearer ")
  const BASIC: bytes := Ascii("Basic ")
  const COLON: byte := 58

  function TokenAttempts(r: Request): seq<Call> {
    if BEARER < r.authorization then [LookupToken(r.authorization[|BEARER|..])] else []
  }

  function CertAttempts(r: Request): seq<Call> {
    if r.clientCn.Some? then [AuthenticateCert] else []
  }

  function DecodedBasic(r: Request): Option<bytes> {
    if BASIC <= r.authorization then Base64.Decode(r.authorization[|BASIC|..]) else None
  }

  /** User and password: what is before and after the first colon. */
  function Credentials(decoded: bytes): Option<(bytes, bytes)> {
    match Find(decoded, [COLON])
    case None => None
    case Some(i) => Some((decoded[..i], decoded[i + 1..]))
  }

  function CredentialAttempts(c: Config, user: bytes, password: bytes): seq<Call> {
    (if c.userpass then [AuthenticateUserpass(user, password)] else [])
    + (if c.ldap then [AuthenticateLdap(user, password)] else [])
    + (if c.appRole then [AuthenticateAppRole(user, password)] else [])
  }

  function BasicAttempts(c: Config, r: Request): seq<Call> {
    match DecodedBasic(r)
    case None => []
    case Some(decoded) =>
      match Credentials(decoded)
      case None => []
      case Some((user, password)) => CredentialAttempts(c, user, password)
  }

  /** Enabled methods whose credential is present, in order. */
  function Attempts(c: Config, r: Request): seq<Call> {
    (if c.token then TokenAttempts(r) else []) + (if c.cert then CertAttempts(r) else []) + BasicAttempts(c, r)
  }

  /** k calls were refused from call n on, and call k, if there is one, is accepted. */
  ghost predicate FirstAccepted(answers: Answers, n: nat, calls: seq<Call>, k: nat) {
    && k <= |calls|
    && (forall i | 0 <= i < k :: answers(n + i, calls[i]).None?)
    && (k < |calls| ==> answers(n + k, calls[k]).Some?)
  }

  function Identity(call: Call, g: Grant, r: Request): bytes {
    match call
    case LookupToken(_) =>
      if g.displayName != [] then g.displayName else if g.entityId != [] then g.entityId else Ascii("unknown")
    case AuthenticateCert => r.clientCn.GetOr([])
    case AuthenticateUserpass(user, _) => user
    case AuthenticateLdap(user, _) => user
    case AuthenticateAppRole(_, _) => Ascii("approle")
  }

  function Method(call: Call): string {
    match call
    case LookupToken(_) => "token"
    case AuthenticateCert => "cert"
    case AuthenticateUserpass(_, _) => "userpass"
    case AuthenticateLdap(_, _) => "ldap"
    case AuthenticateAppRole(_, _) => "approle"
  }

  /** The result of an accepted call. A looked-up token is the one that was presented. */
  function Accepted(call: Call, g: Grant, r: Request): AuthResult {
    AuthResult(true, if call.LookupToken? then call.token else g.token, Method(call), Identity(call, g, r), None)
  }

  /** The calls made are the attempts up to the first accepted one, and the result is that one's. */
  ghost predicate Tried(answers: Answers, before: seq<Call>, after: seq<Call>, attempts: seq<Call>,
                        res: AuthResult, r: Request)
  {
    exists k: nat ::
      FirstAccepted(answers, |before|, attempts, k) && Reflects(answers, before, after, attempts, res, r, k)
  }

  ghost predicate Reflects(answers: Answers, before: seq<Call>, after: seq<Call>, attempts: seq<Call>,
                           res: AuthResult, r: Request, k: nat)
    requires k <= |attempts|
  {
    && (k < |attempts| ==>
          && after == before + attempts[..k + 1]
          && answers(|before| + k, attempts[k]).Some?
          && res == Accepted(attempts[k], answers(|before| + k, attempts[k]).value, r))
    && (k == |attempts| ==> after == before + attempts && !res.authenticated)
  }

  /** At most one index is the first accepted one, so Tried leaves no choice. */
  lemma {:induction false} FirstAcceptedIsUnique(answers: Answers, n: nat, calls: seq<Call>, k: nat, k': nat)
    requires FirstAccepted(answers, n, calls, k) && FirstAccepted(answers, n, calls, k')
    ensures k == k'
  {
  }

  lemma {:induction false} TriedDone(answers: Answers, b: seq<Call>, m: seq<Call>, xs: seq<Call>,
            ys: seq<Call>, res: AuthResult, r: Request)
    requires Tried(answers, b, m, xs, res, r) && res.authenticated
    ensures Tried(answers, b, m, xs + ys, res, r)
  {
    var k: nat :| FirstAccepted(answers, |b|, xs, k) && Reflects(answers, b, m, xs, res, r, k);
    assert (xs + ys)[..k + 1] == xs[..k + 1];
    assert FirstAccepted(answers, |b|, xs + ys, k) && Reflects(answers, b, m, xs + ys, res, r, k);
  }

  lemma {:induction false} TriedOn(answers: Answers, b: seq<Call>, m: seq<Call>, a: seq<Call>, xs: seq<Call>,
            ys: seq<Call>,
                                   res: AuthResult, res': AuthResult, r: Request)
    requires Tried(answers, b, m, xs, res, r) && !res.authenticated
    requires Tried(answers, m, a, ys, res', r)
    ensures Tried(answers, b, a, xs + ys, res', r)
  {
    var k: nat :| FirstAccepted(answers, |b|, xs, k) && Reflects(answers, b, m, xs, res, r, k);
    var j: nat :| FirstAccepted(answers, |m|, ys, j) && Reflects(answers, m, a, ys, res', r, j);
    var all := xs + ys;
    assert k == |xs| && m == b + xs;
    forall i | 0 <= i < |xs| + j
      ensures answers(|b| + i, all[i]).None?
    {
      if i >= |xs| {
        assert answers(|m| + (i - |xs|), ys[i - |xs|]).None?;
      }
    }
    if j < |ys| {
      assert all[..|xs| + j + 1] == xs + ys[..j + 1];
      assert b + (xs + ys[..j + 1]) == m + ys[..j + 1];
    } else {
      assert b + all == m + ys;
    }
    assert FirstAccepted(answers, |b|, all, |xs| + j) && Reflects(answers, b, a, all, res', r, |xs| + j);
  }

  lemma {:induction false} TriedNothing(answers: Answers, b: seq<Call>, res: AuthResult, r: Request)
    requires !res.authenticated
    ensures Tried(answers, b, b, [], res, r)
  {
    assert FirstAccepted(answers, |b|, [], 0) && Reflects(answers, b, b, [], res, r, 0);
  }

  lemma {:induction false} TriedOne(answers: Answers, b: seq<Call>, call: Call, res: AuthResult, r: Request)
    requires match answers(|b|, call) case Some(g) => res == Accepted(call, g, r) case None => !res.authenticated
    ensures Tried(answers, b, b + [call], [call], res, r)
  {
    var k := if answers(|b|, call).Some? then 0 else 1;
    assert FirstAccepted(answers, |b|, [call], k) && Reflects(answers, b, b + [call], [call], res, r, k);
  }

  // ---- What happens ----

  class Backend {
    var calls: seq<Call>
    const answers: Answers

    constructor (answers: Answers)
      ensures calls == [] && this.answers == answers
    {
      calls := [];
      this.answers := answers;
    }

    method Do(call: Call) returns (g: Option<Grant>)
      modifies this
      ensures calls == old(calls) + [call] && g == answers(|old(calls)|, call)
    {
      g := answers(|calls|, call);
      calls := calls + [call];
    }
  }

  const REFUSED := AuthResult(false, [], "", [], None)

  method AuthenticateToken(b: Backend, r: Request) returns (res: AuthResult)
    modifies b
    ensures Tried(b.answers, old(b.calls), b.calls, TokenAttempts(r), res, r)
  {
    TriedNothing(b.answers, b.calls, REFUSED, r);
    if r.authorization == [] {
      return REFUSED;
    }
    if !(BEARER <= r.authorization) {
      return REFUSED;
    }
    var token := r.authorization[|BEARER|..];
    if token == [] {
      return REFUSED;
    }
    var call := LookupToken(token);
    ghost var before := b.calls;
    var info := b.Do(call);
    if info.None? {
      res := REFUSED.(error := Some("invalid or expired token"));
    } else {
      var identity := Ascii("unknown");
      if info.value.displayName != [] {
        identity := info.value.displayName;
      } else if info.value.entityId != [] {
        identity := info.value.entityId;
      }
      res := AuthResult(true, token, "token", identity, None);
    }
    TriedOne(b.answers, before, call, res, r);
  }

  method AuthenticateCertificate(b: Backend, r: Request) returns (res: AuthResult)
    modifies b
    ensures Tried(b.answers, old(b.calls), b.calls, CertAttempts(r), res, r)
  {
    if r.clientCn.None? {
      TriedNothing(b.answers, b.calls, REFUSED, r);
      return REFUSED;
    }
    ghost var before := b.calls;
    var grant := b.Do(AuthenticateCert);
    if grant.None? {
      res := REFUSED.(error := Some("certificate authentication failed"));
    } else {
      res := AuthResult(true, grant.value.token, "cert", r.clientCn.value, None);
    }
    TriedOne(b.answers, before, AuthenticateCert, res, r);
  }

  /** Overwrites the decoded credentials and drops the references to their parts. */
  method ScrubCredentials(decoded: array<byte>, parts: array<bytes>)
    modifies decoded, parts
    ensures forall i | 0 <= i < decoded.Length :: decoded[i] == 0
    ensures forall i | 0 <= i < parts.Length :: parts[i] == []
  {
    for i := 0 to decoded.Length
      invariant forall j | 0 <= j < i :: decoded[j] == 0
    {
      decoded[i] := 0;
    }
    for i := 0 to parts.Length
      invariant forall j | 0 <= j < decoded.Length :: decoded[j] == 0
      invariant forall j | 0 <= j < i :: parts[j] == []
    {
      parts[i] := [];
    }
  }

  /** One more attempt of Basic authentication, after those in `done` were refused. */
  method Attempt(b: Backend, call: Call, ghost before: seq<Call>, ghost done: seq<Call>, previous: AuthResult,
            r: Request)
    returns (res: AuthResult)
    requires !call.LookupToken? && !call.AuthenticateCert?
    requires Tried(b.answers, before, b.calls, done, previous, r) && !previous.authenticated
    modifies b
    ensures Tried(b.answers, before, b.calls, done + [call], res, r)
    ensures !res.authenticated ==> res.error.Some?
  {
    ghost var now := b.calls;
    var grant := b.Do(call);
    if grant.None? {
      res := REFUSED.(error := Some("authentication failed"));
    } else {
      var identity := if call.AuthenticateAppRole? then Ascii("approle") else call.user;
      res := AuthResult(true, grant.value.token, Method(call), identity, None);
    }
    TriedOne(b.answers, now, call, res, r);
    TriedOn(b.answers, before, now, b.calls, done, [call], previous, res, r);
  }

  /** Userpass, then LDAP, then AppRole; the credentials are scrubbed on every way out. */
  method AttemptCredentials(b: Backend, c: Config, r: Request, user: bytes, password: bytes,
                            decoded: array<byte>, parts: array<bytes>) returns (res: AuthResult)
    modifies b, decoded, parts
    ensures Tried(b.answers, old(b.calls), b.calls, CredentialAttempts(c, user, password), res, r)
    ensures forall i | 0 <= i < decoded.Length :: decoded[i] == 0
    ensures forall i | 0 <= i < parts.Length :: parts[i] == []
    ensures !res.authenticated ==> res.error.Some?
  {
    ghost var before := b.calls;
    ghost var u := if c.userpass then [AuthenticateUserpass(user, password)] else [];
    ghost var l := if c.ldap then [AuthenticateLdap(user, password)] else [];
    ghost var a := if c.appRole then [AuthenticateAppRole(user, password)] else [];
    assert u + (l + a) == u + l + a;
    assert u + [] == u && u + l + [] == u + l && [] + u == u;
    res := REFUSED.(error := Some("no basic authentication methods enabled"));
    TriedNothing(b.answers, before, res, r);
    if c.userpass {
      res := Attempt(b, AuthenticateUserpass(user, password), before, [], res, r);
      if res.authenticated {
        ScrubCredentials(decoded, parts);
        TriedDone(b.answers, before, b.calls, u, l + a, res, r);
        return;
      }
    }
    assert Tried(b.answers, before, b.calls, u, res, r);
    if c.ldap {
      res := Attempt(b, AuthenticateLdap(user, password), before, u, res, r);
      if res.authenticated {
        ScrubCredentials(decoded, parts);
        TriedDone(b.answers, before, b.calls, u + l, a, res, r);
        return;
      }
    }
    assert Tried(b.answers, before, b.calls, u + l, res, r);
    if c.appRole {
      res := Attempt(b, AuthenticateAppRole(user, password), before, u + l, res, r);
    }
    ScrubCredentials(decoded, parts);
  }

  /**
   The buffer and the parts of the decoded credentials are returned for inspection: there is a buffer exactly when the
   header decodes, and it is all zero on every way out. The parts are emptied too, except when there is no colon: then
   the one part, the whole text, stays.
   */
  method AuthenticateBasic(b: Backend, c: Config, r: Request)
    returns (res: AuthResult, ghost buffer: array?<byte>, ghost left: array?<bytes>)
    modifies b
    ensures Tried(b.answers, old(b.calls), b.calls, BasicAttempts(c, r), res, r)
    ensures buffer != null <==> DecodedBasic(r).Some?
    ensures buffer != null ==> fresh(buffer) && forall i | 0 <= i < buffer.Length :: buffer[i] == 0
    ensures left != null <==> DecodedBasic(r).Some?
    ensures left != null && Credentials(DecodedBasic(r).value).Some? ==> forall i | 0 <= i < left.Length :: left[i] == []
    ensures left != null && Credentials(DecodedBasic(r).value).None? ==> left[..] == [DecodedBasic(r).value]
    ensures !res.authenticated && BasicAttempts(c, r) != [] ==> res.error.Some?
  {
    if r.authorization == [] || !(BASIC <= r.authorization) {
      TriedNothing(b.answers, b.calls, REFUSED, r);
      return REFUSED, null, null;
    }
    var text := Base64.Decode(r.authorization[|BASIC|..]);
    if text.None? {
      res := REFUSED.(error := Some("illegal base64 data"));
      TriedNothing(b.answers, b.calls, res, r);
      return res, null, null;
    }
    var decoded := new byte[|text.value|](i requires 0 <= i < |text.value| => text.value[i]);
    assert decoded[..] == text.value;
    var parts := SplitCredentials(decoded[..]);
    if parts.Length != 2 {
      for i := 0 to decoded.Length
        invariant b.calls == old(b.calls) && parts[..] == [text.value]
        invariant forall j | 0 <= j < i :: decoded[j] == 0
      {
        decoded[i] := 0;
      }
      res := REFUSED.(error := Some("invalid basic auth format"));
      TriedNothing(b.answers, b.calls, res, r);
      return res, decoded, parts;
    }
    res := AttemptCredentials(b, c, r, parts[0], parts[1], decoded, parts);
    return res, decoded, parts;
  }

  /** strings.SplitN with a limit of two: one part, or what is before and after the first colon. */
  method SplitCredentials(decoded: bytes) returns (parts: array<bytes>)
    ensures fresh(parts)
    ensures Credentials(decoded).None? ==> parts[..] == [decoded]
    ensures Credentials(decoded).Some? ==> parts[..] == [Credentials(decoded).value.0, Credentials(decoded).value.1]
  {
    var split := Credentials(decoded);
    if split.None? {
      parts := new bytes[] [decoded];
    } else {
      parts := new bytes[] [split.value.0, split.value.1];
    }
  }

  /** Tries the methods in order; a failure always carries an error. */
  method Authenticate(b: Backend, c: Config, r: Request) returns (res: AuthResult)
    modifies b
    ensures Tried(b.answers, old(b.calls), b.calls, Attempts(c, r), res, r)
    ensures !res.authenticated ==> res.error.Some?
  {
    ghost var before, done: seq<Call> := b.calls, [];
    ghost var t := if c.token then TokenAttempts(r) else [];
    ghost var ce := if c.cert then CertAttempts(r) else [];
    ghost var ba := BasicAttempts(c, r);
    assert Attempts(c, r) == t + (ce + ba) == (t + ce) + ba;
    TriedNothing(b.answers, before, REFUSED, r);
    ghost var last := REFUSED;
    if c.token {
      res := AuthenticateToken(b, r);
      if res.authenticated {
        TriedDone(b.answers, before, b.calls, t, ce + ba, res, r);
        return;
      }
      last := res;
    }
    assert Tried(b.answers, before, b.calls, t, last, r);
    if c.cert {
      ghost var now := b.calls;
      res := AuthenticateCertificate(b, r);
      TriedOn(b.answers, before, now, b.calls, t, ce, last, res, r);
      if res.authenticated {
        TriedDone(b.answers, before, b.calls, t + ce, ba, res, r);
        return;
      }
      last := res;
    }
    assert t + [] == t;
    assert Tried(b.answers, before, b.calls, t + ce, last, r);
    if c.userpass || c.ldap || c.appRole {
      ghost var now := b.calls;
      var basic, _, _ := AuthenticateBasic(b, c, r);
      res := basic;
      TriedOn(b.answers, before, now, b.calls, t + ce, ba, last, res, r);
      if res.authenticated {
        return;
      }
      last := res;
    }
    assert t + ce + [] == t + ce;
    res := REFUSED.(error := Some("no valid authentication method found"));
    Refuse(b.answers, before, b.calls, Attempts(c, r), last, res, r);
  }

  lemma {:induction false} Refuse(answers: Answers, b: seq<Call>, a: seq<Call>, attempts: seq<Call>,
            res: AuthResult, res': AuthResult, r: Request)
    requires Tried(answers, b, a, attempts, res, r) && !res.authenticated && !res'.authenticated
    ensures Tried(answers, b, a, attempts, res', r)
  {
    var k: nat :| FirstAccepted(answers, |b|, attempts, k) && Reflects(answers, b, a, attempts, res, r, k);
    assert Reflects(answers, b, a, attempts, res', r, k);
  }

  // ---- Basic credentials ----

  /** A user name without a colon and any password are recovered exactly, line breaks in the header or not. */
  lemma {:induction false} BasicRecovered(user: bytes, password: bytes, text: bytes, cn: Option<bytes>)
    requires COLON !in user && Without(text, {CR, LF}) == Base64.Encode(user + [COLON] + password)
    ensures var decoded := DecodedBasic(Request(BASIC + text, cn));
            decoded.Some? && Credentials(decoded.value) == Some((user, password))
  {
    var d := user + [COLON] + password;
    assert (BASIC + text)[|BASIC|..] == text;
    Base64.RoundTrip(d, text);
    assert d[|user|..|user| + 1] == [COLON];
    assert OccursAt(d, [COLON], |user|);
    var i := Find(d, [COLON]).value;
    assert d[i..i + 1] == [COLON];
    assert d[i] == COLON;
    assert d[..|user|] == user && d[|user| + 1..] == password;
  }

  // ---- The calls and the winner in full ----

  /** The header is "Basic " and base64 text of a user name without a colon, a colon, and a password. */
  predicate IsBasic(r: Request, user: bytes, password: bytes, text: bytes) {
    && r.authorization == [66, 97, 115, 105, 99, 32] + text
    && 58 !in user && Without(text, {CR, LF}) == Base64.Encode(user + [58] + password)
  }

  /** The header is not "Basic " and base64 text of something with a colon. */
  predicate NoCredentials(r: Request) {
    || !([66, 97, 115, 105, 99, 32] <= r.authorization)
    || Base64.Decode(r.authorization[6..]) == None
    || 58 !in Base64.Decode(r.authorization[6..]).value
  }

  lemma {:induction false} TriedCons(answers: Answers, b: seq<Call>, a: seq<Call>, x: Call, rest: seq<Call>,
                                     res: AuthResult, r: Request)
    requires Tried(answers, b, a, [x] + rest, res, r)
    ensures match answers(|b|, x)
            case Some(g) => a == b + [x] && res == Accepted(x, g, r)
            case None => Tried(answers, b + [x], a, rest, res, r)
  {
    var all := [x] + rest;
    var k: nat :| FirstAccepted(answers, |b|, all, k) && Reflects(answers, b, a, all, res, r, k);
    assert all[0] == x;
    if k == 0 {
      assert all[..1] == [x];
    } else {
      assert answers(|b| + 0, all[0]).None?;
      forall i | 0 <= i < k - 1
        ensures answers(|b + [x]| + i, rest[i]).None?
      {
        assert all[i + 1] == rest[i] && answers(|b| + (i + 1), all[i + 1]).None?;
      }
      if k < |all| {
        assert all[k] == rest[k - 1] && all[..k + 1] == [x] + rest[..k];
        assert b + ([x] + rest[..k]) == (b + [x]) + rest[..k];
      } else {
        assert b + all == (b + [x]) + rest;
      }
      assert FirstAccepted(answers, |b + [x]|, rest, k - 1) && Reflects(answers, b + [x], a, rest, res, r, k - 1);
    }
  }

  lemma {:induction false} TriedNone(answers: Answers, b: seq<Call>, a: seq<Call>, res: AuthResult, r: Request)
    requires Tried(answers, b, a, [], res, r)
    ensures a == b && !res.authenticated
  {
    assert b + [] == b;
  }

  /** One method: skipped when it does not apply, else called and either accepted or refused. */
  lemma {:induction false} TriedMaybe(answers: Answers, b: seq<Call>, a: seq<Call>, applies: bool, x: Call,
                                      rest: seq<Call>, res: AuthResult, r: Request)
    requires Tried(answers, b, a, (if applies then [x] else []) + rest, res, r)
    ensures applies && answers(|b|, x).Some? ==> a == b + [x] && res == Accepted(x, answers(|b|, x).value, r)
    ensures !(applies && answers(|b|, x).Some?) ==> Tried(answers, b + if applies then [x] else [], a, rest, res, r)
  {
    if applies {
      TriedCons(answers, b, a, x, rest, res, r);
    } else {
      assert [] + rest == rest && b + [] == b;
    }
  }

  /**
   Userpass first if enabled; LDAP if enabled and userpass is off or was refused; AppRole if enabled and both are off
   or were refused. Each gets this user and password. The accepted one gives its token, its name and the identity.
   */
  ghost predicate BasicTrace(answers: Answers, c: Config, user: bytes, password: bytes,
                             before: seq<Call>, after: seq<Call>, res: AuthResult)
  {
    var u, l, a :=
      AuthenticateUserpass(user, password), AuthenticateLdap(user, password), AuthenticateAppRole(user, password);
    var userpass := c.userpass && answers(|before|, u).Some?;
    var b1 := before + if c.userpass then [u] else [];
    var triesLdap := c.ldap && !userpass;
    var ldap := triesLdap && answers(|b1|, l).Some?;
    var b2 := b1 + if triesLdap then [l] else [];
    var triesAppRole := c.appRole && !userpass && !ldap;
    var appRole := triesAppRole && answers(|b2|, a).Some?;
    && after == b2 + (if triesAppRole then [a] else [])
    && (userpass ==> res == AuthResult(true, answers(|before|, u).value.token, "userpass", user, None))
    && (ldap ==> res == AuthResult(true, answers(|b1|, l).value.token, "ldap", user, None))
    && (appRole ==> res == AuthResult(true, answers(|b2|, a).value.token, "approle", Ascii("approle"), None))
    && (!userpass && !ldap && !appRole ==> !res.authenticated)
  }

  lemma {:induction false} AppRoleCalled(answers: Answers, c: Config, user: bytes, password: bytes,
                                         before: seq<Call>, after: seq<Call>, res: AuthResult, r: Request)
    requires c.appRole ==> Tried(answers, before, after, [AuthenticateAppRole(user, password)], res, r)
    requires !c.appRole ==> Tried(answers, before, after, [], res, r)
    ensures var a := AuthenticateAppRole(user, password);
            && after == before + (if c.appRole then [a] else [])
            && (if c.appRole && answers(|before|, a).Some? then res == Accepted(a, answers(|before|, a).value, r)
                else !res.authenticated)
  {
    var a := AuthenticateAppRole(user, password);
    if c.appRole {
      assert [a] + [] == [a];
      TriedMaybe(answers, before, after, true, a, [], res, r);
      if answers(|before|, a).None? {
        TriedNone(answers, before + [a], after, res, r);
      }
    } else {
      TriedNone(answers, before, after, res, r);
      assert before + [] == before;
    }
  }

  lemma {:induction false} LdapCalled(answers: Answers, c: Config, user: bytes, password: bytes,
                                      before: seq<Call>, after: seq<Call>, res: AuthResult, r: Request)
    requires var l, a := AuthenticateLdap(user, password), AuthenticateAppRole(user, password);
             Tried(answers, before, after, (if c.ldap then [l] else []) + if c.appRole then [a] else [], res, r)
    ensures var l, a := AuthenticateLdap(user, password), AuthenticateAppRole(user, password);
            var b2 := before + if c.ldap then [l] else [];
            if c.ldap && answers(|before|, l).Some? then after == b2 && res == Accepted(l, answers(|before|, l).value, r)
            else
              && after == b2 + (if c.appRole then [a] else [])
              && (if c.appRole && answers(|b2|, a).Some? then res == Accepted(a, answers(|b2|, a).value, r)
                  else !res.authenticated)
  {
    var l, a := AuthenticateLdap(user, password), AuthenticateAppRole(user, password);
    TriedMaybe(answers, before, after, c.ldap, l, if c.appRole then [a] else [], res, r);
    if !(c.ldap && answers(|before|, l).Some?) {
      AppRoleCalled(answers, c, user, password, before + if c.ldap then [l] else [], after, res, r);
    }
  }

  lemma {:induction false} TraceOfCredentials(answers: Answers, c: Config, user: bytes, password: bytes,
                                              before: seq<Call>, after: seq<Call>, res: AuthResult, r: Request)
    requires Tried(answers, before, after, CredentialAttempts(c, user, password), res, r)
    ensures BasicTrace(answers, c, user, password, before, after, res)
  {
    var u, l, a :=
      AuthenticateUserpass(user, password), AuthenticateLdap(user, password), AuthenticateAppRole(user, password);
    var us, ls, xs := if c.userpass then [u] else [], if c.ldap then [l] else [], if c.appRole then [a] else [];
    assert us + ls + xs == us + (ls + xs);
    TriedMaybe(answers, before, after, c.userpass, u, ls + xs, res, r);
    if c.userpass && answers(|before|, u).Some? {
      UserpassTrace(answers, c, user, password, before, after, res);
    } else {
      LdapCalled(answers, c, user, password, before + us, after, res, r);
      LaterTrace(answers, c, user, password, before, after, res, r);
    }
  }

  lemma {:induction false} UserpassTrace(answers: Answers, c: Config, user: bytes, password: bytes,
                                         before: seq<Call>, after: seq<Call>, res: AuthResult)
    requires var u := AuthenticateUserpass(user, password);
             && c.userpass && answers(|before|, u).Some? && after == before + [u]
             && res == AuthResult(true, answers(|before|, u).value.token, "userpass", user, None)
    ensures BasicTrace(answers, c, user, password, before, after, res)
  {
    assert after + [] + [] == after;
  }

  lemma {:induction false} LaterTrace(answers: Answers, c: Config, user: bytes, password: bytes,
                                      before: seq<Call>, after: seq<Call>, res: AuthResult, r: Request)
    requires var u, l, a :=
               AuthenticateUserpass(user, password), AuthenticateLdap(user, password), AuthenticateAppRole(user, password);
             var b1 := before + if c.userpass then [u] else [];
             var b2 := b1 + if c.ldap then [l] else [];
             && !(c.userpass && answers(|before|, u).Some?)
             && if c.ldap && answers(|b1|, l).Some? then after == b2 && res == Accepted(l, answers(|b1|, l).value, r)
                else
                  && after == b2 + (if c.appRole then [a] else [])
                  && (if c.appRole && answers(|b2|, a).Some? then res == Accepted(a, answers(|b2|, a).value, r)
                      else !res.authenticated)
    ensures BasicTrace(answers, c, user, password, before, after, res)
  {
    assert after + [] == after;
  }

  lemma {:induction false} ColonFound(d: bytes)
    ensures Credentials(d).Some? <==> 58 in d
  {
    match Find(d, [COLON])
    case Some(i) =>
      assert d[i..i + 1] == [COLON];
      assert d[i] == COLON;
    case None =>
      forall i | 0 <= i < |d|
        ensures d[i] != 58
      {
        assert !OccursAt(d, [COLON], i);
        assert d[i..i + 1] == [d[i]];
      }
  }

  lemma {:induction false} SchemeOctets()
    ensures BASIC == [66, 97, 115, 105, 99, 32] && BEARER == [66, 101, 97, 114, 101, 114, 32]
  {
  }

  /** Basic authentication makes exactly the calls of the trace for the user and password in the header. */
  lemma {:induction false} BasicInFull(answers: Answers, c: Config, r: Request, before: seq<Call>, after: seq<Call>,
                                       res: AuthResult)
    requires Tried(answers, before, after, BasicAttempts(c, r), res, r)
    ensures NoCredentials(r) ==> after == before && !res.authenticated
    ensures forall user, password, text | IsBasic(r, user, password, text) ::
              BasicTrace(answers, c, user, password, before, after, res)
  {
    SchemeOctets();
    if NoCredentials(r) {
      if DecodedBasic(r).Some? {
        ColonFound(DecodedBasic(r).value);
      }
      TriedNone(answers, before, after, res, r);
    }
    forall user, password, text | IsBasic(r, user, password, text)
      ensures BasicTrace(answers, c, user, password, before, after, res)
    {
      BasicRecovered(user, password, text, r.clientCn);
      assert r == Request(BASIC + text, r.clientCn);
      TraceOfCredentials(answers, c, user, password, before, after, res, r);
    }
  }

  /** The calls before Basic authentication: the bearer token, then the certificate unless the token was accepted. */
  datatype Early = Early(token: Option<bytes>, tokenOk: bool, cert: bool, certOk: bool, mid: seq<Call>, late: seq<Call>)

  ghost function EarlyOf(answers: Answers, c: Config, r: Request, before: seq<Call>): Early {
    var token :=
      if c.token && [66, 101, 97, 114, 101, 114, 32] < r.authorization then Some(r.authorization[7..]) else None;
    var tokenOk := token.Some? && answers(|before|, LookupToken(token.value)).Some?;
    var mid := before + if token.Some? then [LookupToken(token.value)] else [];
    var cert := c.cert && r.clientCn.Some? && !tokenOk;
    var late := mid + if cert then [AuthenticateCert] else [];
    Early(token, tokenOk, cert, cert && answers(|mid|, AuthenticateCert).Some?, mid, late)
  }

  /**
   A bearer token that is accepted ends the search, with the token itself; then an accepted certificate does, with its
   common name; only then is Basic authentication tried.
   */
  lemma {:induction false} AuthenticateInFull(answers: Answers, c: Config, r: Request, before: seq<Call>,
                                              after: seq<Call>, res: AuthResult)
    requires Tried(answers, before, after, Attempts(c, r), res, r)
    ensures var e := EarlyOf(answers, c, r, before);
            && (e.tokenOk ==>
                  var g := answers(|before|, LookupToken(e.token.value)).value;
                  && after == e.mid
                  && res.authenticated && res.token == e.token.value && res.method' == "token"
                  && res.identity == if g.displayName != [] then g.displayName
                                     else if g.entityId != [] then g.entityId else Ascii("unknown"))
            && (e.certOk ==>
                  && after == e.late
                  && var g := answers(|e.mid|, AuthenticateCert).value;
                     res == AuthResult(true, g.token, "cert", r.clientCn.value, None))
            && (!e.tokenOk && !e.certOk ==>
                  && (NoCredentials(r) ==> after == e.late && !res.authenticated)
                  && (forall user, password, text | IsBasic(r, user, password, text) ::
                        BasicTrace(answers, c, user, password, e.late, after, res)))
  {
    SchemeOctets();
    var e := EarlyOf(answers, c, r, before);
    var t := if c.token then TokenAttempts(r) else [];
    var x := if c.cert then CertAttempts(r) else [];
    var basic := BasicAttempts(c, r);
    assert Attempts(c, r) == t + (x + basic);
    var call := LookupToken(e.token.GetOr([]));
    assert t == if e.token.Some? then [call] else [];
    assert x == if c.cert && r.clientCn.Some? then [AuthenticateCert] else [];
    TriedMaybe(answers, before, after, e.token.Some?, call, x + basic, res, r);
    if !e.tokenOk {
      TriedMaybe(answers, e.mid, after, c.cert && r.clientCn.Some?, AuthenticateCert, basic, res, r);
      if !e.certOk {
        BasicInFull(answers, c, r, e.late, after, res);
      }
    }
  }
}
