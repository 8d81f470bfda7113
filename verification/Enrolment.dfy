/**
 Enrolment and re-enrolment as a protocol: any number of requests, each authenticating, passing its gates,
 cloning the shared backend client, giving the clone its own token, signing, closing the clone and replying,
 interleaved in any order. All clients live on one heap; a sign call uses whatever token its client holds then.
 */
module Enrolment {
  import opened Wrappers
  import opened Bytes
  import opened CsrChecks
  import opened Log
  import CsrReader
  import Pem
  import BackendErrors

  datatype Policy = Policy(kind: string, value: string, mount: string, ttl: string)

  /** Which bytes parse as a certificate, and what is said of the others. */
  datatype X509 = X509(isCert: bytes -> bool, whyNot: bytes -> string)

  datatype Config = Config(policy: Policy, defaultMount: string, allowed: Allowed, render: Render, x509: X509)

  /** How the server answers a sign call: it refuses, or it sends no data, or no certificate, or some text. */
  datatype Answer = Refused(error: string) | NoData | NoCertificate | Text(pem: bytes)

  /**
   One request and the answers it meets: what authentication returns, what its body reads as, whether the
   clone fails, and what the backend answers to the sign call.
   */
  datatype Request = Request(
    isPost: bool, reenroll: bool, clientCert: Option<Certificate>, auth: Option<bytes>,
    body: Result<Csr, CsrReader.ReadError>, cloneError: Option<string>, answer: Answer)

  /** What a request does that others can see. */
  datatype Act = MakeClone | Sign(token: bytes, path: string, ttl: string, csr: Csr) | CloseClone | Reply(status: nat)

  // ---- One request ----

  /** The CSR may be signed: algorithm and signature, and key and names when renewing with a TLS certificate. */
  predicate Acceptable(c: Config, r: Request, csr: Csr) {
    && AlgorithmAllowed(csr.algorithm, c.allowed)
    && csr.signatureValid
    && (r.reenroll && r.clientCert.Some? ==>
          SameKey(csr, r.clientCert.value) && RenewalAllowed(csr, r.clientCert.value, c.render))
  }

  /** The status with which the gates refuse, or the token and CSR that pass them. */
  function Gate(c: Config, r: Request): Result<(bytes, Csr), nat> {
    if !r.isPost then Err(405)
    else if r.auth.None? then Err(401)
    else
      match r.body
      case Err(e) => Err(if e.RequestTooLarge? then 413 else 400)
      case Ok(csr) => if Acceptable(c, r, csr) then Ok((r.auth.value, csr)) else Err(400)
  }

  const NO_AUTHENTICATION := "no authentication available"
  const INVALID_POLICY := "invalid policy type: "

  /** The error of a failed clone as it reaches the handler. */
  function CloneFailure(e: string): string {
    BackendErrors.CREATE_WRAP + (BackendErrors.CLONE_WRAP + e)
  }

  predicate CanSign(c: Config) {
    c.policy.kind == "role" || c.policy.kind == "sign-verbatim"
  }

  function Mount(c: Config): string {
    if c.policy.mount == "" then c.defaultMount else c.policy.mount
  }

  /** Where the CSR is sent. */
  function SignPath(c: Config): string {
    if c.policy.kind == "role" then Mount(c) + "/sign/" + c.policy.value else Mount(c) + "/sign-verbatim"
  }

  const NO_DATA := "no certificate data returned"
  const NO_CERTIFICATE := "certificate not found in response"
  const NO_PEM := "failed to decode PEM certificate"
  const NOT_PARSED := "failed to parse certificate: "

  function RefusalWrap(c: Config): string {
    if c.policy.kind == "role" then BackendErrors.SIGN_WRAP else BackendErrors.VERBATIM_WRAP
  }

  /** What SignCSR and SignCSRVerbatim make of the answer. */
  function Certified(c: Config, answer: Answer): Result<bytes, string> {
    match answer
    case Refused(e) => Err(RefusalWrap(c) + e)
    case NoData => Err(NO_DATA)
    case NoCertificate => Err(NO_CERTIFICATE)
    case Text(pem) =>
      match Pem.Decode(pem)
      case None => Err(NO_PEM)
      case Some(der) => if c.x509.isCert(der) then Ok(der) else Err(NOT_PARSED + c.x509.whyNot(der))
  }

  /** What processCSRSigning returns once it has a clone. */
  function Outcome(c: Config, r: Request): Result<bytes, string> {
    if !CanSign(c) then Err(INVALID_POLICY + c.policy.kind)
    else
      match Certified(c, r.answer)
      case Ok(cert) => Ok(cert)
      case Err(e) => Err(BackendErrors.SIGN_WRAP + e)
  }

  function ErrorStatus(e: string): nat {
    BackendErrors.ParseBackendError(e).statusCode
  }

  function Status(outcome: Result<bytes, string>): nat {
    match outcome case Ok(_) => 200 case Err(e) => ErrorStatus(e)
  }

  /** How a request ends that holds a clone. */
  function Finish(c: Config, r: Request): seq<Act> {
    [CloseClone, Reply(Status(Outcome(c, r)))]
  }

  function SignAndFinish(c: Config, r: Request, token: bytes, csr: Csr): seq<Act> {
    (if CanSign(c) then [Sign(token, SignPath(c), c.policy.ttl, csr)] else []) + Finish(c, r)
  }

  /** The status of a request that passed the gates and gets no clone. */
  function NoClone(r: Request, token: bytes): Option<nat> {
    if token == [] then Some(ErrorStatus(NO_AUTHENTICATION))
    else
      match r.cloneError
      case Some(e) => Some(ErrorStatus(CloneFailure(e)))
      case None => None
  }

  /** What is left to do with a token and a CSR that passed the gates. */
  function AfterGate(c: Config, r: Request, token: bytes, csr: Csr): seq<Act> {
    match NoClone(r, token)
    case Some(status) => [Reply(status)]
    case None => [MakeClone] + SignAndFinish(c, r, token, csr)
  }

  /** Everything one request does, on its own. */
  function Script(c: Config, r: Request): seq<Act> {
    match Gate(c, r)
    case Err(status) => [Reply(status)]
    case Ok((token, csr)) => AfterGate(c, r, token, csr)
  }

  // ---- Many requests ----

  datatype Phase =
    | Arrived
    | Admitted(token: bytes, csr: Csr)
    | Cloning(token: bytes, csr: Csr, id: nat)   // cloned, still with the base client's token
    | Ready(csr: Csr, id: nat)
    | Signed(id: nat)
    | Closed
    | Done

  /** base: the shared client's token; clients: the token each clone holds; log: who did what, in order. */
  datatype State = State(base: bytes, clients: seq<bytes>, phases: map<nat, Phase>, log: seq<(nat, Act)>)

  function Start(base: bytes, reqs: map<nat, Request>): State {
    State(base, [], map q | q in reqs :: Arrived, [])
  }

  function Goto(s: State, q: nat, p: Phase): State {
    s.(phases := s.phases[q := p])
  }

  function Do(s: State, q: nat, a: Act, p: Phase): State {
    s.(phases := s.phases[q := p], log := s.log + [(q, a)])
  }

  /** The client a request holds open. */
  function Holds(p: Phase): Option<nat> {
    match p
    case Cloning(_, _, id) => Some(id)
    case Ready(_, id) => Some(id)
    case Signed(id) => Some(id)
    case _ => None
  }

  predicate Possible(s: State, q: nat) {
    q in s.phases && (Holds(s.phases[q]).Some? ==> Holds(s.phases[q]).value < |s.clients|)
  }

  /** The next step of request q. */
  function Step(c: Config, r: Request, s: State, q: nat): State
    requires Possible(s, q)
  {
    match s.phases[q]
    case Arrived =>
      (match Gate(c, r)
       case Err(status) => Do(s, q, Reply(status), Done)
       case Ok((token, csr)) => Goto(s, q, Admitted(token, csr)))
    case Admitted(token, csr) =>
      (match NoClone(r, token)
       case Some(status) => Do(s, q, Reply(status), Done)
       case None => Do(s, q, MakeClone, Cloning(token, csr, |s.clients|)).(clients := s.clients + [s.base]))
    case Cloning(token, csr, id) =>
      Goto(s, q, Ready(csr, id)).(clients := s.clients[id := token])
    case Ready(csr, id) =>
      if CanSign(c) then Do(s, q, Sign(s.clients[id], SignPath(c), c.policy.ttl, csr), Signed(id))
      else Goto(s, q, Signed(id))
    case Signed(id) =>
      Do(s, q, CloseClone, Closed).(clients := s.clients[id := []])
    case Closed => Do(s, q, Reply(Status(Outcome(c, r))), Done)
    case Done => s
  }

  /** What is left of its script in each phase. */
  function Rest(c: Config, r: Request, p: Phase, clients: seq<bytes>): seq<Act> {
    match p
    case Arrived => Script(c, r)
    case Admitted(token, csr) => AfterGate(c, r, token, csr)
    case Cloning(token, csr, _) => SignAndFinish(c, r, token, csr)
    case Ready(csr, id) =>
      if id >= |clients| then [] else SignAndFinish(c, r, clients[id], csr)
    case Signed(_) => Finish(c, r)
    case Closed => [Reply(Status(Outcome(c, r)))]
    case Done => []
  }

  /** What a request did and what it still has to do make up its script. */
  ghost predicate Progress(c: Config, r: Request, s: State, q: nat) {
    Possible(s, q) && Mine(s.log, q) + Rest(c, r, s.phases[q], s.clients) == Script(c, r)
  }

  ghost predicate Unshared(s: State, q: nat, q': nat) {
    q in s.phases && q' in s.phases && Holds(s.phases[q]).Some? ==> Holds(s.phases[q]) != Holds(s.phases[q'])
  }

  /** A client that has a token is held by a request. */
  ghost predicate Held(s: State, id: nat) {
    id < |s.clients| && s.clients[id] != [] ==> exists q :: q in s.phases && Holds(s.phases[q]) == Some(id)
  }

  ghost predicate Inv(c: Config, reqs: map<nat, Request>, s: State, base: bytes) {
    && s.base == base
    && s.phases.Keys == reqs.Keys
    && (forall q | q in reqs :: Progress(c, reqs[q], s, q))
    && (forall q, q' | q in reqs && q' in reqs && q != q' :: Unshared(s, q, q'))
    && (forall id :: Held(s, id))
    && (forall q | q !in reqs :: Mine(s.log, q) == [])
  }

  /** A step does the next act of the script, if it does any. */
  lemma {:induction false} StepActs(c: Config, r: Request, s: State, q: nat)
    requires Possible(s, q)
    ensures var s' := Step(c, r, s, q);
            && s'.base == s.base && s'.phases.Keys == s.phases.Keys
            && (forall q' | q' in s.phases && q' != q :: s'.phases[q'] == s.phases[q'])
            && (s'.log == s.log || (exists a :: s'.log == s.log + [(q, a)]))
  {
    match s.phases[q]
    case Arrived =>
    case Admitted(token, csr) =>
    case _ =>
  }

  /** The step does nothing and leaves the rest as it was, or does the first act of the rest. */
  ghost predicate DoesNext(s: State, q: nat, s': State, rest: seq<Act>, rest': seq<Act>) {
    && (s'.log == s.log ==> rest == rest')
    && (s'.log != s.log ==> rest != [] && rest[1..] == rest' && s'.log == s.log + [(q, rest[0])])
  }

  lemma {:induction false} DoesFirst(s: State, q: nat, s': State, act: Act, rest: seq<Act>)
    requires s'.log == s.log + [(q, act)]
    ensures DoesNext(s, q, s', [act] + rest, rest)
  {
    assert |s'.log| == |s.log| + 1;
    assert ([act] + rest)[1..] == rest;
  }

  lemma {:induction false} Replied(s: State, q: nat, s': State, act: Act)
    requires s'.log == s.log + [(q, act)]
    ensures DoesNext(s, q, s', [act], [])
  {
    DoesFirst(s, q, s', act, []);
    assert [act] + [] == [act];
  }

  lemma {:induction false} ArrivedRest(c: Config, r: Request, s: State, q: nat)
    requires Possible(s, q) && s.phases[q].Arrived?
    ensures var s' := Step(c, r, s, q);
            DoesNext(s, q, s', Script(c, r), Rest(c, r, s'.phases[q], s'.clients))
  {
    if Gate(c, r).Err? {
      Replied(s, q, Step(c, r, s, q), Reply(Gate(c, r).error));
    }
  }

  lemma {:induction false} RefusedRest(c: Config, r: Request, s: State, q: nat, status: nat)
    requires Possible(s, q) && s.phases[q].Admitted? && NoClone(r, s.phases[q].token) == Some(status)
    ensures var s' := Step(c, r, s, q);
            s'.phases[q] == Done && DoesNext(s, q, s', [Reply(status)], [])
  {
    Replied(s, q, Step(c, r, s, q), Reply(status));
  }

  lemma {:induction false} ClonedRest(c: Config, r: Request, s: State, q: nat)
    requires Possible(s, q) && s.phases[q].Admitted? && NoClone(r, s.phases[q].token) == None
    ensures var s' := Step(c, r, s, q);
            var left := SignAndFinish(c, r, s.phases[q].token, s.phases[q].csr);
            && s'.phases[q] == Cloning(s.phases[q].token, s.phases[q].csr, |s.clients|)
            && DoesNext(s, q, s', [MakeClone] + left, left)
  {
    DoesFirst(s, q, Step(c, r, s, q), MakeClone, SignAndFinish(c, r, s.phases[q].token, s.phases[q].csr));
  }

  lemma {:induction false} AdmittedRest(c: Config, r: Request, s: State, q: nat)
    requires Possible(s, q) && s.phases[q].Admitted?
    ensures var s' := Step(c, r, s, q);
            DoesNext(s, q, s', Rest(c, r, s.phases[q], s.clients), Rest(c, r, s'.phases[q], s'.clients))
  {
    match NoClone(r, s.phases[q].token)
    case Some(status) => RefusedRest(c, r, s, q, status);
    case None => ClonedRest(c, r, s, q);
  }

  lemma {:induction false} ReadyRest(c: Config, r: Request, s: State, q: nat)
    requires Possible(s, q) && s.phases[q].Ready?
    ensures var s' := Step(c, r, s, q);
            DoesNext(s, q, s', SignAndFinish(c, r, s.clients[s.phases[q].id], s.phases[q].csr), Finish(c, r))
  {
    var p := s.phases[q];
    if CanSign(c) {
      DoesFirst(s, q, Step(c, r, s, q), Sign(s.clients[p.id], SignPath(c), c.policy.ttl, p.csr), Finish(c, r));
    } else {
      assert [] + Finish(c, r) == Finish(c, r);
    }
  }

  lemma {:induction false} SignedRest(c: Config, r: Request, s: State, q: nat)
    requires Possible(s, q) && s.phases[q].Signed?
    ensures DoesNext(s, q, Step(c, r, s, q), Finish(c, r), [Reply(Status(Outcome(c, r)))])
  {
    DoesFirst(s, q, Step(c, r, s, q), CloseClone, [Reply(Status(Outcome(c, r)))]);
  }

  lemma {:induction false} OwnRest(c: Config, r: Request, s: State, q: nat)
    requires Possible(s, q)
    ensures var s' := Step(c, r, s, q);
            DoesNext(s, q, s', Rest(c, r, s.phases[q], s.clients), Rest(c, r, s'.phases[q], s'.clients))
  {
    match s.phases[q]
    case Arrived => ArrivedRest(c, r, s, q);
    case Admitted(_, _) => AdmittedRest(c, r, s, q);
    case Cloning(_, _, _) =>
    case Ready(_, _) => ReadyRest(c, r, s, q);
    case Signed(_) => SignedRest(c, r, s, q);
    case Closed => Replied(s, q, Step(c, r, s, q), Reply(Status(Outcome(c, r))));
    case Done =>
  }

  lemma {:induction false} Advance(log: seq<(nat, Act)>, q: nat, rest: seq<Act>, script: seq<Act>)
    requires rest != [] && Mine(log, q) + rest == script
    ensures Mine(log + [(q, rest[0])], q) + rest[1..] == script
  {
    MineAppend(log, q, rest[0], q);
    assert Mine(log, q) + rest == Mine(log, q) + [rest[0]] + rest[1..];
  }

  lemma {:induction false} OthersLog(log: seq<(nat, Act)>, log': seq<(nat, Act)>, q: nat, q': nat)
    requires q != q' && (log' == log || exists a :: log' == log + [(q, a)])
    ensures Mine(log', q') == Mine(log, q')
  {
    if log' != log {
      var a :| log' == log + [(q, a)];
      MineAppend(log, q, a, q');
    }
  }

  lemma {:induction false} OthersRest(c: Config, r: Request, p: Phase, clients: seq<bytes>, clients': seq<bytes>)
    requires Holds(p).Some? ==>
               var id := Holds(p).value; id < |clients| && id < |clients'| && clients[id] == clients'[id]
    ensures Rest(c, r, p, clients) == Rest(c, r, p, clients')
  {
  }

  lemma {:induction false} OwnProgress(c: Config, r: Request, s: State, q: nat)
    requires Progress(c, r, s, q)
    ensures Progress(c, r, Step(c, r, s, q), q)
  {
    var s' := Step(c, r, s, q);
    OwnPossible(c, r, s, q);
    OwnRest(c, r, s, q);
    if s'.log != s.log {
      Advance(s.log, q, Rest(c, r, s.phases[q], s.clients), Script(c, r));
    }
  }

  /** A step leaves the clients of others alone. */
  lemma {:induction false} OtherClients(c: Config, r: Request, s: State, q: nat, id: nat)
    requires Possible(s, q) && id < |s.clients| && Holds(s.phases[q]) != Some(id)
    ensures var s' := Step(c, r, s, q);
            id < |s'.clients| && s'.clients[id] == s.clients[id] && Holds(s'.phases[q]) != Some(id)
  {
    match s.phases[q]
    case Arrived =>
    case Admitted(token, csr) =>
    case _ =>
  }

  /** What a step of q keeps of another request. */
  ghost predicate Untouched(c: Config, reqs: map<nat, Request>, s: State, s': State, q: nat, q': nat) {
    && Mine(s'.log, q') == Mine(s.log, q')
    && (q' in reqs ==>
          && q' in s.phases && q' in s'.phases && s'.phases[q'] == s.phases[q']
          && Progress(c, reqs[q'], s', q') && Unshared(s', q', q) && Unshared(s', q, q'))
  }

  lemma {:induction false} OtherRequest(c: Config, reqs: map<nat, Request>, s: State, base: bytes, q: nat, q': nat)
    requires Inv(c, reqs, s, base) && q in reqs && q' != q
    ensures Untouched(c, reqs, s, Step(c, reqs[q], s, q), q, q')
  {
    var s' := Step(c, reqs[q], s, q);
    assert Progress(c, reqs[q], s, q);
    StepActs(c, reqs[q], s, q);
    OthersLog(s.log, s'.log, q, q');
    if q' in reqs {
      assert Progress(c, reqs[q'], s, q') && Unshared(s, q', q);
      if Holds(s.phases[q']).Some? {
        OtherClients(c, reqs[q], s, q, Holds(s.phases[q']).value);
      }
      OthersRest(c, reqs[q'], s.phases[q'], s.clients, s'.clients);
    }
  }

  /** A client that has a token after a step is held after it. */
  lemma {:induction false} HeldAfter(c: Config, reqs: map<nat, Request>, s: State, base: bytes, q: nat, id: nat)
    requires Inv(c, reqs, s, base) && q in reqs
    ensures Possible(s, q) && Held(Step(c, reqs[q], s, q), id)
  {
    assert Progress(c, reqs[q], s, q) && Held(s, id);
    var s' := Step(c, reqs[q], s, q);
    StepActs(c, reqs[q], s, q);
    if id < |s'.clients| && s'.clients[id] != [] {
      if id < |s.clients| && Holds(s.phases[q]) != Some(id) {
        OtherClients(c, reqs[q], s, q, id);
        var q' :| q' in s.phases && Holds(s.phases[q']) == Some(id);
        assert s'.phases[q'] == s.phases[q'];
      } else {
        OwnHold(c, reqs[q], s, q, id);
      }
    }
  }

  lemma {:induction false} OwnHold(c: Config, r: Request, s: State, q: nat, id: nat)
    requires Possible(s, q) && (id < |s.clients| ==> Holds(s.phases[q]) == Some(id))
    requires var s' := Step(c, r, s, q); id < |s'.clients| && s'.clients[id] != []
    ensures Holds(Step(c, r, s, q).phases[q]) == Some(id)
  {
    match s.phases[q]
    case Arrived =>
    case Admitted(token, csr) =>
    case _ =>
  }

  lemma {:induction false} OwnPossible(c: Config, r: Request, s: State, q: nat)
    requires Possible(s, q)
    ensures Possible(Step(c, r, s, q), q)
  {
    match s.phases[q]
    case Arrived =>
    case Admitted(token, csr) =>
    case _ =>
  }

  lemma {:induction false} StepInv(c: Config, reqs: map<nat, Request>, s: State, base: bytes, q: nat)
    requires Inv(c, reqs, s, base) && q in reqs
    ensures Possible(s, q) && Inv(c, reqs, Step(c, reqs[q], s, q), base)
  {
    assert Progress(c, reqs[q], s, q);
    var s' := Step(c, reqs[q], s, q);
    StepActs(c, reqs[q], s, q);
    OwnProgress(c, reqs[q], s, q);
    forall q' | q' != q
      ensures Untouched(c, reqs, s, s', q, q')
    {
      OtherRequest(c, reqs, s, base, q, q');
    }
    forall id: nat
      ensures Held(s', id)
    {
      HeldAfter(c, reqs, s, base, q, id);
    }
    InvFrom(c, reqs, s, s', base, q);
  }

  lemma {:induction false} InvFrom(c: Config, reqs: map<nat, Request>, s: State, s': State, base: bytes, q: nat)
    requires Inv(c, reqs, s, base) && q in reqs && s'.base == base && s'.phases.Keys == s.phases.Keys
    requires forall q' | q' != q :: Untouched(c, reqs, s, s', q, q')
    requires Progress(c, reqs[q], s', q) && forall id :: Held(s', id)
    ensures Inv(c, reqs, s', base)
  {
    forall q' | q' in reqs
      ensures Progress(c, reqs[q'], s', q')
    {
      assert q' != q ==> Untouched(c, reqs, s, s', q, q');
    }
    forall x, y | x in reqs && y in reqs && x != y
      ensures Unshared(s', x, y)
    {
      assert x != q ==> Untouched(c, reqs, s, s', q, x);
      assert y != q ==> Untouched(c, reqs, s, s', q, y);
      assert Unshared(s, x, y);
    }
    forall q' | q' !in reqs
      ensures Mine(s'.log, q') == []
    {
      assert Untouched(c, reqs, s, s', q, q');
    }
  }

  /** A run: in each step the scheduler picks a request. */
  function Run(c: Config, reqs: map<nat, Request>, s: State, schedule: seq<nat>): Option<State>
    decreases |schedule|
  {
    if schedule == [] then Some(s)
    else if schedule[0] !in reqs || !Possible(s, schedule[0]) then None
    else Run(c, reqs, Step(c, reqs[schedule[0]], s, schedule[0]), schedule[1..])
  }

  lemma {:induction false} RunInv(c: Config, reqs: map<nat, Request>, s: State, base: bytes, schedule: seq<nat>)
    requires Inv(c, reqs, s, base) && forall q | q in schedule :: q in reqs
    ensures Run(c, reqs, s, schedule).Some? && Inv(c, reqs, Run(c, reqs, s, schedule).value, base)
    decreases |schedule|
  {
    if schedule != [] {
      assert schedule[0] in schedule && forall q | q in schedule[1..] :: q in schedule;
      StepInv(c, reqs, s, base, schedule[0]);
      RunInv(c, reqs, Step(c, reqs[schedule[0]], s, schedule[0]), base, schedule[1..]);
    }
  }

  // ---- What holds in every run ----

  /** A sign call of request r: its own token, for the CSR it sent, which passed every check. */
  predicate Legitimate(c: Config, r: Request, a: Act) {
    && a.Sign? && r.isPost && CanSign(c) && r.auth == Some(a.token) && a.token != []
    && a.path == SignPath(c) && a.ttl == c.policy.ttl
    && r.body == Ok(a.csr) && Acceptable(c, r, a.csr)
  }

  /**
   What one request did, in order: it clones, signs and closes at most once each; it signs with an open clone;
   its reply comes last, after the clone is closed; it answers 200 only after a sign call.
   */
  predicate Orderly(p: seq<Act>) {
    && (forall i, j | 0 <= i < j < |p| ::
          && !p[i].Reply?
          && !(p[i].Sign? && p[j].Sign?)
          && !(p[i].MakeClone? && p[j].MakeClone?)
          && !(p[i].CloseClone? && (p[j].CloseClone? || p[j].Sign?)))
    && (forall j | 0 <= j < |p| && (p[j].Sign? || p[j].CloseClone?) :: p[0].MakeClone? && j > 0)
    && (forall j | 0 <= j < |p| && p[j].Reply? && p[0].MakeClone? :: j > 0 && p[j - 1].CloseClone?)
    && (forall j | 0 <= j < |p| && p[j] == Reply(200) :: exists i :: 0 <= i < j && p[i].Sign?)
  }

  lemma {:induction false} StatusesOfErrors(c: Config, r: Request)
    ensures ErrorStatus(NO_AUTHENTICATION) != 200
    ensures r.cloneError.Some? ==> ErrorStatus(CloneFailure(r.cloneError.value)) != 200
    ensures Status(Outcome(c, r)) == 200 <==> Outcome(c, r).Ok?
  {
    BackendErrors.ErrorStatuses(NO_AUTHENTICATION);
    if r.cloneError.Some? {
      BackendErrors.ErrorStatuses(CloneFailure(r.cloneError.value));
    }
    if Outcome(c, r).Err? {
      BackendErrors.ErrorStatuses(Outcome(c, r).error);
    }
  }

  lemma {:induction false} GatePasses(c: Config, r: Request)
    requires Gate(c, r).Ok?
    ensures var (token, csr) := Gate(c, r).value;
            r.isPost && r.auth == Some(token) && r.body == Ok(csr) && Acceptable(c, r, csr)
  {
  }

  lemma {:induction false} GateRefuses(c: Config, r: Request)
    ensures Gate(c, r).Err? ==> Gate(c, r).error in {400, 401, 405, 413}
  {
  }

  /** The acts of a request that gets its clone. */
  function Signing(c: Config, r: Request, token: bytes, csr: Csr): seq<Act> {
    if CanSign(c) then [MakeClone, Sign(token, SignPath(c), c.policy.ttl, csr), CloseClone, Reply(Status(Outcome(c, r)))]
    else [MakeClone, CloseClone, Reply(Status(Outcome(c, r)))]
  }

  lemma {:induction false} ScriptCases(c: Config, r: Request)
    ensures Script(c, r) ==
              match Gate(c, r)
              case Err(status) => [Reply(status)]
              case Ok((token, csr)) =>
                if token == [] then [Reply(ErrorStatus(NO_AUTHENTICATION))]
                else if r.cloneError.Some? then [Reply(ErrorStatus(CloneFailure(r.cloneError.value)))]
                else Signing(c, r, token, csr)
  {
    if Gate(c, r).Ok? {
      SigningCases(c, r, Gate(c, r).value.0, Gate(c, r).value.1);
    }
  }

  lemma {:induction false} SigningCases(c: Config, r: Request, token: bytes, csr: Csr)
    ensures [MakeClone] + SignAndFinish(c, r, token, csr) == Signing(c, r, token, csr)
  {
  }

  /** An error of the server decides the status, however it was wrapped on the way to the handler. */
  lemma {:induction false} RefusalDecidesStatus(c: Config, r: Request)
    ensures CanSign(c) && r.answer.Refused? ==> Status(Outcome(c, r)) == ErrorStatus(r.answer.error)
    ensures r.cloneError.Some? ==> ErrorStatus(CloneFailure(r.cloneError.value)) == ErrorStatus(r.cloneError.value)
  {
    if r.answer.Refused? {
      TwiceWrapped(BackendErrors.SIGN_WRAP, RefusalWrap(c), r.answer.error);
    }
    if r.cloneError.Some? {
      TwiceWrapped(BackendErrors.CREATE_WRAP, BackendErrors.CLONE_WRAP, r.cloneError.value);
    }
  }

  lemma {:induction false} TwiceWrapped(outer: string, inner: string, e: string)
    requires BackendErrors.IsWrapInUse(outer) && BackendErrors.IsWrapInUse(inner)
    ensures ErrorStatus(outer + (inner + e)) == ErrorStatus(e)
  {
    BackendErrors.WrapsAreHarmless(inner);
    BackendErrors.HarmlessPrefix(inner, e);
    BackendErrors.WrapsAreHarmless(outer);
    BackendErrors.HarmlessPrefix(outer, inner + e);
  }

  // ---- The gates, the paths and the answers in full ----

  /** What a CSR must pass. */
  lemma {:induction false} AcceptableIff(c: Config, r: Request, csr: Csr)
    ensures Acceptable(c, r, csr) <==>
              && csr.signatureValid
              && csr.algorithm != MD5WithRSA && csr.algorithm != SHA1WithRSA && csr.algorithm != ECDSAWithSHA1
              && (c.allowed.names == []
                  || exists n | n in c.allowed.names :: IsNameOf(c.allowed.normalise(n), csr.algorithm))
              && (r.reenroll && r.clientCert.Some? ==> Renews(c, csr, r.clientCert.value))
  {
    AllowedIff(csr.algorithm, c.allowed);
  }

  /** The certificate's own key, and its names in any order, unless the CSR asks to change them. */
  predicate Renews(c: Config, csr: Csr, cert: Certificate) {
    && csr.publicKey.Some? && csr.publicKey == cert.publicKey
    && (|| [1, 3, 6, 1, 5, 5, 7, 9, 8] in csr.attributes
        || (&& csr.names.subject == cert.names.subject
            && multiset(csr.names.dns) == multiset(cert.names.dns)
            && multiset(csr.names.emails) == multiset(cert.names.emails)
            && multiset(Rendered(csr.names.ips, c.render.ip)) == multiset(Rendered(cert.names.ips, c.render.ip))
            && multiset(Rendered(csr.names.uris, c.render.uri)) == multiset(Rendered(cert.names.uris, c.render.uri))))
  }

  /** The reply to a request that does not pass the gates: 405, 401, 413 or 400, in this order. */
  lemma {:induction false} GateInFull(c: Config, r: Request)
    ensures !r.isPost ==> Script(c, r) == [Reply(405)]
    ensures r.isPost && r.auth.None? ==> Script(c, r) == [Reply(401)]
    ensures r.isPost && r.auth.Some? && r.body.Err? ==>
              Script(c, r) == [Reply(if r.body.error == CsrReader.RequestTooLarge then 413 else 400)]
    ensures r.isPost && r.auth.Some? && r.body.Ok? && !Acceptable(c, r, r.body.value) ==> Script(c, r) == [Reply(400)]
    ensures r.isPost && r.auth.Some? && r.body.Ok? && Acceptable(c, r, r.body.value) ==>
              Script(c, r) == AfterGate(c, r, r.auth.value, r.body.value)
  {
  }

  /** The path of a sign call. */
  lemma {:induction false} SignPathIs(c: Config)
    ensures var mount := if c.policy.mount == "" then c.defaultMount else c.policy.mount;
            && (c.policy.kind == "role" ==> SignPath(c) == mount + "/sign/" + c.policy.value)
            && (c.policy.kind == "sign-verbatim" ==> SignPath(c) == mount + "/sign-verbatim")
  {
    assert "role"[0] != "sign-verbatim"[0];
  }

  /** A certificate is the PEM block of the answer, if it parses; every other answer is an error of its own. */
  lemma {:induction false} CertifiedIs(c: Config, answer: Answer)
    requires c.policy.kind == "role" || c.policy.kind == "sign-verbatim"
    ensures forall der :: Certified(c, answer) == Ok(der) <==>
              answer.Text? && Pem.Decode(answer.pem) == Some(der) && c.x509.isCert(der)
    ensures c.policy.kind == "role" && answer.Refused? ==>
              Certified(c, answer) == Err("failed to sign CSR: " + answer.error)
    ensures c.policy.kind == "sign-verbatim" && answer.Refused? ==>
              Certified(c, answer) == Err("failed to sign CSR verbatim: " + answer.error)
    ensures answer == NoData ==> Certified(c, answer) == Err("no certificate data returned")
    ensures answer == NoCertificate ==> Certified(c, answer) == Err("certificate not found in response")
    ensures answer.Text? && Pem.Decode(answer.pem) == None ==>
              Certified(c, answer) == Err("failed to decode PEM certificate")
    ensures answer.Text? && Pem.Decode(answer.pem).Some? && !c.x509.isCert(Pem.Decode(answer.pem).value) ==>
              Certified(c, answer) == Err("failed to parse certificate: " + c.x509.whyNot(Pem.Decode(answer.pem).value))
  {
    assert "role"[0] != "sign-verbatim"[0];
  }

  /** What follows the gates: no clone for a missing token or a failed copy, else clone, sign, close, reply. */
  lemma {:induction false} AfterGateInFull(c: Config, r: Request, token: bytes, csr: Csr)
    ensures token == [] ==> AfterGate(c, r, token, csr) == [Reply(ErrorStatus("no authentication available"))]
    ensures token != [] && r.cloneError.Some? ==>
              AfterGate(c, r, token, csr) ==
              [Reply(ErrorStatus("failed to " + ("create " + ("authenticated " + "backend client: "))
                                 + ("failed to clone client: " + r.cloneError.value)))]
    ensures token != [] && r.cloneError.None? && c.policy.kind != "role" && c.policy.kind != "sign-verbatim" ==>
              AfterGate(c, r, token, csr) ==
              [MakeClone, CloseClone, Reply(ErrorStatus("invalid policy type: " + c.policy.kind))]
    ensures token != [] && r.cloneError.None? && (c.policy.kind == "role" || c.policy.kind == "sign-verbatim") ==>
              AfterGate(c, r, token, csr) ==
              [MakeClone, Sign(token, SignPath(c), c.policy.ttl, csr), CloseClone,
               Reply(match Certified(c, r.answer)
                     case Ok(_) => 200
                     case Err(e) => ErrorStatus("failed to sign CSR: " + e))]
  {
    if token != [] && r.cloneError.None? {
      SigningCases(c, r, token, csr);
    }
  }

  /** A sign call that is legitimate, in full. */
  lemma {:induction false} LegitimateInFull(c: Config, r: Request, a: Act)
    requires Legitimate(c, r, a)
    ensures r.isPost && r.auth == Some(a.token) && a.token != [] && r.body == Ok(a.csr)
    ensures var mount := if c.policy.mount == "" then c.defaultMount else c.policy.mount;
            || (c.policy.kind == "role" && a.path == mount + "/sign/" + c.policy.value)
            || (c.policy.kind == "sign-verbatim" && a.path == mount + "/sign-verbatim")
    ensures a.ttl == c.policy.ttl
    ensures a.csr.signatureValid
    ensures a.csr.algorithm != MD5WithRSA && a.csr.algorithm != SHA1WithRSA && a.csr.algorithm != ECDSAWithSHA1
    ensures c.allowed.names == []
            || exists n | n in c.allowed.names :: IsNameOf(c.allowed.normalise(n), a.csr.algorithm)
    ensures r.reenroll && r.clientCert.Some? ==> Renews(c, a.csr, r.clientCert.value)
  {
    AcceptableIff(c, r, a.csr);
    SignPathIs(c);
  }

  /** The three shapes of a script. */
  predicate IsScript(c: Config, r: Request, p: seq<Act>) {
    || (|p| == 1 && p[0].Reply? && p[0].status != 200)
    || (|p| == 3 && p[0] == MakeClone && p[1] == CloseClone && p[2].Reply? && p[2].status != 200)
    || (|p| == 4 && p[0] == MakeClone && Legitimate(c, r, p[1]) && p[2] == CloseClone && p[3].Reply?
        && (p[3].status == 200 <==> Outcome(c, r).Ok?))
  }

  lemma {:induction false} SigningShape(c: Config, r: Request)
    requires Gate(c, r).Ok? && Gate(c, r).value.0 != []
    ensures IsScript(c, r, Signing(c, r, Gate(c, r).value.0, Gate(c, r).value.1))
  {
    GatePasses(c, r);
    StatusesOfErrors(c, r);
  }

  lemma {:induction false} ScriptShape(c: Config, r: Request)
    ensures IsScript(c, r, Script(c, r))
  {
    ScriptCases(c, r);
    GateRefuses(c, r);
    StatusesOfErrors(c, r);
    if Gate(c, r).Ok? && Gate(c, r).value.0 != [] {
      SigningShape(c, r);
    }
  }

  lemma {:induction false} RefusalOrderly(p: seq<Act>, script: seq<Act>)
    requires p <= script && |script| == 1 && script[0].Reply? && script[0].status != 200
    ensures Orderly(p) && forall a | a in p :: !a.Sign?
  {
  }

  lemma {:induction false} UnsignedOrderly(p: seq<Act>, script: seq<Act>)
    requires p <= script && |script| == 3
    requires script[0] == MakeClone && script[1] == CloseClone && script[2].Reply? && script[2].status != 200
    ensures Orderly(p) && forall a | a in p :: !a.Sign?
  {
  }

  lemma {:induction false} SignedOrderly(p: seq<Act>, script: seq<Act>)
    requires p <= script && |script| == 4
    requires script[0] == MakeClone && script[1].Sign? && script[2] == CloseClone && script[3].Reply?
    ensures Orderly(p) && forall a | a in p && a.Sign? :: a == script[1]
  {
  }

  lemma {:induction false} PrefixOrderly(c: Config, r: Request, p: seq<Act>)
    requires p <= Script(c, r)
    ensures Orderly(p)
    ensures forall a | a in p && a.Sign? :: Legitimate(c, r, a)
  {
    ScriptShape(c, r);
    ShapeOrderly(c, r, Script(c, r), p);
  }

  lemma {:induction false} ShapeOrderly(c: Config, r: Request, script: seq<Act>, p: seq<Act>)
    requires IsScript(c, r, script) && p <= script
    ensures Orderly(p)
    ensures forall a | a in p && a.Sign? :: Legitimate(c, r, a)
  {
    if |script| == 1 {
      RefusalOrderly(p, script);
    } else if |script| == 3 {
      UnsignedOrderly(p, script);
    } else {
      SignedOrderly(p, script);
    }
  }

  /** Safety of a state. */
  ghost predicate Safe(c: Config, reqs: map<nat, Request>, s: State, base: bytes) {
    // the shared client keeps its token
    && s.base == base
    // every sign call is legitimate for the request that made it
    && (forall q, a | (q, a) in s.log && a.Sign? :: q in reqs && Legitimate(c, reqs[q], a))
    // each request acts in order, and when it is done it has done exactly what it does when it is alone
    && (forall q | q in reqs :: q in s.phases && Orderly(Mine(s.log, q)) && Mine(s.log, q) <= Script(c, reqs[q]))
    && (forall q | q in reqs && s.phases[q].Done? :: Mine(s.log, q) == Script(c, reqs[q]))
    // a clone whose request is done holds no token
    && (forall id | 0 <= id < |s.clients| && s.clients[id] != [] ::
          exists q :: q in reqs && Holds(s.phases[q]) == Some(id))
  }

  lemma {:induction false} RequestSafe(c: Config, r: Request, acts: seq<Act>, rest: seq<Act>)
    requires acts + rest == Script(c, r)
    ensures acts <= Script(c, r) && Orderly(acts) && (rest == [] ==> acts == Script(c, r))
    ensures forall a | a in acts && a.Sign? :: Legitimate(c, r, a)
  {
    assert acts + rest == Script(c, r) && acts <= acts + rest;
    PrefixOrderly(c, r, acts);
  }

  lemma {:induction false} ProgressIsSafe(c: Config, r: Request, s: State, q: nat)
    requires Progress(c, r, s, q)
    ensures q in s.phases && Mine(s.log, q) <= Script(c, r) && Orderly(Mine(s.log, q))
    ensures s.phases[q].Done? ==> Mine(s.log, q) == Script(c, r)
    ensures forall a | a in Mine(s.log, q) && a.Sign? :: Legitimate(c, r, a)
  {
    RequestSafe(c, r, Mine(s.log, q), Rest(c, r, s.phases[q], s.clients));
  }

  lemma {:induction false} InvIsSafe(c: Config, reqs: map<nat, Request>, s: State, base: bytes)
    requires Inv(c, reqs, s, base)
    ensures Safe(c, reqs, s, base)
  {
    forall q | q in reqs
      ensures q in s.phases && Mine(s.log, q) <= Script(c, reqs[q]) && Orderly(Mine(s.log, q))
      ensures s.phases[q].Done? ==> Mine(s.log, q) == Script(c, reqs[q])
    {
      ProgressIsSafe(c, reqs[q], s, q);
    }
    forall q, a | (q, a) in s.log && a.Sign?
      ensures q in reqs && Legitimate(c, reqs[q], a)
    {
      MineMember(s.log, q, a);
      if q in reqs {
        ProgressIsSafe(c, reqs[q], s, q);
      }
    }
    forall id | 0 <= id < |s.clients| && s.clients[id] != []
      ensures exists q :: q in reqs && Holds(s.phases[q]) == Some(id)
    {
      assert Held(s, id);
    }
  }

  lemma {:induction false} StartInv(c: Config, reqs: map<nat, Request>, base: bytes)
    ensures Inv(c, reqs, Start(base, reqs), base)
  {
  }

  /**
   In every interleaving of any number of enrol and re-enrol requests every state is safe: each sign call uses
   the token its own request authenticated with, for a CSR that passed all checks; each request signs at most
   once and answers 200 only after signing; every clone is closed once, before the reply; the shared client
   never changes; and a finished request has done exactly what it does when it runs alone.
   */
  lemma {:induction false} EveryRunIsSafe(c: Config, reqs: map<nat, Request>, base: bytes, schedule: seq<nat>)
    requires forall q | q in schedule :: q in reqs
    ensures Run(c, reqs, Start(base, reqs), schedule).Some?
    ensures Safe(c, reqs, Run(c, reqs, Start(base, reqs), schedule).value, base)
  {
    StartInv(c, reqs, base);
    RunInv(c, reqs, Start(base, reqs), base, schedule);
    InvIsSafe(c, reqs, Run(c, reqs, Start(base, reqs), schedule).value, base);
  }

  function StepsLeft(p: Phase): nat {
    match p
    case Arrived => 6
    case Admitted(_, _) => 5
    case Cloning(_, _, _) => 4
    case Ready(_, _) => 3
    case Signed(_) => 2
    case Closed => 1
    case Done => 0
  }

  /** How often the schedule picks q. */
  function Turns(schedule: seq<nat>, q: nat): nat
    decreases |schedule|
  {
    if schedule == [] then 0 else (if schedule[0] == q then 1 else 0) + Turns(schedule[1..], q)
  }

  lemma {:induction false} StepComesCloser(c: Config, r: Request, s: State, q: nat)
    requires Possible(s, q)
    ensures StepsLeft(Step(c, r, s, q).phases[q])
            <= if StepsLeft(s.phases[q]) == 0 then 0 else StepsLeft(s.phases[q]) - 1
  {
    if s.phases[q].Admitted? {
      match NoClone(r, s.phases[q].token)
      case Some(status) => RefusedRest(c, r, s, q, status);
      case None => ClonedRest(c, r, s, q);
    } else if s.phases[q].Arrived? {
      match Gate(c, r)
      case Err(_) =>
      case Ok(_) =>
    }
  }

  lemma {:induction false} TurnTaken(c: Config, reqs: map<nat, Request>, s: State, base: bytes, x: nat, q: nat)
    requires Inv(c, reqs, s, base) && q in reqs && x in reqs
    ensures Possible(s, x) && Inv(c, reqs, Step(c, reqs[x], s, x), base)
    ensures q in s.phases && q in Step(c, reqs[x], s, x).phases
    ensures var before, after := StepsLeft(s.phases[q]), StepsLeft(Step(c, reqs[x], s, x).phases[q]);
            after <= before && (x == q ==> before == 0 || after <= before - 1)
  {
    assert Progress(c, reqs[x], s, x);
    StepInv(c, reqs, s, base, x);
    StepActs(c, reqs[x], s, x);
    StepComesCloser(c, reqs[x], s, x);
  }

  lemma {:induction false} NoneLeft(s: State, q: nat)
    requires q in s.phases && StepsLeft(s.phases[q]) == 0
    ensures s.phases[q].Done?
  {
  }

  /** Six turns finish a request, whatever the others do. */
  lemma {:induction false} TurnsFinish(c: Config, reqs: map<nat, Request>, s: State, base: bytes, schedule: seq<nat>,
                                       q: nat)
    requires Inv(c, reqs, s, base) && q in reqs && forall x | x in schedule :: x in reqs
    requires Turns(schedule, q) >= StepsLeft(s.phases[q])
    ensures Run(c, reqs, s, schedule).Some? && q in Run(c, reqs, s, schedule).value.phases
    ensures Run(c, reqs, s, schedule).value.phases[q].Done?
    decreases |schedule|
  {
    if schedule == [] {
      NoneLeft(s, q);
    } else {
      var x, rest := schedule[0], schedule[1..];
      assert x in schedule && forall y | y in rest :: y in schedule;
      TurnTaken(c, reqs, s, base, x, q);
      TurnsFinish(c, reqs, Step(c, reqs[x], s, x), base, rest, q);
    }
  }

  /** A request that got six turns has done exactly what it does when it runs alone. */
  lemma {:induction false} EveryRequestFinishes(c: Config, reqs: map<nat, Request>, base: bytes,
            schedule: seq<nat>, q: nat)
    requires q in reqs && (forall x | x in schedule :: x in reqs) && Turns(schedule, q) >= 6
    ensures Run(c, reqs, Start(base, reqs), schedule).Some?
    ensures Mine(Run(c, reqs, Start(base, reqs), schedule).value.log, q) == Script(c, reqs[q])
  {
    StartInv(c, reqs, base);
    TurnsFinish(c, reqs, Start(base, reqs), base, schedule, q);
    EveryRunIsSafe(c, reqs, base, schedule);
  }
}
