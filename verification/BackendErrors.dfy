/**
 pkg/handlers/errors.go: ParseBackendError classifies a backend error by the first keyword group found in
 its lower-cased text. Errors gain a prefix each time they are passed up; the classification must not change.
 */
module BackendErrors {
  import opened Search

  datatype BackendError = BackendError(statusCode: nat, message: string, retryAfter: nat)

  /** strings.Contains of any of the words. */
  predicate ContainsAny(s: string, words: seq<string>) {
    exists w | w in words :: Find(s, w).Some?
  }

  function Lower(c: char): char {
    if 'A' <= c <= 'Z' then (c as int + 32) as char else c
  }

  function ToLower(s: string): string {
    seq(|s|, i requires 0 <= i < |s| => Lower(s[i]))
  }

  const FORBIDDEN := ["permission denied", "code: 403", "forbidden"]
  const UNAUTHORIZED := ["authentication failed", "code: 401", "unauthorized"]
  const BAD_REQUEST := ["code: 400", "bad request", "invalid"]
  const NOT_FOUND := ["code: 404", "not found"]
  const UNREACHABLE := ["connection refused", "connection reset", "no such host", "timeout"]
  const SEALED := ["sealed", "standby"]
  const INTERNAL := ["code: 5", "internal server error"]

  function ParseBackendError(err: string): BackendError {
    var e := ToLower(err);
    if ContainsAny(e, FORBIDDEN) then
      BackendError(403, "Certificate signing request rejected: insufficient permissions", 0)
    else if ContainsAny(e, UNAUTHORIZED) then BackendError(401, "Backend authentication failed", 0)
    else if ContainsAny(e, BAD_REQUEST) then BackendError(400, "Invalid certificate request", 0)
    else if ContainsAny(e, NOT_FOUND) then BackendError(404, "PKI mount or role not found", 0)
    else if ContainsAny(e, UNREACHABLE) then BackendError(503, "Backend service unavailable", 30)
    else if ContainsAny(e, SEALED) then BackendError(503, "Backend service temporarily unavailable", 120)
    else if ContainsAny(e, INTERNAL) then BackendError(502, "PKI backend error", 0)
    else BackendError(502, "PKI backend error", 0)
  }

  /** A handler that reports a backend error never answers 200. */
  lemma {:induction false} ErrorStatuses(err: string)
    ensures ParseBackendError(err).statusCode in {400, 401, 403, 404, 502, 503}
    ensures ParseBackendError(err).retryAfter > 0 <==> ParseBackendError(err).statusCode == 503
  {
  }

  // ---- Which text gives which status ----

  /** The word stands in the text in any mix of upper and lower case. */
  ghost predicate Says(err: string, word: string) {
    exists i :: SaysAt(err, word, i)
  }

  predicate SaysAt(err: string, word: string, i: int) {
    && 0 <= i <= |err| - |word|
    && forall k | 0 <= k < |word| ::
         err[i + k] == word[k] || ('A' <= err[i + k] <= 'Z' && err[i + k] as int + 32 == word[k] as int)
  }

  predicate IsLower(word: string) {
    forall k | 0 <= k < |word| :: !('A' <= word[k] <= 'Z')
  }

  lemma {:induction false} SaysAtIff(err: string, word: string, i: int)
    requires IsLower(word)
    ensures SaysAt(err, word, i) <==> OccursAt(ToLower(err), word, i)
  {
    OccursElementwise(ToLower(err), word, i);
    if 0 <= i <= |err| - |word| {
      forall k | 0 <= k < |word|
        ensures ToLower(err)[i + k] == word[k] <==>
                  err[i + k] == word[k] || ('A' <= err[i + k] <= 'Z' && err[i + k] as int + 32 == word[k] as int)
      {
        assert ToLower(err)[i + k] == Lower(err[i + k]);
      }
    }
  }

  lemma {:induction false} SaysIff(err: string, word: string)
    requires IsLower(word)
    ensures Find(ToLower(err), word).Some? <==> Says(err, word)
  {
    var e := ToLower(err);
    if Find(e, word).Some? {
      SaysAtIff(err, word, Find(e, word).value);
    }
    if Says(err, word) {
      var i :| SaysAt(err, word, i);
      SaysAtIff(err, word, i);
    }
  }

  lemma {:induction false} SaysAnyIff(err: string, words: seq<string>)
    requires forall w | w in words :: IsLower(w)
    ensures ContainsAny(ToLower(err), words) <==> exists w | w in words :: Says(err, w)
  {
    forall w | w in words
      ensures Find(ToLower(err), w).Some? <==> Says(err, w)
    {
      SaysIff(err, w);
    }
  }

  ghost predicate SaysForbidden(err: string) {
    Says(err, "permission denied") || Says(err, "code: 403") || Says(err, "forbidden")
  }

  lemma {:induction false} ForbiddenIff(err: string)
    ensures ContainsAny(ToLower(err), FORBIDDEN) <==> SaysForbidden(err)
  {
    SaysAnyIff(err, FORBIDDEN);
    assert FORBIDDEN[0] == "permission denied";
    assert FORBIDDEN[1] == "code: 403";
    assert FORBIDDEN[2] == "forbidden";
  }

  ghost predicate SaysUnauthorized(err: string) {
    Says(err, "authentication failed") || Says(err, "code: 401") || Says(err, "unauthorized")
  }

  lemma {:induction false} UnauthorizedIff(err: string)
    ensures ContainsAny(ToLower(err), UNAUTHORIZED) <==> SaysUnauthorized(err)
  {
    SaysAnyIff(err, UNAUTHORIZED);
    assert UNAUTHORIZED[0] == "authentication failed";
    assert UNAUTHORIZED[1] == "code: 401";
    assert UNAUTHORIZED[2] == "unauthorized";
  }

  ghost predicate SaysBadRequest(err: string) {
    Says(err, "code: 400") || Says(err, "bad request") || Says(err, "invalid")
  }

  lemma {:induction false} BadRequestIff(err: string)
    ensures ContainsAny(ToLower(err), BAD_REQUEST) <==> SaysBadRequest(err)
  {
    SaysAnyIff(err, BAD_REQUEST);
    assert BAD_REQUEST[0] == "code: 400";
    assert BAD_REQUEST[1] == "bad request";
    assert BAD_REQUEST[2] == "invalid";
  }

  ghost predicate SaysNotFound(err: string) {
    Says(err, "code: 404") || Says(err, "not found")
  }

  lemma {:induction false} NotFoundIff(err: string)
    ensures ContainsAny(ToLower(err), NOT_FOUND) <==> SaysNotFound(err)
  {
    SaysAnyIff(err, NOT_FOUND);
    assert NOT_FOUND[0] == "code: 404";
    assert NOT_FOUND[1] == "not found";
  }

  ghost predicate SaysUnreachable(err: string) {
    Says(err, "connection refused") || Says(err, "connection reset") || Says(err, "no such host") || Says(err, "timeout")
  }

  lemma {:induction false} UnreachableIff(err: string)
    ensures ContainsAny(ToLower(err), UNREACHABLE) <==> SaysUnreachable(err)
  {
    SaysAnyIff(err, UNREACHABLE);
    assert UNREACHABLE[0] == "connection refused";
    assert UNREACHABLE[1] == "connection reset";
    assert UNREACHABLE[2] == "no such host";
    assert UNREACHABLE[3] == "timeout";
  }

  ghost predicate SaysSealed(err: string) {
    Says(err, "sealed") || Says(err, "standby")
  }

  lemma {:induction false} SealedIff(err: string)
    ensures ContainsAny(ToLower(err), SEALED) <==> SaysSealed(err)
  {
    SaysAnyIff(err, SEALED);
    assert SEALED[0] == "sealed";
    assert SEALED[1] == "standby";
  }

  /** The first group of words found decides; 503 comes with the time after which to retry. */
  lemma {:induction false} StatusOf(err: string)
    ensures ParseBackendError(err) ==
              if SaysForbidden(err) then
                BackendError(403, "Certificate signing request rejected: insufficient permissions", 0)
              else if SaysUnauthorized(err) then BackendError(401, "Backend authentication failed", 0)
              else if SaysBadRequest(err) then BackendError(400, "Invalid certificate request", 0)
              else if SaysNotFound(err) then BackendError(404, "PKI mount or role not found", 0)
              else if SaysUnreachable(err) then BackendError(503, "Backend service unavailable", 30)
              else if SaysSealed(err) then BackendError(503, "Backend service temporarily unavailable", 120)
              else BackendError(502, "PKI backend error", 0)
  {
    ForbiddenIff(err);
    UnauthorizedIff(err);
    BadRequestIff(err);
    NotFoundIff(err);
    UnreachableIff(err);
    SealedIff(err);
  }

  // ---- Wrapping ----

  /** No part of word that ends inside the prefix begins it, and the prefix does not hold word. */
  predicate Separate(prefix: string, word: string) {
    forall i | 0 <= i < |prefix| :: !(prefix[i..] <= word) && !(word <= prefix[i..])
  }

  /** Where a word can occur behind a separate prefix. */
  lemma {:induction false} OccursBehind(prefix: string, s: string, word: string, i: int)
    requires Separate(prefix, word)
    ensures OccursAt(prefix + s, word, i) <==> OccursAt(s, word, i - |prefix|)
  {
    if |prefix| <= i {
      OccursInSecond(prefix, s, word, i);
    } else if 0 <= i {
      OccursElementwise(prefix + s, word, i);
      var rest := prefix[i..];
      assert forall k | 0 <= k < |rest| :: (prefix + s)[i + k] == rest[k];
      assert (forall k | 0 <= k < |word| :: k < |rest| && rest[k] == word[k]) ==> word <= rest;
      assert (forall k | 0 <= k < |rest| :: k < |word| && rest[k] == word[k]) ==> rest <= word;
    }
  }

  /** A word is found behind a separate prefix exactly when it is found without it. */
  lemma {:induction false} PrefixInvisible(prefix: string, s: string, word: string)
    requires Separate(prefix, word)
    ensures Find(prefix + s, word).Some? <==> Find(s, word).Some?
  {
    forall i
      ensures OccursAt(prefix + s, word, i) <==> OccursAt(s, word, i - |prefix|)
    {
      OccursBehind(prefix, s, word, i);
    }
    if Find(s, word).Some? {
      assert OccursAt(prefix + s, word, Find(s, word).value + |prefix|);
    }
  }

  ghost predicate SeparateFromAll(prefix: string, words: seq<string>) {
    forall w | w in words :: Separate(prefix, w)
  }

  lemma {:induction false} PrefixInvisibleToAny(prefix: string, s: string, words: seq<string>)
    requires SeparateFromAll(prefix, words)
    ensures ContainsAny(prefix + s, words) <==> ContainsAny(s, words)
  {
    forall w | w in words
      ensures Find(prefix + s, w).Some? <==> Find(s, w).Some?
    {
      PrefixInvisible(prefix, s, w);
    }
  }

  /** A prefix that no keyword group can see once it is lower-cased. */
  ghost predicate Harmless(prefix: string) {
    var p := ToLower(prefix);
    && SeparateFromAll(p, FORBIDDEN) && SeparateFromAll(p, UNAUTHORIZED) && SeparateFromAll(p, BAD_REQUEST)
    && SeparateFromAll(p, NOT_FOUND) && SeparateFromAll(p, UNREACHABLE) && SeparateFromAll(p, SEALED)
    && SeparateFromAll(p, INTERNAL)
  }

  lemma {:induction false} HarmlessPrefix(prefix: string, err: string)
    requires Harmless(prefix)
    ensures ParseBackendError(prefix + err) == ParseBackendError(err)
  {
    var p, e := ToLower(prefix), ToLower(err);
    assert ToLower(prefix + err) == p + e;
    PrefixInvisibleToAny(p, e, FORBIDDEN);
    PrefixInvisibleToAny(p, e, UNAUTHORIZED);
    PrefixInvisibleToAny(p, e, BAD_REQUEST);
    PrefixInvisibleToAny(p, e, NOT_FOUND);
    PrefixInvisibleToAny(p, e, UNREACHABLE);
    PrefixInvisibleToAny(p, e, SEALED);
    PrefixInvisibleToAny(p, e, INTERNAL);
  }

  // ---- The prefixes in use ----

  const SIGN_WRAP := "failed to sign CSR: "
  const VERBATIM_WRAP := "failed to sign CSR verbatim: "
  const CLONE_WRAP := "failed to clone client: "
  const CREATE_WRAP := "failed to " + ("create " + ("authenticated " + "backend client: "))

  /** Pairs of adjacent characters, one or more in every keyword and none in a prefix in use. */
  predicate Marks(a: char, b: char) {
    match a
    case ' ' => b == '4' || b == '5'
    case 'a' => b == 'd'
    case 'b' => b == 'y'
    case 'e' => b == 'o'
    case 'f' => b == 'o'
    case 'i' => b == 'o' || b == 'n'
    case 'p' => b == 'e'
    case 's' => b == 'u' || b == 'e'
    case 'u' => b == 'n'
    case _ => false
  }

  predicate Unmarked(p: string) {
    forall i | 0 <= i < |p| - 1 :: !Marks(p[i], p[i + 1])
  }

  /** A wrapping prefix: it ends with a colon and a space that no keyword but "code: ..." could share. */
  predicate IsWrap(p: string) {
    |p| >= 3 && p[|p| - 1] == ' ' && p[|p| - 2] == ':' && p[|p| - 3] != 'e'
  }

  /** In a keyword a colon and a space only follow an e. */
  predicate IsKeyword(w: string) {
    && |w| >= 2 && w[0] != ' '
    && forall j | 0 <= j < |w| - 1 && w[j] == ':' && w[j + 1] == ' ' :: j >= 1 && w[j - 1] == 'e'
  }

  /** Laid over the prefix from any place on, the keyword differs from it somewhere. */
  lemma {:induction false} DiffersAt(p: string, w: string, m: nat, i: nat) returns (k: nat)
    requires IsWrap(p) && IsKeyword(w) && i < |p|
    requires m + 1 < |w| && Marks(w[m], w[m + 1]) && Unmarked(p)
    ensures k < |w| && i + k < |p| && p[i + k] != w[k]
  {
    var n := |p| - i;
    if m + 1 < n {
      k := if p[i + m] != w[m] then m else m + 1;
    } else if w[n - 1] != ' ' {
      k := n - 1;
    } else if w[n - 2] != ':' {
      k := n - 2;
    } else {
      k := n - 3;
    }
  }

  /** A keyword with a marking pair is apart from a prefix without one. */
  lemma {:induction false} MarkedApart(p: string, w: string, m: nat)
    requires IsWrap(p) && IsKeyword(w)
    requires m + 1 < |w| && Marks(w[m], w[m + 1]) && Unmarked(p)
    ensures Separate(p, w)
  {
    forall i | 0 <= i < |p|
      ensures !(p[i..] <= w) && !(w <= p[i..])
    {
      var k := DiffersAt(p, w, m, i);
      assert p[i..][k] == p[i + k];
    }
  }

  lemma {:induction false} ApartFromRefusals(p: string)
    requires IsWrap(p) && Unmarked(p)
    ensures SeparateFromAll(p, FORBIDDEN)
  {
    MarkedApart(p, "permission denied", 0);
    MarkedApart(p, "code: 403", 5);
    MarkedApart(p, "forbidden", 0);
  }

  lemma {:induction false} ApartFromUnauthorized(p: string)
    requires IsWrap(p) && Unmarked(p)
    ensures SeparateFromAll(p, UNAUTHORIZED)
  {
    MarkedApart(p, "authentication failed", 11);
    MarkedApart(p, "code: 401", 5);
    MarkedApart(p, "unauthorized", 0);
  }

  lemma {:induction false} ApartFromBadRequest(p: string)
    requires IsWrap(p) && Unmarked(p)
    ensures SeparateFromAll(p, BAD_REQUEST)
  {
    MarkedApart(p, "code: 400", 5);
    MarkedApart(p, "bad request", 1);
    MarkedApart(p, "invalid", 0);
  }

  lemma {:induction false} ApartFromNotFound(p: string)
    requires IsWrap(p) && Unmarked(p)
    ensures SeparateFromAll(p, NOT_FOUND)
  {
    MarkedApart(p, "code: 404", 5);
    MarkedApart(p, "not found", 4);
  }

  lemma {:induction false} ApartFromConnection(p: string)
    requires IsWrap(p) && Unmarked(p)
    ensures Separate(p, "connection refused") && Separate(p, "connection reset")
  {
    MarkedApart(p, "connection refused", 7);
    MarkedApart(p, "connection reset", 7);
  }

  lemma {:induction false} ApartFromUnreachable(p: string)
    requires IsWrap(p) && Unmarked(p)
    ensures SeparateFromAll(p, UNREACHABLE)
  {
    ApartFromConnection(p);
    MarkedApart(p, "no such host", 3);
    MarkedApart(p, "timeout", 3);
  }

  lemma {:induction false} ApartFromSealedAndInternal(p: string)
    requires IsWrap(p) && Unmarked(p)
    ensures SeparateFromAll(p, SEALED) && SeparateFromAll(p, INTERNAL)
  {
    MarkedApart(p, "sealed", 0);
    MarkedApart(p, "standby", 5);
    MarkedApart(p, "code: 5", 5);
    MarkedApart(p, "internal server error", 0);
  }

  lemma {:induction false} UnmarkedIsHarmless(prefix: string)
    requires IsWrap(ToLower(prefix)) && Unmarked(ToLower(prefix))
    ensures Harmless(prefix)
  {
    var p := ToLower(prefix);
    ApartFromRefusals(p);
    ApartFromUnauthorized(p);
    ApartFromBadRequest(p);
    ApartFromNotFound(p);
    ApartFromUnreachable(p);
    ApartFromSealedAndInternal(p);
  }

  lemma {:induction false} PairsOfJoined(a: string, b: string)
    requires |a| > 0 && |b| > 0 && Unmarked(a) && Unmarked(b) && Unmarked([a[|a| - 1], b[0]])
    ensures Unmarked(a + b)
  {
    assert [a[|a| - 1], b[0]][0] == a[|a| - 1] && [a[|a| - 1], b[0]][1] == b[0];
  }

  lemma {:induction false} LoweredWraps()
    ensures ToLower(SIGN_WRAP) == "failed to " + ("sign csr" + ": ")
    ensures ToLower(VERBATIM_WRAP) == "failed to " + ("sign csr" + " verbatim: ")
  {
  }

  lemma {:induction false} FailedTo()
    ensures Unmarked("failed to ")
  {
  }

  lemma {:induction false} SignCsr()
    ensures Unmarked("sign csr")
  {
  }

  lemma {:induction false} Verbatim()
    ensures Unmarked(" verbatim: ")
  {
  }

  lemma {:induction false} Seams()
    ensures Unmarked(": ") && Unmarked(" s") && Unmarked("r:") && Unmarked("r ")
  {
  }

  lemma {:induction false} SignWrapIsHarmless()
    ensures Harmless(SIGN_WRAP)
  {
    LoweredWraps();
    FailedTo();
    SignCsr();
    Seams();
    PairsOfJoined("sign csr", ": ");
    PairsOfJoined("failed to ", "sign csr" + ": ");
    UnmarkedIsHarmless(SIGN_WRAP);
  }

  lemma {:induction false} VerbatimWrapIsHarmless()
    ensures Harmless(VERBATIM_WRAP)
  {
    LoweredWraps();
    FailedTo();
    SignCsr();
    Verbatim();
    Seams();
    PairsOfJoined("sign csr", " verbatim: ");
    PairsOfJoined("failed to ", "sign csr" + " verbatim: ");
    UnmarkedIsHarmless(VERBATIM_WRAP);
  }

  lemma {:induction false} LoweredClone()
    ensures ToLower(CLONE_WRAP) == "failed to " + ("clone clie" + "nt: ")
  {
  }

  lemma {:induction false} LoweredJoin(a: string, b: string)
    ensures ToLower(a + b) == ToLower(a) + ToLower(b)
  {
  }

  /** Lower-case text stays as it is. */
  lemma {:induction false} LowerFixed(s: string)
    requires forall c | c in s :: Lower(c) == c
    ensures ToLower(s) == s
  {
  }

  lemma {:induction false} Create()
    ensures Unmarked("create ")
  {
  }

  lemma {:induction false} Authenticated()
    ensures Unmarked("authenticated ")
  {
  }

  lemma {:induction false} BackendClient()
    ensures Unmarked("backend client: ")
  {
  }

  lemma {:induction false} CloneClient()
    ensures Unmarked("clone clie") && Unmarked("nt: ")
  {
  }

  lemma {:induction false} CloneSeams()
    ensures Unmarked(" c") && Unmarked("en") && Unmarked(" a") && Unmarked(" b")
  {
  }

  lemma {:induction false} CloneWrapIsHarmless()
    ensures Harmless(CLONE_WRAP)
  {
    LoweredClone();
    FailedTo();
    CloneClient();
    CloneSeams();
    PairsOfJoined("clone clie", "nt: ");
    PairsOfJoined("failed to ", "clone clie" + "nt: ");
    UnmarkedIsHarmless(CLONE_WRAP);
  }

  lemma {:induction false} CreateWrapIsHarmless()
    ensures Harmless(CREATE_WRAP)
  {
    var client := "authenticated " + "backend client: ";
    FailedTo();
    Create();
    Authenticated();
    BackendClient();
    CloneSeams();
    PairsOfJoined("authenticated ", "backend client: ");
    PairsOfJoined("create ", client);
    PairsOfJoined("failed to ", "create " + client);
    CreateWrapIsLower();
    UnmarkedIsHarmless(CREATE_WRAP);
  }

  lemma {:induction false} CreateWrapIsLower()
    ensures ToLower(CREATE_WRAP) == CREATE_WRAP
  {
    LowerFixed("failed to ");
    LowerFixed("create ");
    LowerFixed("authenticated ");
    LowerFixed("backend client: ");
    LoweredJoin("authenticated ", "backend client: ");
    LoweredJoin("create ", "authenticated " + "backend client: ");
    LoweredJoin("failed to ", "create " + ("authenticated " + "backend client: "));
  }

  predicate IsWrapInUse(w: string) {
    || w == "failed to sign CSR: "
    || w == "failed to sign CSR verbatim: "
    || w == "failed to clone client: "
    || w == "failed to " + ("create " + ("authenticated " + "backend client: "))
  }

  lemma {:induction false} WrapsAreHarmless(w: string)
    requires IsWrapInUse(w)
    ensures Harmless(w)
  {
    SignWrapIsHarmless();
    VerbatimWrapIsHarmless();
    CloneWrapIsHarmless();
    CreateWrapIsHarmless();
  }

  /** err as it arrives after any number of wraps. */
  function Wrapped(wraps: seq<string>, err: string): string
    decreases |wraps|
  {
    if wraps == [] then err else wraps[0] + Wrapped(wraps[1..], err)
  }

  /** Wrapping an error any number of times on the way up changes neither its status nor its retry time. */
  lemma {:induction false} WrappingKeepsStatus(wraps: seq<string>, err: string)
    requires forall w | w in wraps :: IsWrapInUse(w)
    ensures ParseBackendError(Wrapped(wraps, err)) == ParseBackendError(err)
    decreases |wraps|
  {
    if wraps != [] {
      WrapsAreHarmless(wraps[0]);
      assert wraps[0] in wraps && forall w | w in wraps[1..] :: w in wraps;
      HarmlessPrefix(wraps[0], Wrapped(wraps[1..], err));
      WrappingKeepsStatus(wraps[1..], err);
    }
  }
}
