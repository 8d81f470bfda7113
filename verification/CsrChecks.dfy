/**
 pkg/est/csr.go: the checks a CSR passes before it is signed. The loops are those of the source; each method
 is proved to decide the property that RFC 7030 section 4.2.2 asks for.
 */
module CsrChecks {
  import opened Wrappers
  import opened Bytes

  datatype Algorithm =
    | MD5WithRSA | SHA1WithRSA | ECDSAWithSHA1
    | SHA256WithRSA | SHA384WithRSA | SHA512WithRSA
    | ECDSAWithSHA256 | ECDSAWithSHA384 | ECDSAWithSHA512
    | OtherAlgorithm(id: nat)

  /** Subject and subject alternative names; an address or URI is rendered to text before it is compared. */
  datatype Names = Names(subject: string, dns: seq<string>, emails: seq<string>, ips: seq<bytes>, uris: seq<bytes>)

  /** publicKey is the PKIX encoding, if the key can be marshalled; attributes are the OIDs of the CSR's attributes. */
  datatype Csr = Csr(der: bytes, names: Names, publicKey: Option<bytes>, attributes: seq<seq<nat>>,
                     algorithm: Algorithm, signatureValid: bool)

  datatype Certificate = Certificate(names: Names, publicKey: Option<bytes>)

  /** net.IP.String and url.URL.String. */
  datatype Render = Render(ip: bytes -> string, uri: bytes -> string)

  const OID_CHANGE_SUBJECT_NAME: seq<nat> := [1, 3, 6, 1, 5, 5, 7, 9, 8]

  // ---- Equality of lists up to order ----

  function Count(m: map<string, nat>, k: string): nat {
    if k in m then m[k] else 0
  }

  /** m counts the elements of s. */
  ghost predicate Counts(m: map<string, nat>, s: seq<string>) {
    forall k :: Count(m, k) == multiset(s)[k] && (k in m <==> k in s)
  }

  method CountOccurrences(s: seq<string>) returns (m: map<string, nat>)
    ensures Counts(m, s)
  {
    m := map[];
    for i := 0 to |s|
      invariant Counts(m, s[..i])
    {
      assert s[..i + 1] == s[..i] + [s[i]];
      m := m[s[i] := Count(m, s[i]) + 1];
    }
    assert s[..|s|] == s;
  }

  lemma {:induction false} SameKeys(a: set<string>, b: set<string>)
    requires a <= b && |a| == |b|
    ensures a == b
  {
    assert b == a + (b - a) && |b| == |a| + |b - a|;
  }

  /** Equal exactly as multisets: same elements, same multiplicities, any order. */
  method StringSlicesEqual(a: seq<string>, b: seq<string>) returns (equal: bool)
    ensures equal <==> multiset(a) == multiset(b)
  {
    if |a| != |b| {
      assert |multiset(a)| != |multiset(b)|;
      return false;
    }
    var aMap := CountOccurrences(a);
    var bMap := CountOccurrences(b);
    if |aMap| != |bMap| {
      assert aMap.Keys != bMap.Keys;
      assert exists k :: k in aMap <==> k !in bMap;
      var k :| k in aMap <==> k !in bMap;
      assert multiset(a)[k] != multiset(b)[k];
      return false;
    }
    var todo := aMap.Keys;
    while todo != {}
      invariant todo <= aMap.Keys
      invariant forall k | k in aMap.Keys - todo :: Count(bMap, k) == aMap[k]
      decreases todo
    {
      var k :| k in todo;
      if Count(bMap, k) != aMap[k] {
        assert multiset(a)[k] != multiset(b)[k];
        return false;
      }
      todo := todo - {k};
    }
    assert forall k | k in aMap :: aMap[k] > 0 && k in bMap;
    SameKeys(aMap.Keys, bMap.Keys);
    forall k
      ensures multiset(a)[k] == multiset(b)[k]
    {
      assert Count(aMap, k) == Count(bMap, k);
    }
    assert multiset(a) == multiset(b);
    return true;
  }

  function Rendered(s: seq<bytes>, render: bytes -> string): seq<string> {
    seq(|s|, i requires 0 <= i < |s| => render(s[i]))
  }

  /** ipSlicesEqual and uriSlicesEqual, which differ only in what they render. */
  method RenderedSlicesEqual(a: seq<bytes>, b: seq<bytes>, render: bytes -> string) returns (equal: bool)
    ensures equal <==> multiset(Rendered(a, render)) == multiset(Rendered(b, render))
  {
    if |a| != |b| {
      assert |multiset(Rendered(a, render))| != |multiset(Rendered(b, render))|;
      return false;
    }
    var aStrs := Render'(a, render);
    var bStrs := Render'(b, render);
    equal := StringSlicesEqual(aStrs, bStrs);
  }

  method Render'(s: seq<bytes>, render: bytes -> string) returns (r: seq<string>)
    ensures r == Rendered(s, render)
  {
    r := [];
    for i := 0 to |s|
      invariant r == Rendered(s[..i], render)
    {
      r := r + [render(s[i])];
    }
    assert s[..|s|] == s;
  }

  // ---- Subject and alternative names ----

  /** The subjects are equal and the alternative names are the same up to order. */
  predicate SameNames(a: Names, b: Names, r: Render) {
    && a.subject == b.subject
    && multiset(a.dns) == multiset(b.dns)
    && multiset(a.emails) == multiset(b.emails)
    && multiset(Rendered(a.ips, r.ip)) == multiset(Rendered(b.ips, r.ip))
    && multiset(Rendered(a.uris, r.uri)) == multiset(Rendered(b.uris, r.uri))
  }

  datatype Mismatch = SubjectDiffers | DnsDiffers | EmailsDiffer | IpsDiffer | UrisDiffer

  predicate RenewalAllowed(csr: Csr, cert: Certificate, r: Render) {
    OID_CHANGE_SUBJECT_NAME in csr.attributes || SameNames(csr.names, cert.names, r)
  }

  method ValidateReenrollmentSubject(csr: Csr, cert: Certificate, render: Render) returns (r: Option<Mismatch>)
    ensures r.None? <==>
              || [1, 3, 6, 1, 5, 5, 7, 9, 8] in csr.attributes
              || (&& csr.names.subject == cert.names.subject
                  && multiset(csr.names.dns) == multiset(cert.names.dns)
                  && multiset(csr.names.emails) == multiset(cert.names.emails)
                  && multiset(Rendered(csr.names.ips, render.ip)) == multiset(Rendered(cert.names.ips, render.ip))
                  && multiset(Rendered(csr.names.uris, render.uri)) == multiset(Rendered(cert.names.uris, render.uri)))
    ensures r.None? <==> RenewalAllowed(csr, cert, render)
    ensures r == Some(SubjectDiffers) <==>
              OID_CHANGE_SUBJECT_NAME !in csr.attributes && csr.names.subject != cert.names.subject
    ensures r.Some? && r.value != SubjectDiffers ==> IsFirstMismatch(csr.names, cert.names, render, r.value)
  {
    var hasChangeSubjectName := false;
    for i := 0 to |csr.attributes|
      invariant hasChangeSubjectName <==> OID_CHANGE_SUBJECT_NAME in csr.attributes[..i]
    {
      if csr.attributes[i] == OID_CHANGE_SUBJECT_NAME {
        hasChangeSubjectName := true;
        break;
      }
    }
    if hasChangeSubjectName {
      return None;
    }
    assert csr.attributes[..|csr.attributes|] == csr.attributes;
    if csr.names.subject != cert.names.subject {
      return Some(SubjectDiffers);
    }
    r := ValidateSubjectAltNameMatch(csr.names, cert.names, render);
  }

  /** The lists are compared in this order and the first that differs is reported. */
  predicate IsFirstMismatch(a: Names, b: Names, r: Render, m: Mismatch) {
    match m
    case SubjectDiffers => false
    case DnsDiffers => multiset(a.dns) != multiset(b.dns)
    case EmailsDiffer => multiset(a.dns) == multiset(b.dns) && multiset(a.emails) != multiset(b.emails)
    case IpsDiffer =>
      && multiset(a.dns) == multiset(b.dns) && multiset(a.emails) == multiset(b.emails)
      && multiset(Rendered(a.ips, r.ip)) != multiset(Rendered(b.ips, r.ip))
    case UrisDiffer =>
      && multiset(a.dns) == multiset(b.dns) && multiset(a.emails) == multiset(b.emails)
      && multiset(Rendered(a.ips, r.ip)) == multiset(Rendered(b.ips, r.ip))
      && multiset(Rendered(a.uris, r.uri)) != multiset(Rendered(b.uris, r.uri))
  }

  method ValidateSubjectAltNameMatch(csr: Names, cert: Names, render: Render) returns (r: Option<Mismatch>)
    ensures r.None? <==> SameNames(csr, cert.(subject := csr.subject), render)
    ensures r.Some? ==> IsFirstMismatch(csr, cert, render, r.value)
  {
    var same := StringSlicesEqual(csr.dns, cert.dns);
    if !same {
      return Some(DnsDiffers);
    }
    same := StringSlicesEqual(csr.emails, cert.emails);
    if !same {
      return Some(EmailsDiffer);
    }
    same := RenderedSlicesEqual(csr.ips, cert.ips, render.ip);
    if !same {
      return Some(IpsDiffer);
    }
    same := RenderedSlicesEqual(csr.uris, cert.uris, render.uri);
    if !same {
      return Some(UrisDiffer);
    }
    return None;
  }

  /** s with its elements taken in the order p. */
  function Reordered<T>(s: seq<T>, p: seq<nat>): seq<T>
    requires IsOrder(p, |s|)
  {
    seq(|p|, i requires 0 <= i < |p| => s[p[i]])
  }

  /** p lists every index below n once. */
  predicate IsOrder(p: seq<nat>, n: nat) {
    && |p| == n
    && (forall i | 0 <= i < n :: p[i] < n)
    && (forall i, j | 0 <= i < j < n :: p[i] != p[j])
  }

  /** s without its element t: the last one takes its place. */
  function Without<T>(s: seq<T>, t: nat): seq<T>
    requires t < |s|
  {
    s[t := s[|s| - 1]][..|s| - 1]
  }

  lemma {:induction false} WithoutMultiset<T>(s: seq<T>, t: nat)
    requires t < |s|
    ensures multiset(s) == multiset(Without(s, t)) + multiset{s[t]}
  {
    var n := |s|;
    assert s == s[..n - 1] + [s[n - 1]];
    if t < n - 1 {
      assert Without(s, t) == s[..n - 1][t := s[n - 1]];
    }
  }

  /** The order of the others once the element picked last is gone. */
  function OrderWithout(p: seq<nat>): seq<nat>
    requires p != []
  {
    var n, t := |p|, p[|p| - 1];
    seq(n - 1, i requires 0 <= i < n - 1 => if p[i] == n - 1 then t else p[i])
  }

  lemma {:induction false} ReorderedWithout<T>(s: seq<T>, p: seq<nat>)
    requires IsOrder(p, |s|) && s != []
    ensures IsOrder(OrderWithout(p), |s| - 1)
    ensures Reordered(s, p) == Reordered(Without(s, p[|s| - 1]), OrderWithout(p)) + [s[p[|s| - 1]]]
  {
  }

  lemma {:induction false} ReorderedMultiset<T>(s: seq<T>, p: seq<nat>)
    requires IsOrder(p, |s|)
    ensures multiset(Reordered(s, p)) == multiset(s)
    decreases |s|
  {
    if s != [] {
      var t := p[|s| - 1];
      ReorderedWithout(s, p);
      ReorderedMultiset(Without(s, t), OrderWithout(p));
      WithoutMultiset(s, t);
    }
  }

  /** Orders for the four lists of names. */
  datatype Orders = Orders(dns: seq<nat>, emails: seq<nat>, ips: seq<nat>, uris: seq<nat>) {
    predicate Fit(n: Names) {
      IsOrder(dns, |n.dns|) && IsOrder(emails, |n.emails|) && IsOrder(ips, |n.ips|) && IsOrder(uris, |n.uris|)
    }

    function Apply(n: Names): Names
      requires Fit(n)
    {
      Names(n.subject, Reordered(n.dns, dns), Reordered(n.emails, emails),
            Reordered(n.ips, ips), Reordered(n.uris, uris))
    }
  }

  /** Reordering the names of the CSR and of the certificate never changes the decision. */
  lemma {:induction false} RenewalIgnoresOrder(csr: Csr, cert: Certificate, r: Render, o: Orders, o': Orders)
    requires o.Fit(csr.names) && o'.Fit(cert.names)
    ensures RenewalAllowed(csr.(names := o.Apply(csr.names)), cert.(names := o'.Apply(cert.names)), r)
            <==> RenewalAllowed(csr, cert, r)
  {
    OrderKeepsNames(csr.names, o, r);
    OrderKeepsNames(cert.names, o', r);
  }

  lemma {:induction false} OrderKeepsNames(n: Names, o: Orders, r: Render)
    requires o.Fit(n)
    ensures SameNames(n, o.Apply(n), r)
  {
    ReorderedMultiset(n.dns, o.dns);
    ReorderedMultiset(n.emails, o.emails);
    ReorderedMultiset(Rendered(n.ips, r.ip), o.ips);
    assert Reordered(Rendered(n.ips, r.ip), o.ips) == Rendered(Reordered(n.ips, o.ips), r.ip);
    ReorderedMultiset(Rendered(n.uris, r.uri), o.uris);
    assert Reordered(Rendered(n.uris, r.uri), o.uris) == Rendered(Reordered(n.uris, o.uris), r.uri);
  }

  // ---- Public key ----

  datatype KeyMismatch = CsrKeyUnreadable | CertKeyUnreadable | DifferentSizes | DifferentKeys

  predicate SameKey(csr: Csr, cert: Certificate) {
    csr.publicKey.Some? && cert.publicKey.Some? && csr.publicKey == cert.publicKey
  }

  method ValidateCsrMatchesCertificate(csr: Csr, cert: Certificate) returns (r: Option<KeyMismatch>)
    ensures r.None? <==> csr.publicKey.Some? && csr.publicKey == cert.publicKey
    ensures r == Some(CsrKeyUnreadable) <==> csr.publicKey.None?
    ensures r == Some(CertKeyUnreadable) <==> csr.publicKey.Some? && cert.publicKey.None?
    ensures r == Some(DifferentSizes) <==>
              csr.publicKey.Some? && cert.publicKey.Some? && |csr.publicKey.value| != |cert.publicKey.value|
  {
    if csr.publicKey.None? {
      return Some(CsrKeyUnreadable);
    }
    if cert.publicKey.None? {
      return Some(CertKeyUnreadable);
    }
    var csrKey, certKey := csr.publicKey.value, cert.publicKey.value;
    if |csrKey| != |certKey| {
      return Some(DifferentSizes);
    }
    for i := 0 to |csrKey|
      invariant csrKey[..i] == certKey[..i]
    {
      if csrKey[i] != certKey[i] {
        return Some(DifferentKeys);
      }
    }
    assert csrKey[..|csrKey|] == csrKey && certKey[..|csrKey|] == certKey;
    return None;
  }

  // ---- Signature algorithm ----

  /** The algorithm a configured name stands for, after trimming and upper-casing. */
  function ParseSignatureAlgorithm(name: string): Option<Algorithm> {
    match name
    case "SHA256WITHRSA" => Some(SHA256WithRSA)
    case "SHA384WITHRSA" => Some(SHA384WithRSA)
    case "SHA512WITHRSA" => Some(SHA512WithRSA)
    case "ECDSAWITHSHA256" => Some(ECDSAWithSHA256)
    case "ECDSAWITHSHA384" => Some(ECDSAWithSHA384)
    case "ECDSAWITHSHA512" => Some(ECDSAWithSHA512)
    case _ => None
  }

  /** The names by which an algorithm can be configured. */
  predicate IsNameOf(name: string, a: Algorithm) {
    || (name == "SHA256WITHRSA" && a == SHA256WithRSA)
    || (name == "SHA384WITHRSA" && a == SHA384WithRSA)
    || (name == "SHA512WITHRSA" && a == SHA512WithRSA)
    || (name == "ECDSAWITHSHA256" && a == ECDSAWithSHA256)
    || (name == "ECDSAWITHSHA384" && a == ECDSAWithSHA384)
    || (name == "ECDSAWITHSHA512" && a == ECDSAWithSHA512)
  }

  lemma {:induction false} NamesOfAlgorithms(name: string, a: Algorithm)
    ensures ParseSignatureAlgorithm(name) == Some(a) <==> IsNameOf(name, a)
  {
  }

  /** Strong, and configured by one of its names unless nothing is configured. */
  lemma {:induction false} AllowedIff(a: Algorithm, allowed: Allowed)
    ensures AlgorithmAllowed(a, allowed) <==>
              && a != MD5WithRSA && a != SHA1WithRSA && a != ECDSAWithSHA1
              && (allowed.names == [] || exists n | n in allowed.names :: IsNameOf(allowed.normalise(n), a))
  {
    forall n | n in allowed.names
      ensures ParseSignatureAlgorithm(allowed.normalise(n)) == Some(a) <==> IsNameOf(allowed.normalise(n), a)
    {
      NamesOfAlgorithms(allowed.normalise(n), a);
    }
  }

  predicate IsWeak(a: Algorithm) {
    a.MD5WithRSA? || a.SHA1WithRSA? || a.ECDSAWithSHA1?
  }

  /** The configured names, and how the source normalises them before it looks them up. */
  datatype Allowed = Allowed(names: seq<string>, normalise: string -> string)

  predicate AlgorithmAllowed(a: Algorithm, allowed: Allowed) {
    && !IsWeak(a)
    && (allowed.names == []
        || exists n | n in allowed.names :: ParseSignatureAlgorithm(allowed.normalise(n)) == Some(a))
  }

  datatype AlgorithmError = NotAllowed | NothingConfigured

  method ValidateCsrSignatureAlgorithm(a: Algorithm, allowed: Allowed) returns (r: Option<AlgorithmError>)
    ensures a == MD5WithRSA || a == SHA1WithRSA || a == ECDSAWithSHA1 ==> r == Some(NotAllowed)
    ensures a != MD5WithRSA && a != SHA1WithRSA && a != ECDSAWithSHA1 && allowed.names == [] ==> r == None
    ensures r == None && allowed.names != [] ==> exists n | n in allowed.names :: IsNameOf(allowed.normalise(n), a)
    ensures r.None? <==> AlgorithmAllowed(a, allowed)
    ensures r == Some(NothingConfigured) <==>
              && !IsWeak(a) && allowed.names != []
              && forall n | n in allowed.names :: ParseSignatureAlgorithm(allowed.normalise(n)).None?
  {
    if IsWeak(a) {
      return Some(NotAllowed);
    }
    if |allowed.names| == 0 {
      return None;
    }
    AllowedIff(a, allowed);
    var allowedSet := {};
    for i := 0 to |allowed.names|
      invariant forall alg :: alg in allowedSet <==>
                  exists n | n in allowed.names[..i] :: ParseSignatureAlgorithm(allowed.normalise(n)) == Some(alg)
    {
      assert allowed.names[..i + 1] == allowed.names[..i] + [allowed.names[i]];
      var alg := ParseSignatureAlgorithm(allowed.normalise(allowed.names[i]));
      if alg.Some? {
        allowedSet := allowedSet + {alg.value};
      }
    }
    assert allowed.names[..|allowed.names|] == allowed.names;
    if |allowedSet| == 0 {
      assert allowedSet == {};
      return Some(NothingConfigured);
    }
    var some :| some in allowedSet;
    assert exists n | n in allowed.names :: ParseSignatureAlgorithm(allowed.normalise(n)) == Some(some);
    return if a in allowedSet then None else Some(NotAllowed);
  }
}
