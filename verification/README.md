# Verified model of the EST enrolment service

A Dafny model of the parts of this RFC 7030 enrolment service that decide whether a request is let in, who it
acts as, what is signed for it and what bytes it is sent, with proofs about all inputs and all runs. Every module
follows one source file, or one mechanism that spans several. Methods have the loops, early exits and object
updates of the source and are proved against specification functions; the theorems are about those functions.

`dafny verify dfyconfig.toml` checks the whole project.

## What is proved

**Rate limiting.** `TokenBucket` is one bucket in exact integer arithmetic (times in nanoseconds, tokens in units
of 10^-9 token, so a rate of r tokens a second is exactly r units a nanosecond). `RateLimitTable` is the evicting
per-IP table with a request as one step. The main results: eviction cannot be observed by any run *if and only if*
b tokens refill within cleanup + 1 ns (the "only if" is a run built for any other b, r and cleanup); one address
never influences another, through one limiter or both; and, with no relation between b and r, a window of length T
admits at most b·(1 + ⌊T/cleanup⌋) + r·T requests of one address. `RateLimitInterleaving` splits a request into getVisitor and
Allow with sweeps in between, bounds the admissions by b + r·T plus the requests caught in between, and shows by a
concrete run that the extra term is needed. `RateLimiter` holds the classes with the maps and limiter objects;
each method is a step of the two machines above. `RateLimitNesting` puts the auth limiter behind the general one.

**Wire formats.** `Der`, `Oid`, `Base64` and `Pem` model the encodings of ITU-T X.690, RFC 4648 and RFC 7468 as
Go's libraries read and write them, with reading and writing proved inverse in both directions where both hold.
On them: certificates-only PKCS#7 (`Pkcs7`; parsing undoes building exactly when the structure is within the
31-bit lengths encoding/asn1 reads, which also needs that nothing built can look like PEM armour), the CSR reader
(`CsrReader`; all accepted formats agree), CSR attributes (`CsrAttrs`; from the configured text to the client, with
the exact condition under which nothing is lost) and the server-key-generation reply
(`ServerKeyGen`; the client recovers the PKCS#8 bytes).

**Enrolment.** `Enrolment` is a machine in which any number of enrol and re-enrol requests interleave, with the
backend clients on one heap. Every reachable state is safe: sign calls carry the caller's own token and a CSR that
passed every check, clones are closed before the reply, a 200 follows a sign call, the shared client never
changes. `EnrolmentHandlers` is the same code as methods on heap objects, from the incoming credentials and body to
the PEM that reaches the server, proved to do exactly the script of the machine; its theorem
`EverySignCallIsEarned` joins the machine, the cascade and the CSR reader. `CsrChecks` decides the re-enrolment
comparisons and `Log` holds what each request did.

**Authentication and errors.** `AuthManager` proves the cascade to be a first-success search with its exact call
trace and scrubbed buffers; `BackendErrors` proves that wrapping an error never changes its HTTP status.

**Backend.** `Identity` proves which logins share an entity; `Transit` proves that temporary keys are conserved
under interleaving, and exactly when runs that share a key name can lose a key.

What the specification functions themselves mean is fixed by lemmas in numbers, octets and words rather than by the
functions' names: 10^9 units to a token, the octets of every header, the path of a sign call, the calls made for a
user and password, the words that give a status.

## Results that are not what one might expect

- Eviction is unobservable for b·10^9 <= r·(cleanup + 1) and for no other parameters; with equality missed by one
  unit the run of `RateLimitTable.Distinguisher` tells the tables apart.
- The OIDs a client reads are not always those that were configured: `parseOID` keeps components in 64-bit
  arithmetic, so 1.2.9223372036854775808 is read as 1.2 and 1.2.18446744073709551616 as 1.2.0, and one text that the
  marshaller refuses, such as 3.5, fails every reply. `CsrAttrs.ClientReadsAttributesIff` gives the exact condition.
- Raw DER that happens to decode as base64 is not read as itself; `CsrReader.RawReadsIff` gives the exact condition
  and `RawTextIsMisread` a SEQUENCE of that kind. Real CSRs contain a byte that rules this out, which is the
  hypothesis of `FormatsAgree`.
- A structure of 2^31 bytes or more can be built but not parsed (`Pkcs7.ParseUndoesCreate`).
- Temporary Transit keys are named after the clock's nanoseconds. Two runs that get one name can lose a key before it
  is exported, exactly under the condition of `Transit.SharedNameLosesKeyIff`; conservation is proved when the runs
  that create a key have names of their own.
- The lines of the server-key-generation reply end with LF alone (`ServerKeyGen.LinesEndWithLfOnly`), where section
  5.1.1 of RFC 2046 asks for CRLF; the model follows the code.
- The no-colon branch of Basic authentication zeroes the decoded buffer but leaves the one part, the whole text, in
  the list of parts (pkg/auth/manager.go:225-234, `AuthManager.AuthenticateBasic`); the model follows the code.

## Model

| member | source | states |
|---|---|---|
| TokenBucket.TakeIff | pkg/server/ratelimit.go:83-86 | a token is taken iff b >= 1 and what was there plus r units for each nanosecond makes 10^9 units |
| TokenBucket.EmptyBucketWaits | pkg/server/ratelimit.go:83-86 | an emptied bucket gives its next token exactly when r times the nanoseconds since is 10^9 or more |
| TokenBucket.NewBucketAdmitsBurst | pkg/server/ratelimit.go:83-86 | of any number of requests at one instant a new address is admitted exactly the first b |
| TokenBucket.LevelHit | pkg/server/ratelimit.go:178-194 | a request is admitted iff a whole token is there, pays exactly one token, and an absent entry stands for a full bucket |
| TokenBucket.SameLevelHit | pkg/server/ratelimit.go:79-91 | entries at one level, one evicted and one not, answer a request alike and stay at one level |
| TokenBucket.TickKeepsLevel | pkg/server/ratelimit.go:113-117 | when b <= r·(cleanup + 1 ns), neither the full-bucket test nor the idle test changes what the next request finds |
| TokenBucket.AdmissionsFrom | pkg/server/ratelimit.go:113-117 | lossy idle evictions are more than cleanup apart, so each gives away at most one burst per interval |
| TokenBucket.WindowBound | pkg/server/ratelimit.go:105-119 | with b and r unrelated, any window of length T admits at most b·(1 + ⌊T/cleanup⌋) + r·T requests of one address |
| TokenBucket.PlainWindowBound | pkg/server/ratelimit.go:105-119 | at most b + r·T when a bucket refills before it counts as idle |
| RateLimitTable.RequestInNumbers | pkg/server/ratelimit.go:79-91 | verdict, bucket and time stamp a request leaves, in tokens of 10^9 units, for a known and an unknown address |
| RateLimitTable.SweepInNumbers | pkg/server/ratelimit.go:105-119 | a sweep keeps an entry, unchanged, iff it has a time stamp within cleanup and fewer than b tokens |
| RateLimitTable.StepEntry | pkg/server/ratelimit.go:79-119 | a table step is, for each address, a step of its own bucket; the two maps keep the same keys |
| RateLimitTable.ReachableInv | pkg/server/ratelimit.go:79-119 | in every reachable state visitors and lastSeen have the same keys and each bucket is within its bounds |
| RateLimitTable.OnlyForSnoc | pkg/server/ratelimit.go:178-194 | what a run without the other addresses consists of: sweeps and the address's own requests, in order |
| RateLimitTable.Isolation | pkg/server/ratelimit.go:178-194 | the decisions for one address are those of the run without the requests of all other addresses, for all b, r and cleanup |
| RateLimitTable.NoSweepsSnoc | pkg/server/ratelimit.go:95-122 | what the never-evicting table sees of a run: the requests, in order |
| RateLimitTable.SweepsUnseen | pkg/server/ratelimit.go:95-122 | when b <= r·(cleanup + 1 ns) the evicting table answers every run as a table that never evicts |
| RateLimitTable.DistinguisherDistinguishes | pkg/server/ratelimit.go:113-117 | otherwise emptying a bucket, letting it be swept and emptying it again gets more than the never-evicting table gives |
| RateLimitTable.EvictionUnobservableIff | pkg/server/ratelimit.go:79-119 | eviction is unobservable over all runs iff b·10^9 <= r·(cleanup + 1), times in nanoseconds |
| RateLimitTable.AdmittedAreAnswered | pkg/server/ratelimit.go:178-194 | the admissions that the bounds count are the requests answered yes |
| RateLimitTable.WindowFrom | pkg/server/ratelimit.go:79-119 | both window bounds from any state the table can be in |
| RateLimitTable.WindowOfRun | pkg/server/ratelimit.go:79-119 | both window bounds for every window of every run from the empty table, other addresses and sweeps included |
| RateLimitTable.CallersIff | pkg/server/ratelimit.go:89-90 | an address is a caller since a time iff one of its requests came no earlier |
| RateLimitTable.RecentRun | pkg/server/ratelimit.go:95-122 | swept every interval, every entry was made by a caller seen within the last two intervals |
| RateLimitTable.TableBound | pkg/server/ratelimit.go:95-122 | the table then holds at most the distinct addresses of the last two intervals |
| RateLimitInterleaving.AtomicRequest | pkg/server/ratelimit.go:178-194 | getVisitor directly followed by Allow is one step of the table |
| RateLimitInterleaving.AtomicSweep | pkg/server/ratelimit.go:105-119 | a sweep of limiter objects is a sweep of the table |
| RateLimitInterleaving.StepInv | pkg/server/ratelimit.go:79-119 | getVisitor, Allow and sweep in any order keep the bounds, and no two addresses share a limiter |
| RateLimitInterleaving.StepPays | pkg/server/ratelimit.go:183-189 | every admission is paid for by the current bucket of its address, unless its limiter was evicted in between |
| RateLimitInterleaving.Spent | pkg/server/ratelimit.go:79-119 | what a run admits is covered by the level, the refill and the caught requests |
| RateLimitInterleaving.InterleavedBound | pkg/server/ratelimit.go:79-119 | in every interleaving with Allow within delta of getVisitor and b <= r·(cleanup + 1 ns - delta), a window of length T admits at most b + r·T plus the caught requests |
| RateLimitInterleaving.RecentRun | pkg/server/ratelimit.go:79-122 | in every interleaving, swept every interval, each entry was made by a getVisitor of the last two intervals |
| RateLimitInterleaving.InterleavedTableBound | pkg/server/ratelimit.go:79-122 | the two maps have the same keys, and no more than the distinct addresses of the last two intervals |
| RateLimitInterleaving.CaughtExceedsBurst | pkg/server/ratelimit.go:178-194 | with b = 1 a caught request makes two admissions at one instant, so the extra term is needed |
| RateLimiters.Limiter.constructor | pkg/server/ratelimit.go:79-91 | a new limiter holds b tokens of 10^9 units |
| RateLimiters.Limiter.Tokens | pkg/server/ratelimit.go:114 | the refill of r units a nanosecond, capped at b tokens; nothing changes |
| RateLimiters.Limiter.Allow | pkg/server/ratelimit.go:186 | takes 10^9 units iff they are there, otherwise leaves the limiter as it was |
| RateLimiters.RateLimiter.constructor | pkg/server/ratelimit.go:37-56 | a new table is empty |
| RateLimiters.RateLimiter.GetVisitor | pkg/server/ratelimit.go:79-91 | returns the limiter of the address, makes one if there is none, stamps the time, and is the getVisitor step of the interleaved machine |
| RateLimiters.RateLimiter.Spend | pkg/server/ratelimit.go:183-189 | spends a token of the limiter held, in the table or not, and is the Allow step |
| RateLimiters.RateLimiter.IsStale | pkg/server/ratelimit.go:106-114 | true iff the entry has no time stamp, was idle for longer than cleanup, or is full |
| RateLimiters.RateLimiter.DeleteIfStale | pkg/server/ratelimit.go:106-117 | a stale entry leaves both maps, any other stays |
| RateLimiters.RateLimiter.DeleteStale | pkg/server/ratelimit.go:105-118 | the loop deletes exactly the entries that were stale before it |
| RateLimiters.RateLimiter.Sweep | pkg/server/ratelimit.go:104-119 | one tick is the sweep step of both machines |
| RateLimiters.RateLimiter.Admit | pkg/server/ratelimit.go:178-194 | an undisturbed request is one step of the table and gets its answer |
| RateLimitNesting.ReachesIff | pkg/server/server.go:339-342 | an enrolment handler runs iff the call is for an enrolment endpoint and the verdicts of both tables are yes |
| RateLimitNesting.StepTables | pkg/server/server.go:226-228 | every call is a request to the general table; the auth table changes only by an enrolment call that the general one admits and by its own sweep |
| RateLimitNesting.DecideIff | pkg/server/server.go:357-361 | each of the three decisions by the two verdicts |
| RateLimitNesting.OnlyCallsSnoc | pkg/server/server.go:226-228 | what a run without the other addresses' calls consists of |
| RateLimitNesting.ReachedByBoth | pkg/server/server.go:339-342 | an enrolment handler runs iff the auth limiter admits, and only when the general limiter admitted too |
| RateLimitNesting.NestedFrom | pkg/server/server.go:357-361 | requests that reach a handler are within the bounds of both limiters, from any state |
| RateLimitNesting.NestedBound | pkg/server/server.go:226-228 | the same for every window of every run from the start |
| RateLimitNesting.NestedIsolation | pkg/server/server.go:226-228 | through both limiters, every decision for one address and the number of its calls that reach a handler are those of the run without all other addresses' calls |
| Base64.DigitIs | pkg/est/csr.go:75 | the alphabet of section 4 of RFC 4648, written and read |
| Base64.GroupIs | pkg/est/csr.go:75 | three bytes are four sextets of one 24-bit number; one or two are filled with zero bits and padded |
| Base64.RoundTrip | pkg/est/csr.go:75 | decoding undoes encoding, with line breaks put anywhere into the text |
| Base64.ForeignByteFails | pkg/est/csr.go:75 | a byte that is neither base64 text nor a line break makes decoding fail |
| Pem.TextIs | pkg/handlers/serverkeygen.go:465-474 | the text of a block: BEGIN line, a header line and an empty one if there is a header, base64 lines, END line |
| Pem.LinesAre | pkg/handlers/serverkeygen.go:474 | base64 in lines of 64 characters |
| Pem.RoundTrip | pkg/handlers/serverkeygen.go:465-474 | decoding a written block gives back its bytes, for any type without line breaks and at most one header line |
| Pem.NoArmour | pkg/est/csr.go:82 | text without a BEGIN line holds no block |
| Pem.ArmourIsNotBase64 | pkg/est/csr.go:75-82 | a PEM body is never taken for base64 |
| CsrReader.ReadAll | pkg/est/csr.go:66-70 | the limited reader never looks beyond its limit: a body that breaks later is still read up to it |
| CsrReader.ReadCsrPayloadWithLimit | pkg/est/csr.go:55-97 | RequestTooLarge iff header or content exceeds the limit, 65536 bytes if none is given, even if the connection breaks after that; an earlier break is an error; anything else is interpreted |
| CsrReader.FormatsAgree | pkg/est/csr.go:74-96 | DER, base64 of DER, PEM and base64 of PEM of one CSR all read as that CSR |
| CsrReader.RawReadsIff | pkg/est/csr.go:74-96 | raw DER without PEM armour is read as itself iff it is empty or does not decode as base64 |
| CsrReader.TextIsMisread | pkg/est/csr.go:75-79 | any non-empty body that decodes as base64 is read as something shorter, or not at all |
| CsrReader.RawTextIsMisread | pkg/est/csr.go:75-79 | the DER of a SEQUENCE of 52 bytes that is such a body |
| Der.IdentifierIs | pkg/est/pkcs7.go:50-87 | the lead octet: 0, 64, 128 or 192 for the class, 32 for constructed, and the tag (X.690 section 8.1.2) |
| Der.LengthIs | pkg/est/pkcs7.go:74-91 | one octet below 128, else 128 plus their count and the fewest octets whose base-256 value is the length (X.690 sections 8.1.3 and 10.1) |
| Der.Base128Is | pkg/handlers/csrattrs.go:127-129 | the lower seven bits of the octets are the number in base 128 (X.690 section 8.19.2) |
| Der.Base128Marked | pkg/handlers/csrattrs.go:127-129 | all octets but the last carry the high bit, and the first is not an empty group |
| Der.BigEndianReads | pkg/est/pkcs7.go:74-91 | long lengths of any size read back, or are refused exactly when above the limit |
| Der.Base128Reads | pkg/handlers/csrattrs.go:127-129 | base-128 numbers of any length read back, or are refused exactly when above the limit |
| Der.ReadIsBase128 | pkg/est/pkcs7.go:108 | what is read as a base-128 number is its only encoding |
| Der.EncodeReads | pkg/est/pkcs7.go:74-91 | an encoded value is read back with what follows it, iff it is within the reader's limits |
| Der.ReadIsEncode | pkg/est/pkcs7.go:108-136 | what is accepted is the encoding of what is returned |
| Der.ReadIff | pkg/est/pkcs7.go:136 | reading gives a value and a rest iff the input is the value's encoding followed by the rest and within the limits |
| Oid.ContentIs | pkg/handlers/csrattrs.go:127-129 | the first two arcs as 40 times the first plus the second, then each arc as its own number (X.690 section 8.19.4) |
| Oid.ArcsBack | pkg/handlers/csrattrs.go:127-129 | a list of arcs reads back iff all are within the limit |
| Oid.RoundTripIff | pkg/handlers/csrattrs.go:127-129 | a marshalled OID reads back iff it is valid by X.690, did not wrap, and is within the limit |
| Oid.NamedBackIff | pkg/handlers/csrattrs.go:127-129 | an OID whose numbers were wrapped to 64 bits decodes to the OID that was meant iff that one is valid by X.690 and within the limit |
| CsrAttrs.ParseOid | pkg/handlers/csrattrs.go:132-156 | succeeds iff the text is digits and dots with a dot; the result is the value of each piece in 64-bit arithmetic |
| CsrAttrs.JoinPieces | pkg/handlers/csrattrs.go:136-150 | the pieces joined by dots give the text back and hold no dot |
| CsrAttrs.PrintedNames | pkg/handlers/csrattrs.go:132-156 | a printed OID is digits and dots and names itself, whatever the size of its numbers |
| CsrAttrs.ParseUndoesPrint | pkg/handlers/csrattrs.go:132-156 | parsing undoes printing for every OID of two or more components that fit in an int |
| CsrAttrs.CsrAttrsHandler.constructor | pkg/handlers/csrattrs.go:36-65 | keeps the configured strings that parse, in order and in 64-bit arithmetic, or the default when none is configured |
| CsrAttrs.CsrAttrsHandler.ServeHttp | pkg/handlers/csrattrs.go:76-115 | 405 unless GET, 204 without attributes, 500 iff the marshaller refuses one of them, else 200 with the base64 SEQUENCE |
| CsrAttrs.AttributesOctets | pkg/handlers/csrattrs.go:127-129 | octet 48 and a length around the OIDs, each behind octet 6 and its own length |
| CsrAttrs.DecimalSnoc | pkg/handlers/csrattrs.go:146-147 | one more digit makes ten times the number plus the digit |
| CsrAttrs.DefaultReads | pkg/handlers/csrattrs.go:53-58 | with nothing configured a client reads exactly 1.2.840.113549.1.9.14 |
| CsrAttrs.ElementsBackIff | pkg/handlers/csrattrs.go:127-129 | the elements of the SEQUENCE read back as the OIDs that were meant iff each of those is valid by X.690 and within the limits |
| CsrAttrs.ClientReadsAttributesIff | pkg/handlers/csrattrs.go:36-129 | for every configuration, the reply is 200 and a client reads exactly the OIDs the configured texts name, in order and unwrapped, iff there is one, each is valid by X.690 and within the client's limits, and all fit into one reply; 204 iff none is named |
| CsrAttrs.RefusedOidFailsAll | pkg/handlers/csrattrs.go:92-99 | one configured text that parses to an OID the marshaller refuses turns every reply into 500 |
| CsrAttrs.WrappedArcIsLost | pkg/handlers/csrattrs.go:137-147 | configured with 1.2.N for any N of 2^63 or more, the client reads 1.2 when N wraps to a negative number and otherwise 1.2 and the wrapped number, never 1.2.N |
| Pkcs7.BuiltOctets | pkg/est/pkcs7.go:44-96 | every octet of the structure: 48, the signedData OID, 160, 48, version 1, 49 0, the data OID, 160 and the certificates, 49 0, with their lengths |
| Pkcs7.OctetsParse | pkg/est/pkcs7.go:100-151 | a structure of these octets around certificates is accepted and gives them back in order |
| Pkcs7.ConcatAppend | pkg/est/pkcs7.go:41-44 | each further certificate goes behind those before it |
| Pkcs7.CreatePkcs7CertsOnly | pkg/est/pkcs7.go:36-97 | no certificates is an error; otherwise the ContentInfo over their concatenation |
| Pkcs7.ParsePkcs7 | pkg/est/pkcs7.go:100-151 | each rejection in the order of the code, otherwise the certificates of the field |
| Pkcs7.ParseCertificates | pkg/est/pkcs7.go:131-148 | the loop returns the values of the field in order and ends because each takes at least two bytes |
| Pkcs7.CleanBuilt | pkg/est/pkcs7.go:102-105 | no header, length or field boundary of a built structure forms PEM armour |
| Pkcs7.StructureBack | pkg/est/pkcs7.go:107-130 | a built structure reads back to its certificates field, through all nested headers, iff within the length limit |
| Pkcs7.CertificatesBack | pkg/est/pkcs7.go:131-148 | concatenated certificates come apart again in order |
| Pkcs7.ParseUndoesCreate | pkg/est/pkcs7.go:36-151 | for every non-empty list of certificates, parsing what was built gives the list back iff the outer content is below 2^31 bytes |
| Pkcs7.CertificatesShape | pkg/est/pkcs7.go:131-148 | the certificates returned are single values whose bytes concatenate to the field |
| Pkcs7.ParsedShape | pkg/est/pkcs7.go:107-150 | every accepted input is one ContentInfo with nothing behind it, and its certificates are exactly the bytes of the certificates field |
| ServerKeyGen.DecryptUndoesEncrypt | pkg/handlers/serverkeygen.go:490-547 | decryption splits off the nonce and gives the data back |
| ServerKeyGen.EncodePrivateKey | pkg/handlers/serverkeygen.go:425-485 | each error in order; the plain key, or the PEM of type ENCRYPTED PRIVATE KEY of nonce and sealed key with the wrapped password |
| ServerKeyGen.SendServerKeyGenResponse | pkg/handlers/serverkeygen.go:578-639 | the reply is the lines of two parts, or three iff a non-empty password was encrypted |
| ServerKeyGen.PartsBack | pkg/handlers/serverkeygen.go:596-633 | any well-formed parts read back from their lines |
| ServerKeyGen.ReplyIs | pkg/handlers/serverkeygen.go:596-633 | each part in octets: delimiter line, header lines, an empty line, one base64 line; then the closing delimiter |
| ServerKeyGen.ClientReadsParts | pkg/handlers/serverkeygen.go:578-639 | splitting the reply at its delimiters and decoding gives exactly certificate, key and, iff there is one, password, each under its own content type; a key is labelled encrypted iff it is |
| ServerKeyGen.LinesEndWithLfOnly | pkg/handlers/serverkeygen.go:596-633 | no reply contains a carriage return |
| ServerKeyGen.ServeKey | pkg/handlers/serverkeygen.go:425-639 | there is a reply iff the key could be encoded, and the client recovers the PKCS#8 bytes from it |
| CsrChecks.CountOccurrences | pkg/est/csr.go:292-301 | the loop's map gives every string its multiplicity and nothing else |
| CsrChecks.StringSlicesEqual | pkg/est/csr.go:287-315 | count maps decide equality as multisets |
| CsrChecks.RenderedSlicesEqual | pkg/est/csr.go:318-355 | addresses and URIs are equal iff their renderings are as multisets |
| CsrChecks.ValidateSubjectAltNameMatch | pkg/est/csr.go:247-284 | accepts iff all four lists agree, else reports the first that differs |
| CsrChecks.ValidateReenrollmentSubject | pkg/est/csr.go:215-243 | accepts iff the OID of ChangeSubjectName is among the attributes or subject and all four lists of names agree |
| CsrChecks.ReorderedMultiset | pkg/est/csr.go:287-315 | taking a list in another order keeps its multiset |
| CsrChecks.RenewalIgnoresOrder | pkg/est/csr.go:215-355 | reordering any list of the CSR or the certificate never changes the decision |
| CsrChecks.ValidateCsrMatchesCertificate | pkg/est/csr.go:163-185 | accepts iff both keys can be encoded and are byte for byte equal |
| CsrChecks.ValidateCsrSignatureAlgorithm | pkg/est/csr.go:101-125 | refuses MD5 and both SHA-1 algorithms; accepts any other iff nothing is configured or one of its names is |
| CsrChecks.NamesOfAlgorithms | pkg/est/csr.go:128-145 | the six names by which an algorithm can be configured |
| CsrChecks.AllowedIff | pkg/est/csr.go:101-154 | allowed iff strong and, if anything is configured, configured by name |
| BackendErrors.StatusOf | pkg/handlers/errors.go:19-110 | which words, in any mix of upper and lower case and in which order, give which status, message and retry time |
| BackendErrors.SaysIff | pkg/handlers/errors.go:24-25 | lower-casing and searching finds a word iff it stands in the text in some mix of upper and lower case |
| BackendErrors.ErrorStatuses | pkg/handlers/errors.go:19-110 | a backend error never becomes 200, and has a retry time iff it becomes 503 |
| BackendErrors.PrefixInvisible | pkg/handlers/errors.go:19-110 | a keyword is found behind a separate prefix iff it is found without it |
| BackendErrors.HarmlessPrefix | pkg/handlers/errors.go:19-110 | a prefix that is separate from all keywords does not change the classification |
| BackendErrors.UnmarkedIsHarmless | pkg/handlers/errors.go:19-110 | a prefix without any of the marking pairs, ending in a colon and a space, is separate from all keywords |
| BackendErrors.WrappingKeepsStatus | pkg/handlers/types.go:55-77 | any number of the four wraps added on the way up changes neither status nor retry time |
| Enrolment.StepInv | pkg/handlers/types.go:42-81 | every step of every request keeps the invariant: what each did and has left is its script, no client is shared, and a token is only held by an open clone |
| Enrolment.GateInFull | pkg/handlers/base_enrollment.go:32-122 | the reply to a request that does not pass: 405, 401, 413 or 400, in this order |
| Enrolment.AcceptableIff | pkg/handlers/simplereenroll.go:93-138 | what a CSR must pass: signature, algorithm and, when renewing with a TLS certificate, key and names |
| Enrolment.AfterGateInFull | pkg/handlers/types.go:42-81 | no clone for a missing token or a failed copy, else clone, sign if the policy is known, close and reply, with each error text |
| Enrolment.SignPathIs | pkg/backend/common_impl.go:229-283 | mount/sign/role for a role and mount/sign-verbatim otherwise, under the policy's mount or else the default one |
| Enrolment.CertifiedIs | pkg/backend/common_impl.go:246-279 | a certificate iff the answer is text whose PEM block parses; each of the five errors by its case |
| Enrolment.LegitimateInFull | pkg/handlers/types.go:42-81 | a sign call in full: own token, path, TTL, and a CSR that passed every check |
| Enrolment.RefusalDecidesStatus | pkg/handlers/types.go:55-77 | when the server refuses to sign or the clone fails, the reply has the status of the server's own error, however it was wrapped |
| Enrolment.ScriptShape | pkg/handlers/simplereenroll.go:60-168 | the three shapes of what a request does, and when it answers 200 |
| Enrolment.PrefixOrderly | pkg/handlers/types.go:42-81 | whatever part a request has done, it signs at most once with its own token for a checked CSR, and closes its clone once and before it replies |
| Enrolment.EveryRunIsSafe | pkg/handlers/simpleenroll.go:58-113 | all of that in every interleaving of any number of requests, with the shared client unchanged |
| Enrolment.TurnsFinish | pkg/handlers/simplereenroll.go:60-168 | six turns finish a request from any reachable state |
| Enrolment.EveryRequestFinishes | pkg/handlers/simplereenroll.go:60-168 | a request that got its turns has done exactly what it does alone, whatever the others did |
| EnrolmentHandlers.ApiClient.Clone | pkg/backend/common_impl.go:774-779 | a fresh client with the token of the original, or the failure |
| EnrolmentHandlers.ApiClient.SetToken | pkg/backend/common_impl.go:782 | replaces the token |
| EnrolmentHandlers.Backend.CloneWithToken | pkg/backend/common_impl.go:774-794 | a fresh backend whose own fresh client holds the given token; the original is unchanged |
| EnrolmentHandlers.Backend.SignCsr | pkg/backend/common_impl.go:228-330 | the server gets this client's token, the path of the role or the verbatim path, the CSR in PEM and the TTL if there is one; its answer becomes the certificate or one of the five errors |
| EnrolmentHandlers.ServerReadsCsr | pkg/backend/common_impl.go:231-234 | the PEM sent to the server decodes to the CSR that was checked |
| EnrolmentHandlers.Backend.Close | pkg/backend/common_impl.go:799-807 | the client's token is cleared and the client dropped; closing again does nothing |
| EnrolmentHandlers.ProcessCsrSigning | pkg/handlers/types.go:42-81 | result and sign call on every path; the clone, if made, is closed with its token cleared on every way out |
| EnrolmentHandlers.AuthenticateRequest | pkg/handlers/base_enrollment.go:32-69 | runs the cascade on the request's credentials, with exactly its backend calls, and passes iff it authenticates |
| EnrolmentHandlers.ParseAndValidateCsr | pkg/handlers/base_enrollment.go:72-122 | the CSR the body reads as, iff algorithm and signature pass; 413 for a body too large, otherwise 400 |
| EnrolmentHandlers.SendCertificateResponse | pkg/handlers/base_enrollment.go:165-184 | the body is the base64 of the certificates-only structure |
| EnrolmentHandlers.Respond | pkg/handlers/simpleenroll.go:84-113 | status, body and sign calls after the gates; 200 iff the sign call was made and succeeded |
| EnrolmentHandlers.SimpleEnroll | pkg/handlers/simpleenroll.go:58-113 | only a POST is authenticated; then exactly the reply and sign calls of the script for the granted token and the CSR in the body |
| EnrolmentHandlers.ValidateRenewal | pkg/handlers/simplereenroll.go:93-138 | passes iff the key is the certificate's and the names are, unless the CSR asks to change them |
| EnrolmentHandlers.SimpleReenroll | pkg/handlers/simplereenroll.go:60-168 | the same with the key and name checks when there is a TLS certificate |
| EnrolmentHandlers.SignCallsOfScript | pkg/handlers/types.go:62-71 | a script makes one sign call, for the gate's token and CSR, iff it gets a clone and the policy is known |
| EnrolmentHandlers.ClientReadsCertificate | pkg/handlers/base_enrollment.go:165-184 | decoding a 200 body gives exactly the signed certificate |
| EnrolmentHandlers.EverySignCallIsEarned | pkg/handlers/types.go:42-81 | in every interleaving, each sign call carries a token the backend granted for that request's own credentials, goes to the path of the policy with its TTL, and is for the CSR its own body reads as, which passed all checks, each spelled out |
| AuthManager.AuthenticateToken | pkg/auth/manager.go:115-160 | looks up exactly the non-empty bearer token; the identity is the display name, else the entity, else unknown |
| AuthManager.AuthenticateCertificate | pkg/auth/manager.go:163-198 | one call iff there is a client certificate |
| AuthManager.ScrubCredentials | pkg/auth/manager.go:339-351 | zeroes every byte of the buffer and empties every part |
| AuthManager.Attempt | pkg/auth/manager.go:251-307 | one more backend call after refused ones extends the search by exactly that call |
| AuthManager.AttemptCredentials | pkg/auth/manager.go:249-335 | userpass, LDAP, AppRole until one is accepted, and the buffer scrubbed on every way out |
| AuthManager.SplitCredentials | pkg/auth/manager.go:224 | one part without a colon, else what is before and after the first one |
| AuthManager.AuthenticateBasic | pkg/auth/manager.go:201-335 | the calls are exactly the attempts up to the first success; a decoded buffer is all zero on every return; the parts are emptied except when there is no colon |
| AuthManager.Authenticate | pkg/auth/manager.go:86-112 | the first enabled, present and accepted method wins, with exactly that call trace; failure carries an error |
| AuthManager.FirstAcceptedIsUnique | pkg/auth/manager.go:86-112 | the specification leaves no choice |
| AuthManager.TriedOn | pkg/auth/manager.go:86-112 | refused attempts followed by others are one search over both |
| AuthManager.TriedDone | pkg/auth/manager.go:86-112 | after a success later methods are not tried |
| AuthManager.BasicRecovered | pkg/auth/manager.go:212-235 | a user name without a colon and any password are recovered exactly |
| AuthManager.BasicInFull | pkg/auth/manager.go:201-335 | for a header of user, colon and password: every call has this user and password; userpass first, LDAP iff enabled and userpass off or refused, AppRole likewise after both; token, method name and identity of the winner |
| AuthManager.AuthenticateInFull | pkg/auth/manager.go:86-112 | an accepted bearer token ends the search with itself and its identity, then an accepted certificate with its common name; Basic credentials are tried only after both |
| Identity.EntityNameInjective | pkg/backend/entity_constants.go:42-44 | for one prefix the entity name determines common name and fingerprint prefix |
| Identity.EntityAliasInjective | pkg/backend/entity_constants.go:54-56 | the alias determines fingerprint and common name |
| Identity.IdentityBackend.CreateOrUpdateEntity | pkg/backend/common_impl.go:597-647 | the id of the named entity whichever shape the store answers with, or the error |
| Identity.IdentityBackend.FindTokenAccessor | pkg/backend/common_impl.go:509-515 | the loop finds the accessor of the token mount in any map order |
| Identity.IdentityBackend.AuthenticateCert | pkg/backend/common_impl.go:454-552 | new store and result of a login on every path, a failed alias included |
| Identity.LoginInFull | pkg/backend/common_impl.go:454-552 | entity name and alias as text, the entity the alias and the token are bound to, the accessor of the "token/" mount, and what each failure leaves |
| Identity.LoginErrors | pkg/backend/common_impl.go:454-552 | which failure gives which error |
| Identity.LoginBinds | pkg/backend/common_impl.go:454-552 | one login keeps ids unique, changes nothing handed out, and binds its token to its own entity |
| Identity.RunBinds | pkg/backend/common_impl.go:454-552 | the same over any run; every token is handed out once |
| Identity.SharedEntityIff | pkg/backend/common_impl.go:454-552 | two logins of a run share an entity iff effective common name and first 16 fingerprint characters agree |
| Identity.RepeatedLoginAddsNothing | pkg/backend/common_impl.go:597-647 | logging in again adds no entity, whatever came in between |
| Identity.AliasLeadsToEntity | pkg/backend/common_impl.go:454-532 | after any run, the alias of a fingerprint and common name is bound to the entity of that certificate |
| Transit.TransitBackend.Do | pkg/backend/common_impl.go:835-875 | one call on the key store |
| Transit.TransitBackend.Cleanup | pkg/backend/common_impl.go:845-871 | allows deletion, then deletes |
| Transit.TransitBackend.GenerateExportableKey | pkg/backend/common_impl.go:813-912 | Ok with exactly the exported key, or the error of the step that failed; the four calls of a run that created its key; the key left, deletable or not, exactly when its cleanup failed |
| Transit.StepInv | pkg/backend/common_impl.go:813-912 | every call of every run keeps each created key what its own run's calls make of it |
| Transit.KeysConserved | pkg/backend/common_impl.go:813-912 | in every interleaving in which the creating runs have names of their own, no run touches another's key, every created key is made deletable and deleted, and the leftovers are exactly those whose cleanup failed |
| Transit.SharedNameLosesKeyIff | pkg/backend/common_impl.go:813-912 | for all runs and answers, some interleaving deletes a created key before its export iff, among the other runs creating that name, one can make it deletable and one, perhaps the same, can delete it |
| Transit.SharedNameLosesKey | pkg/backend/common_impl.go:816-817 | when two runs get one name and meet no failure, either can lose its key |

## Left out

- TokenBucket: floating-point rounding, wall-clock jumps, a rate of zero and an infinite rate of x/time/rate.
- RateLimiters.RateLimiter.Spend: the clock is read once per call; the source reads it before the bucket's own lock is taken.
- getClientIP, trusted proxies and CIDR parsing (pkg/server/ratelimit.go:133-176): the address is a given key.
- X.509 parsing: a certificate is its DER bytes; whether bytes parse as a CSR or certificate, what is in a CSR, and what is said of bytes that do not parse are given functions.
- CsrReader.ReadAll: a read that returns its last bytes together with an error; data and the break come one after the other.
- RSA, AES and SHA internals and randomness: given functions whose inverses are hypotheses, and given random bytes.
- The rendering of IP addresses and URIs, and trimming and upper-casing of algorithm names, are given functions.
- BackendErrors: lower-casing is that of ASCII letters; the details text of a reply (pkg/handlers/errors.go:113-134) is not modelled.
- BackendErrors.WrappingKeepsStatus: covers the four wraps of errors of the server; texts made by the service itself, such as that of a certificate that cannot be parsed, are classified as they are.
- CsrAttrs.CsrAttrsHandler.ServeHttp: the texts of error replies.
- EnrolmentHandlers: logging, telemetry, audit records, response headers and failures to write the response.
- Label extraction and per-label policies, key generation and key allow-lists, and the ServeHTTP sequence of server key generation, which repeats the gates of enrolment.
- AuthManager.Authenticate: error texts other than their presence, and the WWW-Authenticate headers.
- Identity: metadata, policies, time to live of tokens, and path escaping of entity names.
- Transit: how a key name is made from the clock (names are given, and distinct where a theorem needs it), and a create call that reports an error although it took effect.
- BuildCAChain and ExtractCSRFromPKCS7 (not used by the handlers), health checks, token renewal and the OpenBao HTTP client.
- Configuration, TLS set-up, server start and shutdown.
