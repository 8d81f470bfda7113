/** encoding/pem: section 2 of RFC 7468 as the Go library writes and reads it. */
module Pem {
  import opened Bytes
  import opened Search
  import opened Wrappers
  import Base64

  const DASHES: bytes := Ascii("-----")
  const BEGIN: bytes := Ascii("-----BEGIN ")
  const END: bytes := Ascii("-----END ")
  const COLON: byte := 58
  const DASH: byte := 45
  const SPACE: byte := 32
  const TAB: byte := 9
  const LINE: nat := 64

  // ---- Writing ----

  /** Base64 text in lines of 64. */
  function Lines(t: bytes): bytes
    decreases |t|
  {
    if t == [] then [] else if |t| <= LINE then t + [LF] else t[..LINE] + [LF] + Lines(t[LINE..])
  }

  /** header is one "Key: value" line, or empty when the block has none. */
  function Encode(kind: bytes, header: bytes, d: bytes): bytes {
    BEGIN + (kind + DASHES + [LF] + Section(header, Lines(Base64.Encode(d)) + (END + Closing(kind))))
  }

  function Section(header: bytes, rest: bytes): bytes {
    if header == [] then rest else header + [LF] + ([LF] + rest)
  }

  function Closing(kind: bytes): bytes {
    kind + DASHES + [LF]
  }

  // ---- Reading ----

  function TrimRight(d: bytes): (r: bytes)
    ensures |r| <= |d|
    decreases |d|
  {
    if d != [] && (d[|d| - 1] == SPACE || d[|d| - 1] == TAB) then TrimRight(d[..|d| - 1]) else d
  }

  /** The first line without its end, and what follows it. */
  function GetLine(d: bytes): (r: (bytes, bytes))
    ensures |r.1| <= |d| && (d != [] ==> |r.1| < |d|)
  {
    match Find(d, [LF])
    case None => (TrimRight(d), [])
    case Some(i) => (TrimRight(d[..if i > 0 && d[i - 1] == CR then i - 1 else i]), d[i + 1..])
  }

  /** Skips "key: value" lines; None when the text ends with them. */
  function SkipHeaders(rest: bytes): (r: Option<(bytes, bool)>)
    ensures r.Some? ==> |r.value.0| <= |rest|
    decreases |rest|
  {
    if rest == [] then None
    else
      var (line, next) := GetLine(rest);
      if COLON !in line then Some((rest, false))
      else
        var r := SkipHeaders(next);
        if r.None? then None else Some((r.value.0, true))
  }

  predicate EndsWith(d: bytes, suffix: bytes) {
    |suffix| <= |d| && d[|d| - |suffix|..] == suffix
  }

  /** Where the body of a block ends and where the type in its END line begins. */
  function BlockEnd(rest: bytes, headers: bool): (r: Option<(nat, nat)>)
    ensures r.Some? ==> r.value.0 <= r.value.1 <= |rest|
  {
    if !headers && END <= rest then Some((0, |END|))
    else
      match Find(rest, [LF] + END)
      case None => None
      case Some(i) => Some((i, i + 1 + |END|))
  }

  /** The body and END line of a block of this kind, if they are well formed. */
  function ReadBlock(rest: bytes, kind: bytes, headers: bool): Option<bytes> {
    match BlockEnd(rest, headers)
    case None => None
    case Some((bodyEnd, trailerStart)) =>
      var trailer := rest[trailerStart..];
      var n := |kind| + |DASHES|;
      if |trailer| < n || !(kind <= trailer[..n]) || !EndsWith(trailer[..n], DASHES) then None
      else if GetLine(trailer[n..]).0 != [] then None
      else Base64.Decode(Without(rest[..bodyEnd], {SPACE, TAB}))
  }

  /** Where the type in the first BEGIN line begins. */
  function BlockStart(rest: bytes): (r: Option<nat>)
    ensures r.Some? ==> 0 < r.value <= |rest|
  {
    if BEGIN <= rest then Some(|BEGIN|)
    else
      match Find(rest, [LF] + BEGIN)
      case None => None
      case Some(i) => Some(i + 1 + |BEGIN|)
  }

  /** What comes of the first BEGIN line: a block, a place to go on searching, or nothing. */
  datatype Attempt = Found(block: bytes) | Onward(rest: bytes) | Nothing

  /** What follows a BEGIN line of this kind. */
  function TryBody(after: bytes, kind: bytes): (r: Attempt)
    ensures r.Onward? ==> |r.rest| <= |after|
    ensures r.Found? ==> |r.block| <= |after|
  {
    match SkipHeaders(after)
    case None => Nothing
    case Some((body, headers)) =>
      match ReadBlock(body, kind, headers)
      case None => Onward(body)
      case Some(block) =>
        BlockShrinks(body, kind, headers);
        Found(block)
  }

  function TryBlock(rest: bytes): (r: Attempt)
    ensures r.Onward? ==> |r.rest| < |rest|
    ensures r.Found? ==> |r.block| <= |rest|
  {
    match BlockStart(rest)
    case None => Nothing
    case Some(start) =>
      var (typeLine, after) := GetLine(rest[start..]);
      if EndsWith(typeLine, DASHES) then TryBody(after, typeLine[..|typeLine| - |DASHES|]) else Onward(after)
  }

  /** pem.Decode: the bytes of the first well-formed block. */
  function Decode(rest: bytes): Option<bytes>
    decreases |rest|
  {
    match TryBlock(rest)
    case Found(block) => Some(block)
    case Onward(more) => Decode(more)
    case Nothing => None
  }

  /** Text without armour holds no block. */
  lemma {:induction false} NoArmour(d: bytes)
    requires !Contains(d, BEGIN)
    ensures Decode(d) == None
  {
    assert BEGIN <= d ==> OccursAt(d, BEGIN, 0);
    forall i
      ensures !OccursAt(d, [LF] + BEGIN, i)
    {
      if OccursAt(d, [LF] + BEGIN, i) {
        assert d[i + 1..i + 1 + |BEGIN|] == d[i..i + |[LF] + BEGIN|][1..];
        assert OccursAt(d, BEGIN, i + 1);
      }
    }
  }

  lemma {:induction false} BlockShrinks(rest: bytes, kind: bytes, headers: bool)
    requires ReadBlock(rest, kind, headers).Some?
    ensures |ReadBlock(rest, kind, headers).value| <= |rest|
  {
    var bodyEnd := BlockEnd(rest, headers).value.0;
    WithoutShrinks(rest[..bodyEnd], {SPACE, TAB});
    Base64.DecodeShrinks(Without(rest[..bodyEnd], {SPACE, TAB}));
  }

  /** The bytes of a block are no more than the text it was found in. */
  lemma {:induction false} DecodeShrinks(rest: bytes)
    requires Decode(rest).Some?
    ensures |Decode(rest).value| <= |rest|
    decreases |rest|
  {
    match TryBlock(rest)
    case Found(block) =>
    case Onward(more) => DecodeShrinks(more);
    case Nothing =>
  }

  /** Armour text begins with a dash, which is not base64 text. */
  lemma {:induction false} ArmourIsNotBase64(kind: bytes, header: bytes, d: bytes)
    ensures Base64.Decode(Encode(kind, header, d)) == None
  {
    assert Encode(kind, header, d)[0] == BEGIN[0] == DASH;
    Base64.ForeignByteFails(Encode(kind, header, d), DASH);
  }

  // ---- Reading what was written ----

  predicate IsLine(line: bytes) {
    LF !in line && CR !in line && (line != [] ==> line[|line| - 1] != SPACE && line[|line| - 1] != TAB)
  }

  lemma {:induction false} GetLineBack(line: bytes, rest: bytes)
    requires IsLine(line)
    ensures GetLine(line + [LF] + rest) == (line, rest)
  {
    var d := line + [LF] + rest;
    assert d[|line|..|line| + 1] == [LF];
    assert OccursAt(d, [LF], |line|);
    var r := Find(d, [LF]);
    assert d[r.value..r.value + 1] == [LF];
    assert d[r.value] == LF;
    assert r.value == |line|;
    assert d[..|line|] == line && d[|line| + 1..] == rest;
  }

  lemma {:induction false} LinesText(t: bytes)
    ensures forall c | c in Lines(t) :: c in t || c == LF
    ensures t != [] ==> Lines(t) != [] && Lines(t)[|Lines(t)| - 1] == LF
    decreases |t|
  {
    if |t| > LINE {
      LinesText(t[LINE..]);
    }
  }

  lemma {:induction false} LineWithout(line: bytes, rest: bytes)
    ensures Without(line + [LF] + rest, {CR, LF}) == Without(line, {CR, LF}) + Without(rest, {CR, LF})
  {
    WithoutConcat(line + [LF], rest, {CR, LF});
    WithoutConcat(line, [LF], {CR, LF});
    assert Without([LF], {CR, LF}) == [];
  }

  /** Breaking text into lines adds nothing but line ends. */
  lemma {:induction false} LinesWithout(t: bytes)
    ensures Without(Lines(t), {CR, LF}) == Without(t, {CR, LF})
    decreases |t|
  {
    if t == [] {
    } else if |t| <= LINE {
      assert Lines(t) == t + [LF] + [];
      LineWithout(t, []);
    } else {
      var line, rest := t[..LINE], t[LINE..];
      assert t == line + rest;
      LinesWithout(rest);
      LineWithout(line, Lines(rest));
      WithoutConcat(line, rest, {CR, LF});
    }
  }

  /** The END line is the first place after a body without dashes where "\n-----END " occurs. */
  lemma {:induction false} EndFound(body: bytes, tail: bytes)
    requires body != [] && body[|body| - 1] == LF && DASH !in body
    ensures Find(body + (END + tail), [LF] + END) == Some(|body| - 1)
  {
    var d, pat := body + (END + tail), [LF] + END;
    assert d[|body| - 1..|body| - 1 + |pat|] == pat;
    assert OccursAt(d, pat, |body| - 1);
    var r := Find(d, pat);
    assert d[r.value..r.value + |pat|][1] == pat[1] == DASH;
    assert d[r.value + 1] == DASH;
  }

  lemma {:induction false} TrailerBack(kind: bytes, n: nat)
    requires n == |kind| + |DASHES|
    ensures var t := Closing(kind);
            |t| >= n && kind <= t[..n] && EndsWith(t[..n], DASHES) && GetLine(t[n..]).0 == []
  {
    var t := Closing(kind);
    assert t[..n] == kind + DASHES;
    assert t[n..] == [] + [LF] + [];
    GetLineBack([], []);
  }

  /** The body of a block: lines of base64 text, perhaps after an empty line. */
  predicate IsBody(body: bytes, d: bytes) {
    && body != [] && body[|body| - 1] == LF
    && (forall c | c in body :: Base64.IsText(c) || c == LF)
    && Without(body, {CR, LF}) == Base64.Encode(d)
  }

  lemma {:induction false} BodyText(body: bytes, d: bytes)
    requires IsBody(body, d)
    ensures Base64.Decode(Without(body[..|body| - 1], {SPACE, TAB})) == Some(d)
  {
    var text := body[..|body| - 1];
    assert body == text + [LF];
    WithoutConcat(text, [LF], {CR, LF});
    assert forall c | c in text :: c in body;
    WithoutNothing(text, {SPACE, TAB});
    Base64.RoundTrip(d, text);
  }

  lemma {:induction false} BlockBack(body: bytes, kind: bytes, headers: bool, d: bytes)
    requires IsBody(body, d)
    ensures ReadBlock(body + (END + Closing(kind)), kind, headers) == Some(d)
  {
    var rest := body + (END + Closing(kind));
    assert !(END <= rest) by {
      assert rest[0] == body[0] && body[0] in body && END[0] == DASH;
    }
    EndFound(body, Closing(kind));
    assert rest[|body| + |END|..] == Closing(kind);
    TrailerBack(kind, |kind| + |DASHES|);
    assert rest[..|body| - 1] == body[..|body| - 1];
    BodyText(body, d);
  }

  lemma {:induction false} TrimmedIsPrefix(d: bytes)
    ensures TrimRight(d) <= d
    decreases |d|
  {
    if TrimRight(d) != d {
      TrimmedIsPrefix(d[..|d| - 1]);
    }
  }

  lemma {:induction false} FirstLineOfBody(body: bytes, tail: bytes)
    requires body != [] && body[|body| - 1] == LF && COLON !in body
    ensures COLON !in GetLine(body + tail).0
  {
    var d := body + tail;
    assert d[|body| - 1..|body|] == [LF];
    assert OccursAt(d, [LF], |body| - 1);
    var i := Find(d, [LF]).value;
    assert d[..i] == body[..i];
    var line := d[..if i > 0 && d[i - 1] == CR then i - 1 else i];
    TrimmedIsPrefix(line);
    assert forall c | c in TrimRight(line) :: c in body;
  }

  predicate IsHeader(header: bytes) {
    IsLine(header) && (header == [] || COLON in header)
  }

  lemma {:induction false} SkipNothing(body: bytes, tail: bytes, d: bytes)
    requires IsBody(body, d)
    ensures SkipHeaders(body + tail) == Some((body + tail, false))
  {
    FirstLineOfBody(body, tail);
  }

  lemma {:induction false} SkipOneHeader(header: bytes, rest: bytes)
    requires IsLine(header) && COLON in header
    ensures SkipHeaders(header + [LF] + ([LF] + rest)) == Some(([LF] + rest, true))
  {
    GetLineBack(header, [LF] + rest);
    assert [LF] + rest == [] + [LF] + rest;
    GetLineBack([], rest);
  }

  lemma {:induction false} EmptyLineBefore(body: bytes, d: bytes)
    requires IsBody(body, d)
    ensures IsBody([LF] + body, d)
  {
    WithoutConcat([LF], body, {CR, LF});
    assert Without([LF], {CR, LF}) == [];
  }

  /** A BEGIN line leads to the block behind it. */
  lemma {:induction false} FirstBlock(kind: bytes, after: bytes, rest: bytes, headers: bool, d: bytes)
    requires LF !in kind && CR !in kind
    requires SkipHeaders(after) == Some((rest, headers)) && ReadBlock(rest, kind, headers) == Some(d)
    ensures TryBlock(BEGIN + (kind + DASHES + [LF] + after)) == Found(d)
  {
    var line := kind + DASHES;
    var text := BEGIN + (line + [LF] + after);
    assert BEGIN <= text && text[|BEGIN|..] == line + [LF] + after;
    GetLineBack(line, after);
    assert EndsWith(line, DASHES) && line[..|kind|] == kind;
  }

  lemma {:induction false} BlockBackAfterHeader(body: bytes, kind: bytes, d: bytes)
    requires IsBody(body, d)
    ensures ReadBlock([LF] + (body + (END + Closing(kind))), kind, true) == Some(d)
  {
    var tail := END + Closing(kind);
    assert ([LF] + body) + tail == [LF] + (body + tail);
    EmptyLineBefore(body, d);
    BlockBack([LF] + body, kind, true, d);
  }

  lemma {:induction false} EncodedBody(d: bytes)
    requires d != []
    ensures IsBody(Lines(Base64.Encode(d)), d)
  {
    LinesText(Base64.Encode(d));
    LinesWithout(Base64.Encode(d));
    Base64.PlainText(d);
  }

  /** Decoding undoes encoding, for every block with at most one header line and a body that is not empty. */
  lemma {:induction false} RoundTrip(kind: bytes, header: bytes, d: bytes)
    requires LF !in kind && CR !in kind && IsHeader(header) && d != []
    ensures Decode(Encode(kind, header, d)) == Some(d)
  {
    var body, tail := Lines(Base64.Encode(d)), END + Closing(kind);
    EncodedBody(d);
    if header == [] {
      SkipNothing(body, tail, d);
      BlockBack(body, kind, false, d);
      FirstBlock(kind, body + tail, body + tail, false, d);
    } else {
      SkipOneHeader(header, body + tail);
      BlockBackAfterHeader(body, kind, d);
      FirstBlock(kind, Section(header, body + tail), [LF] + (body + tail), true, d);
    }
  }

  // ---- The text of a block: section 2 of RFC 7468 ----

  lemma {:induction false} LinesAre(t: bytes)
    ensures t == [] ==> Lines(t) == []
    ensures 0 < |t| <= 64 ==> Lines(t) == t + [10]
    ensures |t| > 64 ==> Lines(t) == t[..64] + [10] + Lines(t[64..])
  {
  }

  /** A BEGIN line, perhaps one header line and an empty one, base64 in lines of 64, and an END line. */
  lemma {:induction false} TextIs(kind: bytes, header: bytes, d: bytes)
    ensures var head := if header == [] then [] else header + [10, 10];
            Encode(kind, header, d) ==
              Ascii("-----BEGIN ") + kind + Ascii("-----") + [10] + head + Lines(Base64.Encode(d))
              + Ascii("-----END ") + kind + Ascii("-----") + [10]
  {
    var head := if header == [] then [] else header + [10, 10];
    var body, tail := Lines(Base64.Encode(d)), END + Closing(kind);
    assert Section(header, body + tail) == head + (body + tail);
    assert BEGIN + (kind + DASHES + [LF] + (head + (body + tail)))
        == BEGIN + kind + DASHES + [LF] + head + body + END + kind + DASHES + [LF];
  }
}
