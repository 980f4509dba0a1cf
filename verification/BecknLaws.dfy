/** What the verifier of src/gateway/beckn-auth.ts demands of every header, what the signed text
    is, and the tolerance of the parser: white space, quotes of either kind, optional scheme. */
module BecknLaws {
  import opened Common
  import opened BecknAuth

  // ----- the verifier, for every header and body -----

  /** The guards in the order of the source. */
  predicate AlgorithmOk(h: Parsed) {
    LowerAll(h.algorithm) == "ed25519"
  }

  predicate KeyAlgorithmOk(h: Parsed) {
    ParseKeyId(h.keyId).Some? && LowerAll(ParseKeyId(h.keyId).value.alg) == "ed25519"
  }

  predicate KeyKnown(h: Parsed, resolve: string -> Option<Bytes>) {
    resolve(h.keyId).Some? && |resolve(h.keyId).value| > 0
  }

  predicate SignatureReadable(p: Platform, h: Parsed) {
    p.decode(h.signature).Some? && |p.decode(h.signature).value| == 64
  }

  /** Everything up to the signature itself. */
  predicate Admissible(p: Platform, h: Parsed, resolve: string -> Option<Bytes>, now: int) {
    && AlgorithmOk(h) && KeyAlgorithmOk(h) && h.created <= now + 60 && now <= h.expires
    && KeyKnown(h, resolve) && SignatureReadable(p, h)
  }

  /** A header is accepted for a body if and only if it parses, is admissible, and its signature
      verifies under the resolved key for the text that its listed headers and the digest of
      that body give; the verdict then names the key and its parts. */
  lemma AcceptedIff(p: Platform, header: string, body: string, resolve: string -> Option<Bytes>, now: int)
    ensures var v, parsed := Verify(p, header, body, resolve, now), ParseHeader(p, header);
            && (v.Accepted? <==>
                  && parsed.Some? && Admissible(p, parsed.value, resolve, now)
                  && p.verify(p.decode(parsed.value.signature).value,
                              SigningString(p, parsed.value.headers, parsed.value.created, parsed.value.expires,
                                            p.digest(body)),
                              resolve(parsed.value.keyId).value))
            && (v.Accepted? ==>
                  && v.keyId == parsed.value.keyId
                  && ParseKeyId(v.keyId) == Some(KeyParts(v.subscriber, v.unique, ParseKeyId(v.keyId).value.alg)))
  {
  }

  /** Each refusal names the first guard that fails. */
  lemma RefusedIff(p: Platform, header: string, body: string, resolve: string -> Option<Bytes>, now: int)
    ensures Verify(p, header, body, resolve, now) == Refused(MissingAuth) <==> |header| == 0
    ensures |header| > 0 && ParseHeader(p, header).None? ==>
              Verify(p, header, body, resolve, now) == Refused(MalformedAuth)
    ensures ParseHeader(p, header).Some? ==>
              FirstFailure(p, ParseHeader(p, header).value, body, resolve, now, Verify(p, header, body, resolve, now))
  {
    if ParseHeader(p, header).Some? { ParsedRefusedIff(p, ParseHeader(p, header).value, body, resolve, now); }
  }

  /** Which refusals a parsed header gets. */
  predicate FirstFailure(p: Platform, h: Parsed, body: string, resolve: string -> Option<Bytes>, now: int, v: Verdict) {
    var early := AlgorithmOk(h) && KeyAlgorithmOk(h);
    var timely := early && h.created <= now + 60 && now <= h.expires;
    && v != Refused(MissingAuth)
    && (v == Refused(WrongAlgorithm) <==> !AlgorithmOk(h) || (ParseKeyId(h.keyId).Some? && !KeyAlgorithmOk(h)))
    && (v == Refused(ExpiredAuth) <==> early && !timely)
    && (v == Refused(UnknownKey) <==> timely && !KeyKnown(h, resolve))
    && (v == Refused(MalformedAuth) <==>
          || (AlgorithmOk(h) && ParseKeyId(h.keyId).None?)
          || (timely && KeyKnown(h, resolve) && !SignatureReadable(p, h)))
    && (v == Refused(BadSignature) <==>
          && Admissible(p, h, resolve, now)
          && !p.verify(p.decode(h.signature).value, MessageOf(p, h, body), resolve(h.keyId).value))
  }

  lemma ParsedRefusedIff(p: Platform, h: Parsed, body: string, resolve: string -> Option<Bytes>, now: int)
    ensures FirstFailure(p, h, body, resolve, now, VerifyParsed(p, h, body, resolve, now))
  {
  }

  // ----- key identifiers -----

  function JoinBar(parts: seq<string>): string {
    if |parts| == 0 then "" else if |parts| == 1 then parts[0] else parts[0] + ("|" + JoinBar(parts[1..]))
  }

  lemma {:induction false} SplitBarIs(s: string, part: string)
    requires '|' !in part
    ensures |SplitBar(s, part)| > 0 && JoinBar(SplitBar(s, part)) == part + s
    ensures forall i :: 0 <= i < |SplitBar(s, part)| ==> '|' !in SplitBar(s, part)[i]
    decreases |s|
  {
    if |s| == 0 {
      assert part + s == part;
    } else if s[0] == '|' {
      SplitBarIs(s[1..], "");
      assert s == "|" + s[1..] && "" + s[1..] == s[1..];
    } else {
      SplitBarIs(s[1..], part + [s[0]]);
      assert part + [s[0]] + s[1..] == part + s;
    }
  }

  lemma JoinThree(parts: seq<string>)
    requires |parts| == 3
    ensures JoinBar(parts) == parts[0] + ("|" + (parts[1] + ("|" + parts[2])))
  {
    var rest := parts[1..];
    assert rest[1..] == [parts[2]];
    assert JoinBar(rest) == rest[0] + ("|" + JoinBar(rest[1..]));
  }

  /** A key identifier has parts a, b and c exactly if it is these, nonempty and without bars,
      joined by bars. */
  lemma KeyIdIff(keyId: string, a: string, b: string, c: string)
    ensures ParseKeyId(keyId) == Some(KeyParts(a, b, c)) <==>
              && keyId == a + ("|" + (b + ("|" + c))) && |a| > 0 && |b| > 0 && |c| > 0
              && '|' !in a && '|' !in b && '|' !in c
  {
    SplitBarIs(keyId, "");
    var parts := SplitBar(keyId, "");
    assert "" + keyId == keyId;
    if |parts| == 3 { JoinThree(parts); }
    if keyId == a + ("|" + (b + ("|" + c))) && |a| > 0 && |b| > 0 && |c| > 0 && '|' !in a && '|' !in b && '|' !in c {
      KeyIdRoundTrip(a, b, c);
    }
  }

  // ----- the signed text -----

  function JoinLines(lines: seq<string>): string {
    if |lines| == 0 then "" else if |lines| == 1 then lines[0] else lines[0] + "\n" + JoinLines(lines[1..])
  }

  /** The line of a listed header. */
  ghost predicate IsLine(p: Platform, h: string, created: int, expires: int, digest: string, line: string) {
    && (h == "(created)" ==> line == "(created): " + p.show(created))
    && (h == "(expires)" ==> line == "(expires): " + p.show(expires))
    && (LowerAll(h) == "digest" ==> line == "digest: BLAKE-512=" + digest)
    && (h != "(created)" && h != "(expires)" && LowerAll(h) != "digest" ==> line == h + ":")
  }

  ghost predicate AreLines(p: Platform, headers: seq<string>, created: int, expires: int, digest: string,
                           lines: seq<string>) {
    |lines| == |headers| && forall i :: 0 <= i < |headers| ==> IsLine(p, headers[i], created, expires, digest, lines[i])
  }

  lemma LineIs(p: Platform, h: string, created: int, expires: int, digest: string)
    ensures IsLine(p, h, created, expires, digest, Line(p, h, created, expires, digest))
  {
    LineOfDigest(p, h, created, expires, digest, digest);
  }

  lemma {:induction false} JoinNext(lines: seq<string>, line: string)
    ensures JoinLines(lines + [line]) == if |lines| == 0 then line else JoinLines(lines) + "\n" + line
  {
    if |lines| == 0 {
      assert lines + [line] == [line];
    } else {
      JoinNext(lines[1..], line);
      assert (lines + [line])[1..] == lines[1..] + [line];
      if |lines| > 1 {
        RegroupLines(lines[0], JoinLines(lines[1..]), line);
      }
    }
  }

  lemma RegroupLines(a: string, b: string, c: string)
    ensures a + "\n" + (b + "\n" + c) == (a + "\n" + b) + "\n" + c
  {
  }

  /** One line for each listed header, in their order. */
  method BuildSigningString(p: Platform, headers: seq<string>, created: int, expires: int, digest: string)
    returns (text: string, ghost lines: seq<string>)
    ensures text == SigningString(p, headers, created, expires, digest)
    ensures AreLines(p, headers, created, expires, digest, lines) && text == JoinLines(lines)
  {
    lines := [];
    var out: seq<string> := [];
    for i := 0 to |headers|
      invariant out == lines && AreLines(p, headers[..i], created, expires, digest, lines)
    {
      var line := Line(p, headers[i], created, expires, digest);
      LineIs(p, headers[i], created, expires, digest);
      assert headers[..i + 1] == headers[..i] + [headers[i]];
      out, lines := out + [line], lines + [line];
    }
    assert headers[..|headers|] == headers;
    LinesOfText(p, headers, created, expires, digest, lines);
    text := JoinLines(out);
  }

  lemma SameLine(p: Platform, h: string, created: int, expires: int, digest: string, line: string)
    requires IsLine(p, h, created, expires, digest, line)
    ensures line == Line(p, h, created, expires, digest)
  {
    LineIs(p, h, created, expires, digest);
    assert "(created)" != "(expires)";
  }

  /** The signed text is the only text with these lines. */
  lemma {:induction false} LinesOfText(p: Platform, headers: seq<string>, created: int, expires: int, digest: string,
                                       lines: seq<string>)
    requires AreLines(p, headers, created, expires, digest, lines)
    ensures SigningString(p, headers, created, expires, digest) == JoinLines(lines)
    decreases |headers|
  {
    if |headers| > 0 {
      SameLine(p, headers[0], created, expires, digest, lines[0]);
      LinesOfText(p, headers[1..], created, expires, digest, lines[1..]);
    }
  }

  lemma LinesCons(a: string, rest: seq<string>)
    requires |rest| > 0
    ensures JoinLines([a] + rest) == a + "\n" + JoinLines(rest)
  {
    assert ([a] + rest)[1..] == rest;
  }

  lemma JoinThreeLines(a: string, b: string, c: string)
    ensures JoinLines([a, b, c]) == a + "\n" + (b + "\n" + c)
  {
    LinesCons(b, [c]);
    LinesCons(a, [b, c]);
    assert [a] + [b, c] == [a, b, c] && [b] + [c] == [b, c];
  }

  /** The text of the mandatory headers. */
  lemma DefaultText(p: Platform, created: int, expires: int, digest: string)
    ensures SigningString(p, ["(created)", "(expires)", "digest"], created, expires, digest)
         == "(created): " + p.show(created) + "\n"
            + ("(expires): " + p.show(expires) + "\n" + ("digest: BLAKE-512=" + digest))
  {
    var a, b, c := "(created): " + p.show(created), "(expires): " + p.show(expires), "digest: BLAKE-512=" + digest;
    MandatoryLines(p, created, expires, digest);
    ThreeLinesOfText(p, "(created)", "(expires)", "digest", created, expires, digest, a, b, c);
  }

  lemma ThreeLinesOfText(p: Platform, h1: string, h2: string, h3: string, created: int, expires: int, digest: string,
                         a: string, b: string, c: string)
    requires IsLine(p, h1, created, expires, digest, a) && IsLine(p, h2, created, expires, digest, b)
    requires IsLine(p, h3, created, expires, digest, c)
    ensures SigningString(p, [h1, h2, h3], created, expires, digest) == a + "\n" + (b + "\n" + c)
  {
    LinesOfText(p, [h1, h2, h3], created, expires, digest, [a, b, c]);
    JoinThreeLines(a, b, c);
  }

  lemma MandatoryLines(p: Platform, created: int, expires: int, digest: string)
    ensures IsLine(p, "(created)", created, expires, digest, "(created): " + p.show(created))
    ensures IsLine(p, "(expires)", created, expires, digest, "(expires): " + p.show(expires))
    ensures IsLine(p, "digest", created, expires, digest, "digest: BLAKE-512=" + digest)
  {
    DigestName();
    PseudoHeaders("(created)");
    PseudoHeaders("(expires)");
    assert "(created)"[1] != "(expires)"[1];
  }

  lemma DigestName()
    ensures LowerAll("digest") == "digest" && "digest" != "(created)" && "digest" != "(expires)"
  {
    var s := LowerAll("digest");
    assert forall i :: 0 <= i < 6 ==> s[i] == "digest"[i];
    assert "digest"[0] != "(created)"[0] && "digest"[0] != "(expires)"[0];
  }

  // ----- the printed header -----

  function Commas(parts: seq<string>): string {
    if |parts| == 0 then "" else if |parts| == 1 then parts[0] else parts[0] + ("," + Commas(parts[1..]))
  }

  lemma SixCommas(a: string, b: string, c: string, d: string, e: string, f: string)
    ensures Commas([a, b, c, d, e, f]) == a + ("," + (b + ("," + (c + ("," + (d + ("," + (e + ("," + f)))))))))
  {
    CommasCons(e, [f]);
    CommasCons(d, [e, f]);
    CommasCons(c, [d, e, f]);
    CommasCons(b, [c, d, e, f]);
    CommasCons(a, [b, c, d, e, f]);
    assert [a] + [b, c, d, e, f] == [a, b, c, d, e, f] && [b] + [c, d, e, f] == [b, c, d, e, f];
    assert [c] + [d, e, f] == [c, d, e, f] && [d] + [e, f] == [d, e, f] && [e] + [f] == [e, f];
  }

  lemma CommasCons(a: string, rest: seq<string>)
    requires |rest| > 0
    ensures Commas([a] + rest) == a + ("," + Commas(rest))
  {
    assert ([a] + rest)[1..] == rest;
  }

  lemma QuotedText(name: string, value: string)
    ensures Quoted(name, value) == name + "=\"" + value + "\""
  {
  }

  /** The printed header: the scheme and six fields, in this order and these quotes. */
  lemma PrintedText(p: Platform, keyId: string, created: int, expires: int, sig: string)
    ensures PrintHeader(p, keyId, created, expires, sig)
         == "Signature "
            + Commas(["keyId" + "=\"" + keyId + "\"", "algorithm" + "=\"" + "ed25519" + "\"",
                      "created" + "=" + p.show(created), "expires" + "=" + p.show(expires),
                      "headers" + "=\"" + "(created) (expires) digest" + "\"", "signature" + "=\"" + sig + "\""])
  {
    QuotedText("keyId", keyId);
    QuotedText("algorithm", "ed25519");
    QuotedText("headers", HEADER_LIST);
    QuotedText("signature", sig);
    assert HEADER_LIST == "(created) (expires) digest";
    BareText("created", p.show(created));
    BareText("expires", p.show(expires));
    SixCommas(Quoted("keyId", keyId), Quoted("algorithm", "ed25519"), Bare("created", p.show(created)),
              Bare("expires", p.show(expires)), Quoted("headers", HEADER_LIST), Quoted("signature", sig));
  }

  lemma BareText(name: string, value: string)
    ensures Bare(name, value) == name + "=" + value
  {
  }

  // ----- what the parser tolerates -----

  /** A field as some sender may write it: white space around the name and around the value,
      which stands bare or in quotes of either kind. */
  datatype Style = Style(name: string, value: string, quote: Option<char>,
                         before: string, beforeEq: string, afterEq: string, after: string)

  predicate Spaces(s: string) {
    forall i :: 0 <= i < |s| ==> IsSpace(s[i])
  }

  predicate ValidStyle(f: Style) {
    && Name(f.name) && Spaces(f.before) && Spaces(f.beforeEq) && Spaces(f.afterEq) && Spaces(f.after)
    && match f.quote
       case None => |f.value| > 0 && PlainText(f.value)
       case Some(q) => (q == '"' || q == '\'') && q !in f.value
  }

  function Written(f: Style): string {
    if f.quote.None? then f.value else [f.quote.value] + (f.value + [f.quote.value])
  }

  function Left(f: Style): string {
    f.before + (f.name + f.beforeEq)
  }

  function Rendered(f: Style): string {
    Left(f) + ("=" + (f.afterEq + (Written(f) + f.after)))
  }

  lemma SpacesPlain(s: string)
    requires Spaces(s)
    ensures forall i :: 0 <= i < |s| ==> s[i] != '"' && s[i] != '\'' && s[i] != ',' && s[i] != '='
  {
  }

  lemma {:induction false} SplitInQuotes(q: char, x: string, rest: string, buf: string)
    requires q !in x
    ensures Split(x + ([q] + rest), buf, Some(q)) == Split(rest, buf + (x + [q]), None)
    decreases |x|
  {
    if |x| == 0 {
      assert x + ([q] + rest) == [q] + rest && ([q] + rest)[1..] == rest && x + [q] == [q];
    } else {
      SplitInQuotes(q, x[1..], rest, buf + [x[0]]);
      assert (x + ([q] + rest))[1..] == x[1..] + ([q] + rest);
      assert buf + [x[0]] + (x[1..] + [q]) == buf + (x + [q]);
    }
  }

  lemma SplitWritten(f: Style, rest: string, buf: string)
    requires ValidStyle(f)
    ensures Split(Written(f) + rest, buf, None) == Split(rest, buf + Written(f), None)
  {
    match f.quote
    case None => SplitPlain(f.value, rest, buf);
    case Some(q) =>
      var t := f.value + ([q] + rest);
      assert Written(f) + rest == [q] + t && ([q] + t)[1..] == t;
      SplitInQuotes(q, f.value, rest, buf + [q]);
      assert buf + [q] + (f.value + [q]) == buf + Written(f);
  }

  lemma LeadPlain(f: Style)
    requires ValidStyle(f)
    ensures var x := Left(f) + ("=" + f.afterEq);
            forall i :: 0 <= i < |x| ==> x[i] != '"' && x[i] != '\'' && x[i] != ','
  {
    SpacesPlain(f.before);
    SpacesPlain(f.beforeEq);
    SpacesPlain(f.afterEq);
  }

  /** A field is one part, however it is written. */
  lemma SplitStyled(f: Style, rest: string)
    requires ValidStyle(f)
    ensures Split(Rendered(f) + rest, "", None) == Split(rest, Rendered(f), None)
  {
    var lead := Left(f) + ("=" + f.afterEq);
    LeadPlain(f);
    SpacesPlain(f.after);
    RenderedParts(f, rest);
    SplitPlain(lead, Written(f) + (f.after + rest), "");
    SplitWritten(f, f.after + rest, "" + lead);
    SplitPlain(f.after, rest, "" + lead + Written(f));
  }

  lemma RenderedParts(f: Style, rest: string)
    ensures var lead := Left(f) + ("=" + f.afterEq);
            && Rendered(f) + rest == lead + (Written(f) + (f.after + rest))
            && "" + lead + Written(f) + f.after == Rendered(f)
  {
  }

  lemma {:induction false} TrimStartSpaces(a: string, x: string)
    requires Spaces(a) && |x| > 0 && !IsSpace(x[0])
    ensures TrimStart(a + x) == x
    decreases |a|
  {
    if |a| == 0 {
      assert a + x == x;
    } else {
      TrimStartSpaces(a[1..], x);
      assert (a + x)[1..] == a[1..] + x;
    }
  }

  lemma {:induction false} TrimEndSpaces(x: string, b: string)
    requires Spaces(b) && |x| > 0 && !IsSpace(x[|x| - 1])
    ensures TrimEnd(x + b) == x
    decreases |b|
  {
    if |b| == 0 {
      assert x + b == x;
    } else {
      TrimEndSpaces(x, b[..|b| - 1]);
      assert (x + b)[..|x + b| - 1] == x + b[..|b| - 1];
    }
  }

  lemma TrimSpaces(a: string, x: string, b: string)
    requires Spaces(a) && Spaces(b) && |x| > 0 && !IsSpace(x[0]) && !IsSpace(x[|x| - 1])
    ensures Trim(a + (x + b)) == x
  {
    TrimStartSpaces(a, x + b);
    TrimEndSpaces(x, b);
  }

  lemma WrittenEnds(f: Style)
    requires ValidStyle(f)
    ensures var v := Written(f); |v| > 0 && !IsSpace(v[0]) && !IsSpace(v[|v| - 1]) && StripQuotes(v) == f.value
  {
    if f.quote.Some? { assert Written(f)[1..|Written(f)| - 1] == f.value; }
  }

  /** It is read as its name and value. */
  lemma ParseStyled(f: Style)
    requires ValidStyle(f)
    ensures ParseField(Rendered(f)) == Some(Field(f.name, f.value))
  {
    var right := f.afterEq + (Written(f) + f.after);
    SpacesPlain(f.before);
    SpacesPlain(f.beforeEq);
    IndexAfter(Left(f), right);
    assert Rendered(f)[..|Left(f)|] == Left(f) && Rendered(f)[|Left(f)| + 1..] == right;
    TrimSpaces(f.before, f.name, f.beforeEq);
    WrittenEnds(f);
    TrimSpaces(f.afterEq, Written(f), f.after);
  }

  ghost function AllRendered(fs: seq<Style>): (parts: seq<string>)
    ensures |parts| == |fs| && forall i :: 0 <= i < |fs| ==> parts[i] == Rendered(fs[i])
  {
    seq(|fs|, i requires 0 <= i < |fs| => Rendered(fs[i]))
  }

  predicate AllValid(fs: seq<Style>) {
    forall i :: 0 <= i < |fs| ==> ValidStyle(fs[i])
  }

  lemma {:induction false} SplitAll(fs: seq<Style>)
    requires |fs| > 0 && AllValid(fs)
    ensures Split(Commas(AllRendered(fs)), "", None) == AllRendered(fs)
    decreases |fs|
  {
    var parts := AllRendered(fs);
    if |fs| == 1 {
      SplitStyled(fs[0], "");
      assert Rendered(fs[0]) + "" == Rendered(fs[0]) && parts == [Rendered(fs[0])];
    } else {
      assert parts[1..] == AllRendered(fs[1..]);
      SplitStyled(fs[0], "," + Commas(parts[1..]));
      SplitComma(Commas(parts[1..]), Rendered(fs[0]));
      SplitAll(fs[1..]);
      assert [Rendered(fs[0])] + parts[1..] == parts;
    }
  }

  /** The fields in order, later ones of a name replacing earlier ones. */
  function Fields(fs: seq<Style>, m: map<string, string>): map<string, string>
    decreases |fs|
  {
    if |fs| == 0 then m else Fields(fs[1..], m[fs[0].name := fs[0].value])
  }

  lemma {:induction false} CollectAllStyled(fs: seq<Style>, m: map<string, string>)
    requires AllValid(fs)
    ensures Collect(AllRendered(fs), m) == Some(Fields(fs, m))
    decreases |fs|
  {
    if |fs| > 0 {
      ParseStyled(fs[0]);
      CollectAllStyled(fs[1..], m[fs[0].name := fs[0].value]);
      assert AllRendered(fs)[1..] == AllRendered(fs[1..]);
    }
  }

  /** The last field of a name gives its value. */
  lemma {:induction false} LastWins(fs: seq<Style>, m: map<string, string>, i: nat)
    requires i < |fs| && forall j :: i < j < |fs| ==> fs[j].name != fs[i].name
    ensures fs[i].name in Fields(fs, m) && Fields(fs, m)[fs[i].name] == fs[i].value
    decreases |fs|
  {
    var m' := m[fs[0].name := fs[0].value];
    if i > 0 {
      LastWins(fs[1..], m', i - 1);
    } else {
      Untouched(fs[1..], m', fs[0].name);
    }
  }

  lemma {:induction false} Untouched(fs: seq<Style>, m: map<string, string>, name: string)
    requires forall i :: 0 <= i < |fs| ==> fs[i].name != name
    ensures name in Fields(fs, m) <==> name in m
    ensures name in m ==> Fields(fs, m)[name] == m[name]
    decreases |fs|
  {
    if |fs| > 0 {
      assert forall i :: 0 <= i < |fs| - 1 ==> fs[1..][i] == fs[i + 1];
      Untouched(fs[1..], m[fs[0].name := fs[0].value], name);
    }
  }

  lemma {:induction false} CommasEnds(fs: seq<Style>)
    requires |fs| > 0 && AllValid(fs) && fs[0].before == "" && fs[|fs| - 1].after == ""
    ensures var s := Commas(AllRendered(fs)); |s| > 0 && !IsSpace(s[0]) && !IsSpace(s[|s| - 1])
  {
    var parts := AllRendered(fs);
    WrittenEnds(fs[|fs| - 1]);
    CommasFirst(parts);
    CommasLast(parts);
    assert parts[0][0] == fs[0].name[0];
    var last := Rendered(fs[|fs| - 1]);
    assert last[|last| - 1] == Written(fs[|fs| - 1])[|Written(fs[|fs| - 1])| - 1];
  }

  lemma CommasFirst(parts: seq<string>)
    requires |parts| > 0 && |parts[0]| > 0
    ensures |Commas(parts)| > 0 && Commas(parts)[0] == parts[0][0]
  {
  }

  lemma {:induction false} CommasLast(parts: seq<string>)
    requires |parts| > 0 && |parts[|parts| - 1]| > 0
    ensures var s, last := Commas(parts), parts[|parts| - 1]; |s| > 0 && s[|s| - 1] == last[|last| - 1]
    decreases |parts|
  {
    if |parts| > 1 { CommasLast(parts[1..]); }
  }

  /** The tolerance that the documentation of the parser promises: any number of valid fields in
      any styles and any order, with white space around the whole and an optional scheme in any
      case, is read as those fields. Without the scheme the first field must not look like one. */
  lemma ToleratedHeader(p: Platform, lead: string, scheme: string, gap: string, fs: seq<Style>, trail: string)
    requires Spaces(lead) && Spaces(trail) && |fs| > 0 && AllValid(fs)
    requires fs[0].before == "" && fs[|fs| - 1].after == ""
    requires if scheme == "" then gap == "" && StripScheme(Commas(AllRendered(fs))) == Commas(AllRendered(fs))
             else LowerAll(scheme) == "signature" && Spaces(gap) && |gap| > 0
    ensures ParseHeader(p, lead + (scheme + (gap + Commas(AllRendered(fs))) + trail))
         == FromFields(p, Fields(fs, map[]))
  {
    var body := Commas(AllRendered(fs));
    CommasEnds(fs);
    if scheme == "" {
      assert scheme + (gap + body) == body;
    } else {
      SchemeStart(scheme);
      StripsScheme(scheme, gap + body);
      TrimStartSpaces(gap, body);
      EndsOf(scheme, gap, body);
    }
    TrimSpaces(lead, scheme + (gap + body), trail);
    SplitAll(fs);
    CollectAllStyled(fs, map[]);
  }

  lemma SchemeStart(scheme: string)
    requires LowerAll(scheme) == "signature"
    ensures |scheme| == 9 && !IsSpace(scheme[0])
  {
    assert LowerAll(scheme)[0] == 's';
  }

  lemma EndsOf(a: string, b: string, c: string)
    requires |a| > 0 && |c| > 0
    ensures var s := a + (b + c); |s| > 0 && s[0] == a[0] && s[|s| - 1] == c[|c| - 1]
  {
  }

  /** A header parses exactly if all six fields are there and not empty and both times are
      numbers; nothing else is taken from it. */
  lemma FieldsNeeded(p: Platform, m: map<string, string>)
    ensures FromFields(p, m).Some? <==>
              && Present(m, "keyId") && Present(m, "algorithm") && Present(m, "created") && Present(m, "expires")
              && Present(m, "headers") && Present(m, "signature")
              && p.number(m["created"]).Some? && p.number(m["expires"]).Some?
    ensures FromFields(p, m).Some? ==>
              var h := FromFields(p, m).value;
              && h.keyId == m["keyId"] && h.algorithm == m["algorithm"] && h.signature == m["signature"]
              && Some(h.created) == p.number(m["created"]) && Some(h.expires) == p.number(m["expires"])
              && |h.keyId| > 0 && |h.algorithm| > 0 && |h.signature| > 0
              && forall i :: 0 <= i < |h.headers| ==> |h.headers[i]| > 0
  {
    if FromFields(p, m).Some? { WordsNotEmpty(m["headers"], ""); }
  }

  lemma {:induction false} WordsNotEmpty(s: string, word: string)
    ensures forall i :: 0 <= i < |Words(s, word)| ==> |Words(s, word)[i]| > 0
    decreases |s|
  {
    if |s| > 0 {
      WordsNotEmpty(s[1..], "");
      WordsNotEmpty(s[1..], word + [s[0]]);
    }
  }

  /** Words with white space before each of them. */
  datatype Word = Word(gap: string, text: string)

  predicate ValidWord(w: Word) {
    Spaces(w.gap) && |w.text| > 0 && forall i :: 0 <= i < |w.text| ==> !IsSpace(w.text[i])
  }

  function Spaced(ws: seq<Word>, trail: string): string {
    if |ws| == 0 then trail else ws[0].gap + (ws[0].text + Spaced(ws[1..], trail))
  }

  lemma {:induction false} WordsOfSpaces(s: string, rest: string)
    requires Spaces(s)
    ensures Words(s + rest, "") == Words(rest, "")
    decreases |s|
  {
    if |s| == 0 {
      assert s + rest == rest;
    } else {
      WordsOfSpaces(s[1..], rest);
      assert (s + rest)[1..] == s[1..] + rest;
    }
  }

  lemma WordEnds(word: string, s: string)
    requires |word| > 0 && (|s| == 0 || IsSpace(s[0]))
    ensures Words(s, word) == [word] + Words(s, "")
  {
  }

  /** The header list is read as its words, whatever the white space around and between them. */
  lemma {:induction false} WordsRead(ws: seq<Word>, trail: string)
    requires Spaces(trail) && forall i :: 0 <= i < |ws| ==> ValidWord(ws[i])
    requires forall i :: 0 < i < |ws| ==> |ws[i].gap| > 0
    ensures Words(Spaced(ws, trail), "") == seq(|ws|, i requires 0 <= i < |ws| => ws[i].text)
    decreases |ws|
  {
    if |ws| == 0 {
      WordsOfSpaces(trail, "");
      assert trail + "" == trail;
    } else {
      var rest := Spaced(ws[1..], trail);
      assert ValidWord(ws[0]);
      WordsOfSpaces(ws[0].gap, ws[0].text + rest);
      WordRun(ws[0].text, rest, "");
      assert "" + ws[0].text == ws[0].text;
      SpacedStart(ws[1..], trail);
      WordEnds(ws[0].text, rest);
      WordsRead(ws[1..], trail);
    }
  }

  lemma SpacedStart(ws: seq<Word>, trail: string)
    requires Spaces(trail) && forall i :: 0 <= i < |ws| ==> ValidWord(ws[i]) && |ws[i].gap| > 0
    ensures var s := Spaced(ws, trail); |s| == 0 || IsSpace(s[0])
  {
  }
}
