/** The Beckn HTTP-signature header of src/gateway/beckn-auth.ts: the printer, the parser and
    the verifier, with the cryptographic and number library left abstract. */
module BecknAuth {
  import opened Common
  import Digits

  type Bytes = seq<Digits.Byte>

  // ----- text -----

  /** White space and line terminators of JavaScript. */
  predicate IsSpace(c: char) {
    var n := c as int;
    0x09 <= n <= 0x0D || n == 0x20 || n == 0xA0 || n == 0x1680 || 0x2000 <= n <= 0x200A
    || n == 0x2028 || n == 0x2029 || n == 0x202F || n == 0x205F || n == 0x3000 || n == 0xFEFF
  }

  function TrimStart(s: string): string {
    if |s| > 0 && IsSpace(s[0]) then TrimStart(s[1..]) else s
  }

  function TrimEnd(s: string): string {
    if |s| > 0 && IsSpace(s[|s| - 1]) then TrimEnd(s[..|s| - 1]) else s
  }

  function Trim(s: string): string {
    TrimEnd(TrimStart(s))
  }

  /** Drop "Signature" in any case with the white space after it, if there is some. */
  function StripScheme(s: string): string {
    if |s| > 9 && LowerAll(s[..9]) == "signature" && IsSpace(s[9]) then TrimStart(s[9..]) else s
  }

  // ----- splitting on commas outside quotes -----

  /** buf is the part being read and quote the quote it is inside of, if any. */
  function Split(s: string, buf: string, quote: Option<char>): seq<string>
    decreases |s|
  {
    if |s| == 0 then if |buf| > 0 then [buf] else []
    else if quote.Some? then Split(s[1..], buf + [s[0]], if s[0] == quote.value then None else quote)
    else if s[0] == '"' || s[0] == '\'' then Split(s[1..], buf + [s[0]], Some(s[0]))
    else if s[0] == ',' then [buf] + Split(s[1..], "", None)
    else Split(s[1..], buf + [s[0]], None)
  }

  // ----- one field -----

  datatype Field = Field(name: string, value: string)

  function IndexOf(s: string, c: char): (i: int)
    ensures -1 <= i < |s|
  {
    if |s| == 0 then -1
    else if s[0] == c then 0
    else var i := IndexOf(s[1..], c); if i < 0 then -1 else i + 1
  }

  function StripQuotes(v: string): string {
    if |v| > 0 && (v[0] == '"' || v[0] == '\'') && v[|v| - 1] == v[0] then
      if |v| == 1 then "" else v[1..|v| - 1]
    else v
  }

  function ParseField(raw: string): Option<Field> {
    var eq := IndexOf(raw, '=');
    if eq < 0 then None else Some(Field(Trim(raw[..eq]), StripQuotes(Trim(raw[eq + 1..]))))
  }

  /** Later fields replace earlier ones of the same name; one part without '=' spoils all. */
  function Collect(parts: seq<string>, m: map<string, string>): Option<map<string, string>>
    decreases |parts|
  {
    if |parts| == 0 then Some(m)
    else
      var f := ParseField(parts[0]);
      if f.None? then None else Collect(parts[1..], m[f.value.name := f.value.value])
  }

  /** The words between white space. */
  function Words(s: string, word: string): seq<string>
    decreases |s|
  {
    if |s| == 0 then if |word| > 0 then [word] else []
    else if IsSpace(s[0]) then (if |word| > 0 then [word] else []) + Words(s[1..], "")
    else Words(s[1..], word + [s[0]])
  }

  // ----- the header -----

  /** The libraries: decimal printing and reading, base64, the body digest and Ed25519. */
  datatype Platform = Platform(
    show: int -> string,
    number: string -> Option<int>,
    encode: Bytes -> string,
    decode: string -> Option<Bytes>,
    digest: string -> string,
    sign: (string, Bytes) -> Bytes,
    verify: (Bytes, string, Bytes) -> bool,
    publicKey: Bytes -> Bytes)

  datatype Parsed = Parsed(keyId: string, algorithm: string, created: int, expires: int, headers: seq<string>,
                           signature: string)

  predicate Present(m: map<string, string>, name: string) {
    name in m && |m[name]| > 0
  }

  function FromFields(p: Platform, m: map<string, string>): Option<Parsed> {
    if !(Present(m, "keyId") && Present(m, "algorithm") && Present(m, "created") && Present(m, "expires")
         && Present(m, "headers") && Present(m, "signature")) then None
    else
      var created, expires := p.number(m["created"]), p.number(m["expires"]);
      if created.None? || expires.None? then None
      else Some(Parsed(m["keyId"], m["algorithm"], created.value, expires.value, Words(m["headers"], ""),
                       m["signature"]))
  }

  function ParseHeader(p: Platform, header: string): Option<Parsed> {
    if |header| == 0 then None
    else
      var fields := Collect(Split(StripScheme(Trim(header)), "", None), map[]);
      if fields.None? then None else FromFields(p, fields.value)
  }

  /** The state machine over characters and the loop over parts compute the parse. */
  method ParseBecknAuthHeader(p: Platform, header: string) returns (r: Option<Parsed>)
    ensures r == ParseHeader(p, header)
  {
    if |header| == 0 {
      return None;
    }
    var trimmed := StripScheme(Trim(header));
    var parts := SplitParts(trimmed);
    var fields: map<string, string> := map[];
    for i := 0 to |parts|
      invariant Collect(parts[i..], fields) == Collect(parts, map[])
    {
      var raw := parts[i];
      var eq := IndexOf(raw, '=');
      assert parts[i..][1..] == parts[i + 1..];
      if eq < 0 {
        return None;
      }
      fields := fields[Trim(raw[..eq]) := StripQuotes(Trim(raw[eq + 1..]))];
    }
    assert parts[|parts|..] == [];
    return FromFields(p, fields);
  }

  method SplitParts(trimmed: string) returns (parts: seq<string>)
    ensures parts == Split(trimmed, "", None)
  {
    parts := [];
    var buf := "";
    var quote: Option<char> := None;
    for i := 0 to |trimmed|
      invariant parts + Split(trimmed[i..], buf, quote) == Split(trimmed, "", None)
    {
      var ch := trimmed[i];
      assert trimmed[i..][1..] == trimmed[i + 1..];
      if quote.Some? {
        buf := buf + [ch];
        if ch == quote.value {
          quote := None;
        }
      } else if ch == '"' || ch == '\'' {
        buf := buf + [ch];
        quote := Some(ch);
      } else if ch == ',' {
        ghost var rest := Split(trimmed[i + 1..], "", None);
        assert parts + ([buf] + rest) == (parts + [buf]) + rest;
        parts := parts + [buf];
        buf := "";
      } else {
        buf := buf + [ch];
      }
    }
    if |buf| > 0 {
      parts := parts + [buf];
    }
  }

  // ----- signing and verifying -----

  const HEADERS: seq<string> := ["(created)", "(expires)", "digest"]
  const HEADER_LIST: string := "(created)" + (" " + ("(expires)" + (" " + "digest")))

  function Line(p: Platform, h: string, created: int, expires: int, digest: string): string {
    if h == "(created)" then "(created): " + p.show(created)
    else if h == "(expires)" then "(expires): " + p.show(expires)
    else if LowerAll(h) == "digest" then "digest: BLAKE-512=" + digest
    else h + ":"
  }

  function SigningString(p: Platform, headers: seq<string>, created: int, expires: int, digest: string): string {
    if |headers| == 0 then ""
    else if |headers| == 1 then Line(p, headers[0], created, expires, digest)
    else Line(p, headers[0], created, expires, digest) + "\n" + SigningString(p, headers[1..], created, expires, digest)
  }

  function Quoted(name: string, value: string): string {
    name + ("=" + ("\"" + value + "\""))
  }

  function Bare(name: string, value: string): string {
    name + ("=" + value)
  }

  /** The printed header: six fields separated by commas. */
  function PrintHeader(p: Platform, keyId: string, created: int, expires: int, sig: string): string {
    "Signature " + (Quoted("keyId", keyId) + ("," + (Quoted("algorithm", "ed25519") + ("," + (
      Bare("created", p.show(created)) + ("," + (Bare("expires", p.show(expires)) + ("," + (
      Quoted("headers", HEADER_LIST) + ("," + Quoted("signature", sig)))))))))))
  }

  function SignHeader(p: Platform, secret: Bytes, keyId: string, body: string, created: int, expires: int): string {
    PrintHeader(p, keyId, created, expires,
                p.encode(p.sign(SigningString(p, HEADERS, created, expires, p.digest(body)), secret)))
  }

  datatype KeyParts = KeyParts(subscriber: string, unique: string, alg: string)

  function SplitBar(s: string, part: string): seq<string>
    decreases |s|
  {
    if |s| == 0 then [part]
    else if s[0] == '|' then [part] + SplitBar(s[1..], "")
    else SplitBar(s[1..], part + [s[0]])
  }

  function ParseKeyId(keyId: string): Option<KeyParts> {
    var parts := SplitBar(keyId, "");
    if |parts| != 3 || |parts[0]| == 0 || |parts[1]| == 0 || |parts[2]| == 0 then None
    else Some(KeyParts(parts[0], parts[1], parts[2]))
  }

  datatype Code = MissingAuth | MalformedAuth | WrongAlgorithm | ExpiredAuth | UnknownKey | BadSignature
  datatype Verdict = Accepted(keyId: string, subscriber: string, unique: string) | Refused(code: Code)

  /** The checks in the order of the source. */
  function Verify(p: Platform, header: string, body: string, resolve: string -> Option<Bytes>, now: int): Verdict {
    if |header| == 0 then Refused(MissingAuth)
    else
      var parsed := ParseHeader(p, header);
      if parsed.None? then Refused(MalformedAuth)
      else VerifyParsed(p, parsed.value, body, resolve, now)
  }

  /** The signed text that a header and a body give. */
  function MessageOf(p: Platform, h: Parsed, body: string): string {
    SigningString(p, h.headers, h.created, h.expires, p.digest(body))
  }

  function VerifyParsed(p: Platform, h: Parsed, body: string, resolve: string -> Option<Bytes>, now: int): Verdict {
    if LowerAll(h.algorithm) != "ed25519" then Refused(WrongAlgorithm)
    else
      var key := ParseKeyId(h.keyId);
      if key.None? then Refused(MalformedAuth)
      else if LowerAll(key.value.alg) != "ed25519" then Refused(WrongAlgorithm)
      else if h.created > now + 60 then Refused(ExpiredAuth)
      else if h.expires < now then Refused(ExpiredAuth)
      else
        var public := resolve(h.keyId);
        if public.None? || |public.value| == 0 then Refused(UnknownKey)
        else
          var sig := p.decode(h.signature);
          if sig.None? || |sig.value| != 64 then Refused(MalformedAuth)
          else if p.verify(sig.value, MessageOf(p, h, body), public.value) then
            Accepted(h.keyId, key.value.subscriber, key.value.unique)
          else Refused(BadSignature)
  }

  // ----- what the libraries promise -----

  /** No quote, comma or white space. */
  predicate PlainText(s: string) {
    forall i :: 0 <= i < |s| ==> s[i] != '"' && s[i] != '\'' && s[i] != ',' && !IsSpace(s[i])
  }

  predicate NoQuote(s: string) {
    forall i :: 0 <= i < |s| ==> s[i] != '"'
  }

  ghost predicate Faithful(p: Platform) {
    && (forall n :: |p.show(n)| > 0 && PlainText(p.show(n)))
    && (forall n :: p.number(p.show(n)) == Some(n))
    && (forall b :: |b| == 64 ==> |p.encode(b)| > 0 && NoQuote(p.encode(b)))
    && (forall b :: p.decode(p.encode(b)) == Some(b))
    && (forall m, k :: |p.sign(m, k)| == 64 && p.verify(p.sign(m, k), m, p.publicKey(k)))
    && (forall k :: |p.publicKey(k)| > 0)
  }

  // ----- lemmas about splitting -----

  lemma {:induction false} SplitPlain(x: string, rest: string, buf: string)
    requires forall i :: 0 <= i < |x| ==> x[i] != '"' && x[i] != '\'' && x[i] != ','
    ensures Split(x + rest, buf, None) == Split(rest, buf + x, None)
    decreases |x|
  {
    if |x| == 0 {
      assert x + rest == rest && buf + x == buf;
    } else {
      SplitPlain(x[1..], rest, buf + [x[0]]);
      assert (x + rest)[1..] == x[1..] + rest;
      assert buf + [x[0]] + x[1..] == buf + x;
    }
  }

  lemma {:induction false} SplitInside(x: string, rest: string, buf: string)
    requires NoQuote(x)
    ensures Split(x + ("\"" + rest), buf, Some('"')) == Split(rest, buf + x + "\"", None)
    decreases |x|
  {
    if |x| == 0 {
      assert x + ("\"" + rest) == "\"" + rest && ("\"" + rest)[1..] == rest;
      assert buf + x + "\"" == buf + "\"";
    } else {
      SplitInside(x[1..], rest, buf + [x[0]]);
      assert (x + ("\"" + rest))[1..] == x[1..] + ("\"" + rest);
      assert buf + [x[0]] + x[1..] + "\"" == buf + x + "\"";
    }
  }

  /** A quoted field is one part, whatever its value contains. */
  lemma SplitQuoted(name: string, value: string, rest: string)
    requires PlainText(name) && NoQuote(value)
    ensures Split(Quoted(name, value) + rest, "", None) == Split(rest, Quoted(name, value), None)
  {
    var inner := value + ("\"" + rest);
    var lead := name + "=";
    assert Quoted(name, value) + rest == lead + ("\"" + inner);
    SplitPlain(lead, "\"" + inner, "");
    assert "" + lead == lead && ("\"" + inner)[1..] == inner;
    SplitInside(value, rest, lead + "\"");
    assert lead + "\"" + value + "\"" == Quoted(name, value);
  }

  lemma SplitBare(name: string, value: string, rest: string)
    requires PlainText(name) && PlainText(value)
    ensures Split(Bare(name, value) + rest, "", None) == Split(rest, Bare(name, value), None)
  {
    SplitPlain(Bare(name, value), rest, "");
    assert "" + Bare(name, value) == Bare(name, value);
  }

  lemma SplitComma(rest: string, buf: string)
    ensures Split("," + rest, buf, None) == [buf] + Split(rest, "", None)
  {
    assert ("," + rest)[1..] == rest;
  }

  // ----- lemmas about fields -----

  lemma {:induction false} IndexAfter(x: string, rest: string)
    requires forall i :: 0 <= i < |x| ==> x[i] != '='
    ensures IndexOf(x + ("=" + rest), '=') == |x|
    decreases |x|
  {
    if |x| == 0 {
      assert x + ("=" + rest) == "=" + rest;
    } else {
      IndexAfter(x[1..], rest);
      assert (x + ("=" + rest))[1..] == x[1..] + ("=" + rest);
    }
  }

  lemma TrimNothing(s: string)
    requires |s| > 0 && !IsSpace(s[0]) && !IsSpace(s[|s| - 1])
    ensures Trim(s) == s
  {
  }

  predicate Name(s: string) {
    |s| > 0 && PlainText(s) && forall i :: 0 <= i < |s| ==> s[i] != '='
  }

  lemma ParseQuoted(name: string, value: string)
    requires Name(name)
    ensures ParseField(Quoted(name, value)) == Some(Field(name, value))
  {
    var v := "\"" + value + "\"";
    IndexAfter(name, v);
    assert Quoted(name, value)[..|name|] == name && Quoted(name, value)[|name| + 1..] == v;
    TrimNothing(name);
    TrimNothing(v);
    assert v[1..|v| - 1] == value;
  }

  lemma ParseBare(name: string, value: string)
    requires Name(name) && |value| > 0 && PlainText(value)
    ensures ParseField(Bare(name, value)) == Some(Field(name, value))
  {
    IndexAfter(name, value);
    assert Bare(name, value)[..|name|] == name && Bare(name, value)[|name| + 1..] == value;
    TrimNothing(name);
    TrimNothing(value);
  }

  lemma NamesAreNames()
    ensures Name("keyId") && Name("algorithm") && Name("created")
    ensures Name("expires") && Name("headers") && Name("signature")
  {
  }

  lemma LastPart(name: string, value: string)
    requires Name(name) && NoQuote(value)
    ensures Split(Quoted(name, value), "", None) == [Quoted(name, value)]
  {
    SplitQuoted(name, value, "");
    assert Quoted(name, value) + "" == Quoted(name, value);
  }

  lemma QuotedThen(name: string, value: string, rest: string)
    requires Name(name) && NoQuote(value)
    ensures Split(Quoted(name, value) + ("," + rest), "", None) == [Quoted(name, value)] + Split(rest, "", None)
  {
    SplitQuoted(name, value, "," + rest);
    SplitComma(rest, Quoted(name, value));
  }

  lemma BareThen(name: string, value: string, rest: string)
    requires Name(name) && PlainText(value)
    ensures Split(Bare(name, value) + ("," + rest), "", None) == [Bare(name, value)] + Split(rest, "", None)
  {
    SplitBare(name, value, "," + rest);
    SplitComma(rest, Bare(name, value));
  }

  /** The last three and the first three fields of the printed header. */
  function Tail(p: Platform, expires: int, sig: string): string {
    Bare("expires", p.show(expires)) + ("," + (Quoted("headers", HEADER_LIST) + ("," + Quoted("signature", sig))))
  }

  lemma TailParts(p: Platform, expires: int, sig: string)
    requires Faithful(p) && NoQuote(sig)
    ensures Split(Tail(p, expires, sig), "", None)
         == [Bare("expires", p.show(expires)), Quoted("headers", HEADER_LIST), Quoted("signature", sig)]
  {
    NamesAreNames();
    ListHasNoQuote();
    LastPart("signature", sig);
    QuotedThen("headers", HEADER_LIST, Quoted("signature", sig));
    BareThen("expires", p.show(expires), Quoted("headers", HEADER_LIST) + ("," + Quoted("signature", sig)));
  }

  lemma ListHasNoQuote()
    ensures NoQuote(HEADER_LIST) && NoQuote("ed25519")
  {
  }

  function AllFields(p: Platform, keyId: string, created: int, expires: int, sig: string): string {
    Quoted("keyId", keyId) + ("," + (Quoted("algorithm", "ed25519") + ("," + (
      Bare("created", p.show(created)) + ("," + Tail(p, expires, sig))))))
  }

  lemma AllParts(p: Platform, keyId: string, created: int, expires: int, sig: string)
    requires Faithful(p) && NoQuote(keyId) && NoQuote(sig)
    ensures Split(AllFields(p, keyId, created, expires, sig), "", None)
         == [Quoted("keyId", keyId), Quoted("algorithm", "ed25519"), Bare("created", p.show(created)),
             Bare("expires", p.show(expires)), Quoted("headers", HEADER_LIST), Quoted("signature", sig)]
  {
    NamesAreNames();
    ListHasNoQuote();
    TailParts(p, expires, sig);
    var third := Bare("created", p.show(created)) + ("," + Tail(p, expires, sig));
    BareThen("created", p.show(created), Tail(p, expires, sig));
    QuotedThen("algorithm", "ed25519", third);
    QuotedThen("keyId", keyId, Quoted("algorithm", "ed25519") + ("," + third));
  }

  lemma CollectOne(raw: string, rest: seq<string>, m: map<string, string>, name: string, value: string)
    requires ParseField(raw) == Some(Field(name, value))
    ensures Collect([raw] + rest, m) == Collect(rest, m[name := value])
  {
    assert ([raw] + rest)[1..] == rest;
  }

  function FieldMap(p: Platform, keyId: string, created: int, expires: int, sig: string): map<string, string> {
    map[]["keyId" := keyId]["algorithm" := "ed25519"]["created" := p.show(created)]["expires" := p.show(expires)]
         ["headers" := HEADER_LIST]["signature" := sig]
  }

  lemma CollectAll(p: Platform, keyId: string, created: int, expires: int, sig: string)
    requires Faithful(p)
    ensures Collect([Quoted("keyId", keyId), Quoted("algorithm", "ed25519"), Bare("created", p.show(created)),
                     Bare("expires", p.show(expires)), Quoted("headers", HEADER_LIST), Quoted("signature", sig)], map[])
         == Some(FieldMap(p, keyId, created, expires, sig))
  {
    NamesAreNames();
    var a, b, c := Quoted("keyId", keyId), Quoted("algorithm", "ed25519"), Bare("created", p.show(created));
    var d, e, f := Bare("expires", p.show(expires)), Quoted("headers", HEADER_LIST), Quoted("signature", sig);
    ParseQuoted("keyId", keyId);
    ParseQuoted("algorithm", "ed25519");
    ParseBare("created", p.show(created));
    ParseBare("expires", p.show(expires));
    ParseQuoted("headers", HEADER_LIST);
    ParseQuoted("signature", sig);
    var m := map["keyId" := keyId]["algorithm" := "ed25519"]["created" := p.show(created)];
    CollectThree(d, e, f, [], m, "expires", p.show(expires), "headers", HEADER_LIST, "signature", sig);
    CollectThree(a, b, c, [d, e, f], map[], "keyId", keyId, "algorithm", "ed25519", "created", p.show(created));
    SixParts(a, b, c, d, e, f);
  }

  lemma SixParts(a: string, b: string, c: string, d: string, e: string, f: string)
    ensures [a, b, c] + [d, e, f] == [a, b, c, d, e, f] && [d, e, f] + [] == [d, e, f]
  {
  }

  lemma CollectThree(a: string, b: string, c: string, rest: seq<string>, m: map<string, string>,
                     i: string, u: string, j: string, v: string, k: string, w: string)
    requires ParseField(a) == Some(Field(i, u)) && ParseField(b) == Some(Field(j, v))
    requires ParseField(c) == Some(Field(k, w))
    ensures Collect([a, b, c] + rest, m) == Collect(rest, m[i := u][j := v][k := w])
  {
    CollectOne(a, [b, c] + rest, m, i, u);
    CollectOne(b, [c] + rest, m[i := u], j, v);
    CollectOne(c, rest, m[i := u][j := v], k, w);
    assert [a] + ([b, c] + rest) == [a, b, c] + rest && [b] + ([c] + rest) == [b, c] + rest;
  }

  /** Neither the trimming nor the scheme prefix touches the fields. */
  lemma PrefixStripped(fields: string)
    requires |fields| > 0 && fields[0] == 'k' && fields[|fields| - 1] == '"'
    ensures StripScheme(Trim("Signature " + fields)) == fields
  {
    SchemeLower();
    assert "Signature " + fields == "Signature" + (" " + fields);
    SchemeStripped("Signature", fields);
  }

  lemma SchemeStripped(scheme: string, fields: string)
    requires |scheme| == 9 && LowerAll(scheme) == "signature" && !IsSpace(scheme[0])
    requires |fields| > 0 && !IsSpace(fields[0]) && !IsSpace(fields[|fields| - 1])
    ensures StripScheme(Trim(scheme + (" " + fields))) == fields
  {
    TrimmedEnds(scheme, " " + fields);
    StripsScheme(scheme, " " + fields);
    TrimOneSpace(fields);
  }

  lemma TrimmedEnds(a: string, b: string)
    requires |a| > 0 && |b| > 0 && !IsSpace(a[0]) && !IsSpace(b[|b| - 1])
    ensures Trim(a + b) == a + b
  {
    TrimNothing(a + b);
  }

  lemma StripsScheme(scheme: string, rest: string)
    requires |scheme| == 9 && LowerAll(scheme) == "signature" && |rest| > 0 && IsSpace(rest[0])
    ensures StripScheme(scheme + rest) == TrimStart(rest)
  {
    assert (scheme + rest)[..9] == scheme && (scheme + rest)[9..] == rest;
  }

  lemma TrimOneSpace(s: string)
    requires |s| > 0 && !IsSpace(s[0])
    ensures TrimStart(" " + s) == s
  {
    assert (" " + s)[1..] == s;
  }

  lemma SchemeLower()
    ensures LowerAll("Signature") == "signature"
  {
    LowerFirst("Signature");
    assert [Lower('S')] + "Signature"[1..] == "signature";
  }

  lemma LowerFirst(s: string)
    requires |s| > 0 && forall i :: 1 <= i < |s| ==> Lower(s[i]) == s[i]
    ensures LowerAll(s) == [Lower(s[0])] + s[1..]
  {
  }

  lemma AlgorithmLower()
    ensures LowerAll("ed25519") == "ed25519"
  {
    var s := LowerAll("ed25519");
    assert forall i :: 0 <= i < 7 ==> s[i] == "ed25519"[i];
  }

  lemma {:induction false} WordRun(w: string, rest: string, word: string)
    requires forall i :: 0 <= i < |w| ==> !IsSpace(w[i])
    ensures Words(w + rest, word) == Words(rest, word + w)
    decreases |w|
  {
    if |w| == 0 {
      assert w + rest == rest && word + w == word;
    } else {
      WordRun(w[1..], rest, word + [w[0]]);
      assert (w + rest)[1..] == w[1..] + rest && word + [w[0]] + w[1..] == word + w;
    }
  }

  lemma WordThen(w: string, rest: string)
    requires |w| > 0 && forall i :: 0 <= i < |w| ==> !IsSpace(w[i])
    ensures Words(w + (" " + rest), "") == [w] + Words(rest, "")
  {
    WordRun(w, " " + rest, "");
    assert "" + w == w && (" " + rest)[1..] == rest;
  }

  lemma HeaderListWords()
    ensures Words(HEADER_LIST, "") == HEADERS
  {
    var a, b, c := "(created)", "(expires)", "digest";
    WordRun(c, "", "");
    assert c + "" == c && "" + c == c;
    WordThen(b, c);
    WordThen(a, b + (" " + c));
  }

  /** Parsing the printed header returns exactly the printed fields, for every nonempty key
      identifier without a double quote: commas, equals signs and spaces are kept. */
  lemma ParseAfterPrint(p: Platform, keyId: string, created: int, expires: int, sig: string)
    requires Faithful(p) && |keyId| > 0 && NoQuote(keyId) && |sig| > 0 && NoQuote(sig)
    ensures ParseHeader(p, PrintHeader(p, keyId, created, expires, sig))
         == Some(Parsed(keyId, "ed25519", created, expires, HEADERS, sig))
  {
    var fields := AllFields(p, keyId, created, expires, sig);
    assert PrintHeader(p, keyId, created, expires, sig) == "Signature " + fields;
    FieldsEnds(p, keyId, created, expires, sig);
    PrefixStripped(fields);
    AllParts(p, keyId, created, expires, sig);
    CollectAll(p, keyId, created, expires, sig);
    HeaderListWords();
    FieldsRead(p, keyId, created, expires, sig);
  }

  lemma FieldsEnds(p: Platform, keyId: string, created: int, expires: int, sig: string)
    ensures var f := AllFields(p, keyId, created, expires, sig); |f| > 0 && f[0] == 'k' && f[|f| - 1] == '"'
  {
    var q := Quoted("signature", sig);
    assert q[|q| - 1] == '"';
  }

  lemma SixKeys(k1: string, k2: string, k3: string, k4: string, k5: string, k6: string,
                v1: string, v2: string, v3: string, v4: string, v5: string, v6: string)
    requires k1 != k2 && k1 != k3 && k1 != k4 && k1 != k5 && k1 != k6 && k2 != k3 && k2 != k4 && k2 != k5 && k2 != k6
    requires k3 != k4 && k3 != k5 && k3 != k6 && k4 != k5 && k4 != k6 && k5 != k6
    ensures var m := map[][k1 := v1][k2 := v2][k3 := v3][k4 := v4][k5 := v5][k6 := v6];
            && k1 in m && m[k1] == v1 && k2 in m && m[k2] == v2 && k3 in m && m[k3] == v3
            && k4 in m && m[k4] == v4 && k5 in m && m[k5] == v5 && k6 in m && m[k6] == v6
  {
  }

  lemma FieldsRead(p: Platform, keyId: string, created: int, expires: int, sig: string)
    requires Faithful(p) && |keyId| > 0 && |sig| > 0
    ensures FromFields(p, FieldMap(p, keyId, created, expires, sig))
         == Some(Parsed(keyId, "ed25519", created, expires, Words(HEADER_LIST, ""), sig))
  {
    var m := FieldMap(p, keyId, created, expires, sig);
    SixKeys("keyId", "algorithm", "created", "expires", "headers", "signature",
            keyId, "ed25519", p.show(created), p.show(expires), HEADER_LIST, sig);
    ReadSix(p, m, created, expires);
  }

  lemma ReadSix(p: Platform, m: map<string, string>, created: int, expires: int)
    requires Present(m, "keyId") && Present(m, "algorithm") && Present(m, "created") && Present(m, "expires")
    requires Present(m, "headers") && Present(m, "signature")
    requires p.number(m["created"]) == Some(created) && p.number(m["expires"]) == Some(expires)
    ensures FromFields(p, m)
         == Some(Parsed(m["keyId"], m["algorithm"], created, expires, Words(m["headers"], ""), m["signature"]))
  {
  }

  /** With a correct signature scheme the verifier accepts what the signer printed, for the same
      body and the signer's registered key, exactly when the window is open and the key
      identifier has three nonempty parts, the last of them ed25519. */
  lemma VerifyAfterSign(p: Platform, secret: Bytes, keyId: string, body: string, created: int, expires: int,
                        resolve: string -> Option<Bytes>, now: int)
    requires Faithful(p) && |keyId| > 0 && NoQuote(keyId) && resolve(keyId) == Some(p.publicKey(secret))
    ensures Verify(p, SignHeader(p, secret, keyId, body, created, expires), body, resolve, now).Accepted? <==>
              && created <= now + 60 && expires >= now
              && ParseKeyId(keyId).Some? && LowerAll(ParseKeyId(keyId).value.alg) == "ed25519"
    ensures var v := Verify(p, SignHeader(p, secret, keyId, body, created, expires), body, resolve, now);
            v.Accepted? ==>
              v.keyId == keyId
              && ParseKeyId(keyId) == Some(KeyParts(v.subscriber, v.unique, ParseKeyId(keyId).value.alg))
  {
    var msg := SigningString(p, HEADERS, created, expires, p.digest(body));
    var sig := p.sign(msg, secret);
    ParseAfterPrint(p, keyId, created, expires, p.encode(sig));
    AlgorithmLower();
    assert |SignHeader(p, secret, keyId, body, created, expires)| > 0;
    VerifySigned(p, Parsed(keyId, "ed25519", created, expires, HEADERS, p.encode(sig)), secret, body, resolve, now);
  }

  lemma VerifySigned(p: Platform, h: Parsed, secret: Bytes, body: string, resolve: string -> Option<Bytes>, now: int)
    requires Faithful(p) && LowerAll(h.algorithm) == "ed25519" && resolve(h.keyId) == Some(p.publicKey(secret))
    requires h.signature == p.encode(p.sign(SigningString(p, h.headers, h.created, h.expires, p.digest(body)), secret))
    ensures VerifyParsed(p, h, body, resolve, now).Accepted? <==>
              && h.created <= now + 60 && h.expires >= now
              && ParseKeyId(h.keyId).Some? && LowerAll(ParseKeyId(h.keyId).value.alg) == "ed25519"
    ensures var v := VerifyParsed(p, h, body, resolve, now);
            v.Accepted? ==>
              v.keyId == h.keyId
              && ParseKeyId(h.keyId) == Some(KeyParts(v.subscriber, v.unique, ParseKeyId(h.keyId).value.alg))
  {
  }

  // ----- what the signed text binds -----

  predicate IsDigest(h: string) {
    LowerAll(h) == "digest"
  }

  predicate ListsDigest(headers: seq<string>) {
    exists i :: 0 <= i < |headers| && IsDigest(headers[i])
  }

  function DigestCount(headers: seq<string>): nat {
    if |headers| == 0 then 0 else (if IsDigest(headers[0]) then 1 else 0) + DigestCount(headers[1..])
  }

  lemma {:induction false} ListedIsCounted(headers: seq<string>)
    ensures ListsDigest(headers) <==> DigestCount(headers) > 0
  {
    if |headers| > 0 {
      ListedIsCounted(headers[1..]);
      if ListsDigest(headers[1..]) {
        var i :| 0 <= i < |headers[1..]| && IsDigest(headers[1..][i]);
        assert headers[i + 1] == headers[1..][i];
      }
      if ListsDigest(headers) && !IsDigest(headers[0]) {
        var i :| 0 <= i < |headers| && IsDigest(headers[i]);
        assert headers[1..][i - 1] == headers[i];
      }
    }
  }

  /** "(created)" and "(expires)" are lines of their own. */
  lemma PseudoHeaders(h: string)
    requires |h| > 0 && h[0] == '('
    ensures !IsDigest(h)
  {
    assert LowerAll(h)[0] == '(';
  }

  /** The line of a digest header is the digest after a fixed text; no other line depends on it. */
  lemma LineOfDigest(p: Platform, h: string, created: int, expires: int, d: string, e: string)
    ensures IsDigest(h) ==> Line(p, h, created, expires, d) == "digest: BLAKE-512=" + d
    ensures !IsDigest(h) ==> Line(p, h, created, expires, d) == Line(p, h, created, expires, e)
  {
    if |h| > 0 && h[0] == '(' { PseudoHeaders(h); }
  }

  lemma LineLength(p: Platform, h: string, created: int, expires: int, d: string, e: string)
    ensures |Line(p, h, created, expires, d)| - |Line(p, h, created, expires, e)|
         == if IsDigest(h) then |d| - |e| else 0
  {
    LineOfDigest(p, h, created, expires, d, e);
    LineOfDigest(p, h, created, expires, e, d);
  }

  /** The first line, the separator if more lines follow, and these. */
  lemma TextSplit(p: Platform, headers: seq<string>, created: int, expires: int, d: string)
    requires |headers| > 0
    ensures SigningString(p, headers, created, expires, d)
         == Line(p, headers[0], created, expires, d)
            + ((if |headers| == 1 then "" else "\n") + SigningString(p, headers[1..], created, expires, d))
  {
    var line, rest := Line(p, headers[0], created, expires, d), SigningString(p, headers[1..], created, expires, d);
    if |headers| == 1 {
      assert line + ("" + "") == line;
    } else {
      assert line + "\n" + rest == line + ("\n" + rest);
    }
  }

  /** Two digests make texts whose lengths differ once for every listed digest. */
  lemma {:induction false} TextLength(p: Platform, headers: seq<string>, created: int, expires: int,
                                      d: string, e: string)
    ensures |SigningString(p, headers, created, expires, d)|
         == |SigningString(p, headers, created, expires, e)| + DigestCount(headers) * (|d| - |e|)
    decreases |headers|
  {
    if |headers| > 0 {
      TextSplit(p, headers, created, expires, d);
      TextSplit(p, headers, created, expires, e);
      LineLength(p, headers[0], created, expires, d, e);
      TextLength(p, headers[1..], created, expires, d, e);
      OneMore(DigestCount(headers[1..]), |d| - |e|);
    }
  }

  lemma OneMore(n: int, x: int)
    ensures (1 + n) * x == x + n * x
  {
  }

  /** Two digests give the same signed text. */
  ghost predicate SameText(p: Platform, headers: seq<string>, created: int, expires: int, d: string, e: string) {
    SigningString(p, headers, created, expires, d) == SigningString(p, headers, created, expires, e)
  }

  /** Texts of digests of one length that are equal are equal line by line. */
  lemma {:induction false} TextBinds(p: Platform, headers: seq<string>, created: int, expires: int,
                                     d: string, e: string)
    requires |d| == |e| && DigestCount(headers) > 0 && SameText(p, headers, created, expires, d, e)
    ensures d == e
    decreases |headers|
  {
    var h, rest, nl := headers[0], headers[1..], if |headers| == 1 then "" else "\n";
    var s, t := SigningString(p, rest, created, expires, d), SigningString(p, rest, created, expires, e);
    TextSplit(p, headers, created, expires, d);
    TextSplit(p, headers, created, expires, e);
    LineLength(p, h, created, expires, d, e);
    SameSplit(Line(p, h, created, expires, d), nl + s, Line(p, h, created, expires, e), nl + t);
    if IsDigest(h) {
      LineOfDigest(p, h, created, expires, d, e);
      LineOfDigest(p, h, created, expires, e, d);
      SameSplit("digest: BLAKE-512=", d, "digest: BLAKE-512=", e);
    } else {
      SameSplit(nl, s, nl, t);
      TextBinds(p, rest, created, expires, d, e);
    }
  }

  lemma SameSplit(a: string, s: string, b: string, t: string)
    requires a + s == b + t && |a| == |b|
    ensures a == b && s == t
  {
    assert a == (a + s)[..|a|] && b == (b + t)[..|b|] && s == (a + s)[|a|..] && t == (b + t)[|b|..];
  }

  lemma {:induction false} TextIgnores(p: Platform, headers: seq<string>, created: int, expires: int,
                                       d: string, e: string)
    requires DigestCount(headers) == 0
    ensures SameText(p, headers, created, expires, d, e)
    decreases |headers|
  {
    if |headers| > 0 {
      LineOfDigest(p, headers[0], created, expires, d, e);
      TextIgnores(p, headers[1..], created, expires, d, e);
    }
  }

  lemma ListedBinds(p: Platform, headers: seq<string>, created: int, expires: int, d: string, e: string)
    requires ListsDigest(headers) && SameText(p, headers, created, expires, d, e)
    ensures d == e
  {
    ListedIsCounted(headers);
    SameLengths(p, headers, created, expires, d, e);
    TextBinds(p, headers, created, expires, d, e);
  }

  lemma SameLengths(p: Platform, headers: seq<string>, created: int, expires: int, d: string, e: string)
    requires DigestCount(headers) > 0 && SameText(p, headers, created, expires, d, e)
    ensures |d| == |e|
  {
    TextLength(p, headers, created, expires, d, e);
    NoGap(DigestCount(headers), |d| - |e|);
  }

  lemma NoGap(n: int, x: int)
    requires n > 0 && n * x == 0
    ensures x == 0
  {
  }

  /** The signed text determines the digest exactly if a listed header is "digest" in some case. */
  lemma TextBindsDigestIff(p: Platform, headers: seq<string>, created: int, expires: int)
    ensures (forall d, e :: SameText(p, headers, created, expires, d, e) ==> d == e) <==> ListsDigest(headers)
  {
    if ListsDigest(headers) {
      forall d, e | SameText(p, headers, created, expires, d, e) ensures d == e {
        ListedBinds(p, headers, created, expires, d, e);
      }
    } else {
      ListedIsCounted(headers);
      TextIgnores(p, headers, created, expires, "", "x");
    }
  }

  /** So the body of a request has a part in the verdict on a header only if the header lists
      the digest: otherwise every body gets the same verdict. */
  lemma BodyWithoutDigest(p: Platform, h: Parsed, body: string, other: string,
                          resolve: string -> Option<Bytes>, now: int)
    requires !ListsDigest(h.headers)
    ensures VerifyParsed(p, h, body, resolve, now) == VerifyParsed(p, h, other, resolve, now)
  {
    ListedIsCounted(h.headers);
    TextIgnores(p, h.headers, h.created, h.expires, p.digest(body), p.digest(other));
  }

  /** With the digest listed, one signature that is accepted for two bodies was made for both
      texts, and these differ if the digests do. */
  lemma BodyWithDigest(p: Platform, h: Parsed, body: string, other: string,
                       resolve: string -> Option<Bytes>, now: int)
    requires ListsDigest(h.headers) && p.digest(body) != p.digest(other)
    requires VerifyParsed(p, h, body, resolve, now).Accepted? && VerifyParsed(p, h, other, resolve, now).Accepted?
    ensures MessageOf(p, h, body) != MessageOf(p, h, other)
    ensures var sig, public := p.decode(h.signature), resolve(h.keyId);
            && sig.Some? && public.Some? && p.verify(sig.value, MessageOf(p, h, body), public.value)
            && p.verify(sig.value, MessageOf(p, h, other), public.value)
  {
    if SameText(p, h.headers, h.created, h.expires, p.digest(body), p.digest(other)) {
      ListedBinds(p, h.headers, h.created, h.expires, p.digest(body), p.digest(other));
    }
  }

  lemma {:induction false} BarRun(x: string, rest: string, part: string)
    requires forall i :: 0 <= i < |x| ==> x[i] != '|'
    ensures SplitBar(x + rest, part) == SplitBar(rest, part + x)
    decreases |x|
  {
    if |x| == 0 {
      assert x + rest == rest && part + x == part;
    } else {
      BarRun(x[1..], rest, part + [x[0]]);
      assert (x + rest)[1..] == x[1..] + rest && part + [x[0]] + x[1..] == part + x;
    }
  }

  /** A key identifier is read back as the three parts it was joined from. */
  lemma KeyIdRoundTrip(subscriber: string, unique: string, alg: string)
    requires |subscriber| > 0 && |unique| > 0 && |alg| > 0
    requires '|' !in subscriber && '|' !in unique && '|' !in alg
    ensures ParseKeyId(subscriber + ("|" + (unique + ("|" + alg)))) == Some(KeyParts(subscriber, unique, alg))
  {
    var tail := unique + ("|" + alg);
    BarRun(subscriber, "|" + tail, "");
    assert "" + subscriber == subscriber && ("|" + tail)[1..] == tail;
    BarRun(unique, "|" + alg, "");
    assert "" + unique == unique && ("|" + alg)[1..] == alg;
    BarRun(alg, "", "");
    assert alg + "" == alg && "" + alg == alg;
  }
}
