/** signV4: the headers it sets, the block it signs, and the theorem that the
    canonical request gives its inputs back. */
module Signing {
  import opened Text
  import opened Sorting
  import opened Percent
  import opened SigV4
  import opened Severity
  import Tokens

  type Headers = map<string, seq<string>>

  // ---------------------------------------------------------------- header block

  /** All of a header's values as one, runs of white space collapsed. */
  function Collapse(vs: seq<string>): string {
    Join(Fields(Join(vs, ",")), " ")
  }

  /** The signed headers: each of the request's under its lower-case name, and the host. */
  ghost predicate IsHeaderMap(m: map<string, string>, host: string, header: Headers) {
    && (forall n :: n in m <==> n == "host" || Spelled(n, header))
    && (forall n | n in m :: MayBe(n, m[n], host, header))
  }

  /** Some header has this lower-case name. */
  ghost predicate Spelled(n: string, header: Headers) {
    exists k | k in header :: Lower(k) == n
  }

  /** The value is that of a header with this lower-case name; the host is the default. */
  ghost predicate MayBe(n: string, v: string, host: string, header: Headers) {
    if Spelled(n, header) then exists k | k in header :: Lower(k) == n && v == Collapse(header[k])
    else n == "host" && v == host
  }

  /** Headers whose names differ in case only have one value. */
  ghost predicate OneValueEach(header: Headers) {
    forall j, k | j in header && k in header && Lower(j) == Lower(k) :: Collapse(header[j]) == Collapse(header[k])
  }

  ghost function AnyValue(n: string, host: string, header: Headers): (v: string)
    requires n == "host" || Spelled(n, header)
    ensures MayBe(n, v, host, header)
  {
    if Spelled(n, header) then
      var k :| k in header && Lower(k) == n;
      Collapse(header[k])
    else host
  }

  lemma SomeHeaderMap(host: string, header: Headers) returns (m: map<string, string>)
    ensures IsHeaderMap(m, host, header)
  {
    var names := (set k | k in header :: Lower(k)) + {"host"};
    assert forall n | n in names :: n == "host" || Spelled(n, header);
    m := map n | n in names :: AnyValue(n, host, header);
  }

  /** The order in which the map is walked never shows in what is signed exactly
      when headers whose names differ in case only agree; Go's canonical spelling
      keeps such names from existing. */
  lemma HeaderMapUniqueIff(host: string, header: Headers)
    ensures (forall a, b | IsHeaderMap(a, host, header) && IsHeaderMap(b, host, header) :: a == b) <==> OneValueEach(header)
  {
    if OneValueEach(header) {
      forall a, b | IsHeaderMap(a, host, header) && IsHeaderMap(b, host, header) ensures a == b {
        forall n | n in a ensures a[n] == b[n] {
          assert MayBe(n, a[n], host, header) && MayBe(n, b[n], host, header);
        }
        assert a.Keys == b.Keys;
      }
    } else {
      var j, k :| j in header && k in header && Lower(j) == Lower(k) && Collapse(header[j]) != Collapse(header[k]);
      var m := SomeHeaderMap(host, header);
      WithValue(m, host, header, j);
      WithValue(m, host, header, k);
      assert m[Lower(j) := Collapse(header[j])][Lower(j)] != m[Lower(j) := Collapse(header[k])][Lower(j)];
    }
  }

  lemma WithValue(m: map<string, string>, host: string, header: Headers, k: string)
    requires IsHeaderMap(m, host, header) && k in header
    ensures IsHeaderMap(m[Lower(k) := Collapse(header[k])], host, header)
  {
    assert Spelled(Lower(k), header);
  }

  /** Walks the header map in any order. */
  method CollectHeaders(host: string, header: Headers) returns (m: map<string, string>)
    ensures IsHeaderMap(m, host, header)
  {
    m := map["host" := host];
    var todo := header.Keys;
    ghost var done: Headers := map[];
    while todo != {}
      invariant todo !! done.Keys && todo + done.Keys == header.Keys
      invariant forall k | k in done :: done[k] == header[k]
      invariant IsHeaderMap(m, host, done)
      decreases todo
    {
      var k :| k in todo;
      OneHeaderMore(m, host, done, k, header[k]);
      m := m[Lower(k) := Collapse(header[k])];
      done := done[k := header[k]];
      todo := todo - {k};
    }
    assert done.Keys == header.Keys;
    assert done == header;
  }

  lemma OneHeaderMore(m: map<string, string>, host: string, done: Headers, k: string, vs: seq<string>)
    requires IsHeaderMap(m, host, done) && k !in done
    ensures IsHeaderMap(m[Lower(k) := Collapse(vs)], host, done[k := vs])
  {
    var more := done[k := vs];
    var m' := m[Lower(k) := Collapse(vs)];
    assert k in more && more[k] == vs;
    assert forall j | j in done :: j in more && more[j] == done[j];
    forall n ensures Spelled(n, more) <==> Spelled(n, done) || n == Lower(k) {
    }
    forall n | n in m' ensures MayBe(n, m'[n], host, more) {
      if n != Lower(k) {
        assert MayBe(n, m[n], host, done);
      }
    }
  }

  ghost function HeaderNames(m: map<string, string>): (names: seq<string>)
    ensures forall n :: n in names <==> n in m
    ensures Sorted(Less, names) && Lists(names, m.Keys)
  {
    StringOrder();
    ListsMembers(Ordered(Less, m.Keys), m.Keys);
    Ordered(Less, m.Keys)
  }

  function HeaderLine(n: string, v: string): string {
    n + ":" + v
  }

  function HeaderLines(names: seq<string>, m: map<string, string>): (ls: seq<string>)
    requires forall n | n in names :: n in m
    ensures |ls| == |names| && forall i | 0 <= i < |ls| :: ls[i] == HeaderLine(names[i], m[names[i]])
  {
    if names == [] then [] else
      var k := |names| - 1;
      HeaderLines(names[..k], m) + [HeaderLine(names[k], m[names[k]])]
  }

  /** White space in `t` is single spaces between words. */
  ghost predicate SinglySpaced(t: string) {
    exists ws :: SpacedWords(ws, t)
  }

  ghost predicate SpacedWords(ws: seq<string>, t: string) {
    (forall w | w in ws :: Word(w)) && t == Join(ws, " ")
  }

  /** The one singly spaced text with the words of the values, a comma between values. */
  lemma CollapseIff(vs: seq<string>, t: string)
    ensures t == Collapse(vs) <==> SinglySpaced(t) && Fields(t) == Fields(Join(vs, ","))
  {
    var ws := Fields(Join(vs, ","));
    assert forall w | w in ws :: Word(w);
    FieldsOfJoin(ws);
    if t == Collapse(vs) {
      assert SpacedWords(ws, t);
    }
    if us :| SpacedWords(us, t) {
      FieldsOfJoin(us);
    }
  }

  // ---------------------------------------------------------------- the canonical request

  datatype Canonical = Canonical(http: string, path: string, query: string, headers: map<string, string>, hash: string)

  /** The six parts, joined by newlines. */
  ghost function CanonicalText(c: Canonical): string {
    var names := HeaderNames(c.headers);
    Join([c.http, c.path, c.query, Unlines(HeaderLines(names, c.headers)), Join(names, ";"), c.hash], "\n")
  }

  method BuildCanonical(http: string, path: string, q: Values, m: map<string, string>, hash: string)
    returns (text: string, signed: string)
    ensures text == CanonicalText(Canonical(http, CanonicalPath(path), CanonicalQuery(q), m, hash))
    ensures signed == Join(HeaderNames(m), ";")
  {
    var names := SortHeaderNames(m);
    var block := BuildBlock(names, m);
    signed := Join(names, ";");
    var p := BuildPath(path);
    var query := BuildQuery(q);
    text := Join([http, p, query, block, signed, hash], "\n");
  }

  method SortHeaderNames(m: map<string, string>) returns (names: seq<string>)
    ensures names == HeaderNames(m)
  {
    names := ListKeys(m.Keys);
    names := SortStrings(names);
    StringOrder();
    OrderedIs(Less, m.Keys, names);
  }

  method BuildBlock(names: seq<string>, m: map<string, string>) returns (block: string)
    requires forall n | n in names :: n in m
    ensures block == Unlines(HeaderLines(names, m))
  {
    block := "";
    for i := 0 to |names|
      invariant block == Unlines(HeaderLines(names[..i], m))
    {
      assert names[i] in names;
      assert names[..i + 1][..i] == names[..i];
      var line := HeaderLine(names[i], m[names[i]]);
      UnlinesAppend(HeaderLines(names[..i], m), [line]);
      OneLine(line);
      block := block + (line + "\n");
    }
    assert names[..|names|] == names;
  }

  lemma OneLine(l: string)
    ensures Unlines([l]) == l + "\n"
  {
    assert [l][1..] == [] && Unlines([]) == "";
  }

  // ---------------------------------------------------------------- reading it back

  /** A header name: not empty, none of ':', ';' or a newline in it. */
  ghost predicate Token(n: string) {
    n != "" && ':' !in n && ';' !in n && '\n' !in n
  }

  ghost predicate WellFormed(c: Canonical) {
    && '\n' !in c.http && '\n' !in c.path && '\n' !in c.query && '\n' !in c.hash
    && "host" in c.headers
    && forall n | n in c.headers :: Token(n) && '\n' !in c.headers[n]
  }

  /** The headers a block of lines names; the name ends at the first colon. */
  function ReadHeaders(ls: seq<string>): map<string, string> {
    if ls == [] then map[] else
      var l := ls[|ls| - 1];
      var n := IndexOf(l, ':');
      ReadHeaders(ls[..|ls| - 1])[l[..n] := if n < |l| then l[n + 1..] else ""]
  }

  /** Splits a canonical request into its lines and names their parts; also yields SignedHeaders. */
  function ReadCanonical(text: string): Option<(Canonical, seq<string>)> {
    ReadParts(Split(text, '\n'))
  }

  function ReadParts(ls: seq<string>): Option<(Canonical, seq<string>)> {
    var n := |ls|;
    if n < 6 then None
    else Some((Canonical(ls[0], ls[1], ls[2], ReadHeaders(ls[3..n - 3]), ls[n - 1]), Split(ls[n - 2], ';')))
  }

  lemma {:induction false} ReadOfHeaderLines(names: seq<string>, m: map<string, string>)
    requires forall n | n in names :: n in m && ':' !in n
    requires forall i, j | 0 <= i < j < |names| :: names[i] != names[j]
    ensures var r := ReadHeaders(HeaderLines(names, m));
            (forall n :: n in r <==> n in names) && forall n | n in names :: r[n] == m[n]
  {
    if names != [] {
      var front, last := names[..|names| - 1], names[|names| - 1];
      ReadOfHeaderLines(front, m);
      assert last in names;
      FrontLast(names);
      ReadSnoc(HeaderLines(front, m), last, m[last]);
    }
  }

  lemma ReadSnoc(ls: seq<string>, n: string, v: string)
    requires ':' !in n
    ensures ReadHeaders(ls + [HeaderLine(n, v)]) == ReadHeaders(ls)[n := v]
  {
    IndexOfHead(n, ':', v);
    assert (ls + [HeaderLine(n, v)])[..|ls|] == ls;
  }

  /** A block of lines and the text after it, split again. */
  lemma {:induction false} JoinOfBlock(ls: seq<string>, rest: seq<string>)
    requires rest != []
    ensures Unlines(ls) + "\n" + Join(rest, "\n") == Join(ls + [""] + rest, "\n")
  {
    if ls == [] {
      assert [] + [""] + rest == [""] + rest && ([""] + rest)[1..] == rest;
    } else {
      JoinOfBlock(ls[1..], rest);
      var all := ls + [""] + rest;
      assert all[1..] == ls[1..] + [""] + rest;
    }
  }

  lemma TextAsLines(c: Canonical)
    ensures var names := HeaderNames(c.headers);
            CanonicalText(c) == Join([c.http, c.path, c.query] + (HeaderLines(names, c.headers) + [""] + [Join(names, ";"), c.hash]), "\n")
  {
    var names := HeaderNames(c.headers);
    var head, tail, block := [c.http, c.path, c.query], [Join(names, ";"), c.hash], HeaderLines(names, c.headers);
    JoinOfBlock(block, tail);
    JoinAppend(head, block + [""] + tail, "\n");
    var six := [c.http, c.path, c.query, Unlines(block), Join(names, ";"), c.hash];
    assert six == head + ([Unlines(block)] + tail);
    JoinAppend(head, [Unlines(block)] + tail, "\n");
    JoinAppend([Unlines(block)], tail, "\n");
  }

  lemma LinesFree(c: Canonical)
    requires WellFormed(c)
    ensures var names := HeaderNames(c.headers);
            forall l | l in [c.http, c.path, c.query] + (HeaderLines(names, c.headers) + [""] + [Join(names, ";"), c.hash]) :: '\n' !in l
  {
    var names := HeaderNames(c.headers);
    JoinFree(names, ";", '\n');
    forall l | l in HeaderLines(names, c.headers) ensures '\n' !in l {
      var i :| 0 <= i < |names| && HeaderLines(names, c.headers)[i] == l;
      assert names[i] in names;
    }
  }

  /** The canonical request determines its inputs: reading it gives back
      method, path, query, the header map and the payload hash, and
      SignedHeaders is exactly the block's names. */
  lemma CanonicalRoundTrip(c: Canonical)
    requires WellFormed(c)
    ensures ReadCanonical(CanonicalText(c)) == Some((c, HeaderNames(c.headers)))
  {
    var names := HeaderNames(c.headers);
    TextAsLines(c);
    LinesFree(c);
    SplitOfJoin([c.http, c.path, c.query] + (HeaderLines(names, c.headers) + [""] + [Join(names, ";"), c.hash]), '\n');
    PartsRoundTrip(c, names, HeaderLines(names, c.headers),
                   [c.http, c.path, c.query] + (HeaderLines(names, c.headers) + [""] + [Join(names, ";"), c.hash]));
  }

  lemma PartsRoundTrip(c: Canonical, names: seq<string>, block: seq<string>, ls: seq<string>)
    requires WellFormed(c) && names == HeaderNames(c.headers) && block == HeaderLines(names, c.headers)
    requires |ls| == |block| + 6 && ls[3..|ls| - 3] == block && ls[|ls| - 2] == Join(names, ";")
    requires ls[0] == c.http && ls[1] == c.path && ls[2] == c.query && ls[|ls| - 1] == c.hash
    ensures ReadParts(ls) == Some((c, names))
  {
    ListsMembers(names, c.headers.Keys);
    BlockRoundTrip(c.headers, names);
    assert "host" in names;
    SplitOfJoin(names, ';');
  }

  lemma BlockRoundTrip(m: map<string, string>, names: seq<string>)
    requires forall n :: n in names <==> n in m
    requires forall n | n in names :: ':' !in n
    requires forall i, j | 0 <= i < j < |names| :: names[i] != names[j]
    ensures ReadHeaders(HeaderLines(names, m)) == m
  {
    ReadOfHeaderLines(names, m);
    SameMap(ReadHeaders(HeaderLines(names, m)), m);
  }

  lemma SameMap(a: map<string, string>, b: map<string, string>)
    requires (forall n :: n in a <==> n in b) && forall n | n in b :: a[n] == b[n]
    ensures a == b
  {
  }

  lemma CanonicalInjective(a: Canonical, b: Canonical)
    requires WellFormed(a) && WellFormed(b)
    ensures CanonicalText(a) == CanonicalText(b) <==> a == b
  {
    CanonicalRoundTrip(a);
    CanonicalRoundTrip(b);
  }

  /** Every name once, in strictly ascending order. */
  lemma SignedHeadersAscend(m: map<string, string>)
    ensures forall i, j | 0 <= i < j < |HeaderNames(m)| :: Less(HeaderNames(m)[i], HeaderNames(m)[j])
  {
    StringOrder();
    ListsMembers(HeaderNames(m), m.Keys);
  }

  lemma CollapseOneLine(vs: seq<string>)
    ensures '\n' !in Collapse(vs)
  {
    JoinFree(Fields(Join(vs, ",")), " ", '\n');
  }

  lemma LowerToken(n: string)
    requires Token(n)
    ensures Token(Lower(n))
  {
  }

  /** What signV4 puts together from a request is always well formed, if the
      request's method, host and payload hash are one line and its header names
      are tokens: white space in header values is gone, and path and query are encoded. */
  lemma SignedRequestWellFormed(http: string, path: string, q: Values, host: string, header: Headers, m: map<string, string>, hash: string)
    requires '\n' !in http && '\n' !in host && '\n' !in hash && BytesQuery(q) && '\n' !in path
    requires IsHeaderMap(m, host, header) && forall k | k in header :: Token(k)
    ensures WellFormed(Canonical(http, CanonicalPath(path), CanonicalQuery(q), m, hash))
  {
    PathOneLine(path);
    QueryOneLine(q);
    HeadersOneLine(host, header, m);
  }

  lemma QueryOneLine(q: Values)
    requires BytesQuery(q)
    ensures '\n' !in CanonicalQuery(q)
  {
    PrintedQuery(SortedPairs(q));
  }

  lemma HeadersOneLine(host: string, header: Headers, m: map<string, string>)
    requires '\n' !in host && IsHeaderMap(m, host, header) && forall k | k in header :: Token(k)
    ensures forall n | n in m :: Token(n) && '\n' !in m[n]
  {
    forall n | n in m ensures Token(n) && '\n' !in m[n] {
      assert MayBe(n, m[n], host, header);
      if k :| k in header && Lower(k) == n && m[n] == Collapse(header[k]) {
        LowerToken(k);
        CollapseOneLine(header[k]);
      }
    }
  }

  lemma PathOneLine(p: string)
    requires '\n' !in p
    ensures '\n' !in CanonicalPath(p)
  {
    var segs := Split(p, '/');
    SplitMembers(p, '/', '\n');
    forall s | s in CanonSegments(segs) ensures '\n' !in s {
      var i :| 0 <= i < |segs| && CanonSegments(segs)[i] == s;
      assert segs[i] in segs;
      match Unescape(segs[i])
      case Some(d) => EscapeAlphabet(d);
      case None =>
    }
    JoinFree(CanonSegments(segs), "/", '\n');
  }

  lemma {:induction false} SplitMembers(s: string, c: char, d: char)
    requires d !in s
    ensures forall p | p in Split(s, c) :: d !in p
    decreases |s|
  {
    var n := IndexOf(s, c);
    if n < |s| {
      SplitMembers(s[n + 1..], c, d);
    }
  }

  /** Two requests with the same canonical text agree in everything that is
      signed: method, decoded path, query pairs, headers and payload hash; and
      requests that agree in all that have the same text. */
  lemma SameTextIff(http: string, path: string, q: Values, m: map<string, string>, hash: string,
                    http': string, path': string, q': Values, m': map<string, string>, hash': string)
    requires WellFormed(Canonical(http, CanonicalPath(path), CanonicalQuery(q), m, hash))
    requires WellFormed(Canonical(http', CanonicalPath(path'), CanonicalQuery(q'), m', hash'))
    requires BytesQuery(q) && BytesQuery(q')
    requires Bytes(path) && ValidlyEscaped(path) && Bytes(path') && ValidlyEscaped(path')
    ensures ValidlyEscaped(Rooted(path)) && ValidlyEscaped(Rooted(path'))
    ensures CanonicalText(Canonical(http, CanonicalPath(path), CanonicalQuery(q), m, hash))
            == CanonicalText(Canonical(http', CanonicalPath(path'), CanonicalQuery(q'), m', hash'))
            <==> http == http' && DecodedSegments(Rooted(path)) == DecodedSegments(Rooted(path'))
                 && Bag(q) == Bag(q') && m == m' && hash == hash'
  {
    CanonicalInjective(Canonical(http, CanonicalPath(path), CanonicalQuery(q), m, hash),
                       Canonical(http', CanonicalPath(path'), CanonicalQuery(q'), m', hash'));
    PathsAgreeIff(path, path');
    QueriesAgreeIff(q, q');
  }

  // ---------------------------------------------------------------- signing in place

  type Credentials = Tokens.Credentials

  const EMPTY_SHA256 := "e3b0c44298fc1c149afbf4c8996fb924" + "27ae41e4649b934ca495991b7852b855"

  /** http.Header.Get on a canonically spelled name: the first value, or nothing. */
  function Get(header: Headers, name: string): string {
    if name in header && header[name] != [] then header[name][0] else ""
  }

  /** The headers a request carries while it is signed. */
  function Prepared(header: Headers, c: Credentials, amzDate: string): Headers {
    var dated := header["X-Amz-Date" := [amzDate]];
    var hashed := if Get(dated, "X-Amz-Content-Sha256") == "" then dated["X-Amz-Content-Sha256" := [EMPTY_SHA256]] else dated;
    if c.sessionToken != "" then hashed["X-Amz-Security-Token" := [c.sessionToken]] else hashed
  }

  /** SHA-256 in hex and HMAC-SHA256 stay uninterpreted. */
  datatype Hashes = Hashes(hex: string -> string, hmac: (string, string) -> string, toHex: string -> string)

  function SigningKey(h: Hashes, secret: string, day: string, region: string, service: string): string {
    h.hmac(h.hmac(h.hmac(h.hmac("AWS4" + secret, day), region), service), "aws4_request")
  }

  function Scope(day: string, region: string, service: string): string {
    day + "/" + region + "/" + service + "/" + "aws4_request"
  }

  function Authorization(h: Hashes, c: Credentials, scope: string, signed: string, amzDate: string, key: string, text: string): string {
    "AWS4-HMAC-SHA256" + " " + ("Credential=" + (c.accessKeyID + "/" + scope + ",") + " "
    + ("SignedHeaders=" + (signed + ",") + " "
       + ("Signature=" + h.toHex(h.hmac(key, "AWS4-HMAC-SHA256" + "\n" + amzDate + "\n" + scope + "\n" + h.hex(text))))))
  }

  /** Hashing the parts one into the other, from the first on. */
  function HashInto(hmac: (string, string) -> string, key: string, parts: seq<string>): string
    decreases |parts|
  {
    if parts == [] then key else HashInto(hmac, hmac(key, parts[0]), parts[1..])
  }

  lemma HashFour(hmac: (string, string) -> string, key: string, a: string, b: string, c: string, d: string)
    ensures HashInto(hmac, key, [a, b, c, d]) == hmac(hmac(hmac(hmac(key, a), b), c), d)
  {
    var k := hmac(hmac(key, a), b);
    assert HashInto(hmac, key, [a, b, c, d]) == HashInto(hmac, k, [c, d]) by {
      assert [a, b, c, d][1..] == [b, c, d] && [b, c, d][1..] == [c, d];
    }
    var l := hmac(k, c);
    assert HashInto(hmac, l, [d]) == hmac(l, d) by {
      assert [d][1..] == [];
    }
    assert HashInto(hmac, k, [c, d]) == HashInto(hmac, l, [d]) by {
      assert [c, d][1..] == [d];
    }
  }

  /** The signing key is the secret with the parts of the scope hashed into it, in their order. */
  lemma KeyFollowsScope(h: Hashes, secret: string, day: string, region: string, service: string)
    requires '/' !in day && '/' !in region && '/' !in service
    ensures Split(Scope(day, region, service), '/') == [day, region, service, "aws4_request"]
    ensures SigningKey(h, secret, day, region, service)
            == HashInto(h.hmac, "AWS4" + secret, Split(Scope(day, region, service), '/'))
  {
    assert '/' !in "aws4_request";
    JoinFour(day, region, service, "aws4_request", "/");
    SplitOfJoin([day, region, service, "aws4_request"], '/');
    HashFour(h.hmac, "AWS4" + secret, day, region, service, "aws4_request");
  }

  /** What the Authorization header says, word by word. */
  lemma AuthorizationReads(h: Hashes, c: Credentials, scope: string, signed: string, amzDate: string, key: string, text: string)
    requires SpaceFree(c.accessKeyID) && SpaceFree(scope) && SpaceFree(signed)
    requires forall s :: SpaceFree(h.toHex(s))
    ensures var toSign := Join(["AWS4-HMAC-SHA256", amzDate, scope, h.hex(text)], "\n");
            Fields(Authorization(h, c, scope, signed, amzDate, key, text))
            == ["AWS4-HMAC-SHA256", "Credential=" + (c.accessKeyID + "/" + scope + ","), "SignedHeaders=" + (signed + ","),
                "Signature=" + h.toHex(h.hmac(key, toSign))]
  {
    JoinFour("AWS4-HMAC-SHA256", amzDate, scope, h.hex(text), "\n");
    var sig := h.toHex(h.hmac(key, Join(["AWS4-HMAC-SHA256", amzDate, scope, h.hex(text)], "\n")));
    FourWords(c.accessKeyID + "/" + scope + ",", signed + ",", sig);
  }

  lemma FourWords(a: string, b: string, d: string)
    requires SpaceFree(a) && SpaceFree(b) && SpaceFree(d)
    ensures Fields("AWS4-HMAC-SHA256" + " " + ("Credential=" + a + " " + ("SignedHeaders=" + b + " " + ("Signature=" + d))))
            == ["AWS4-HMAC-SHA256", "Credential=" + a, "SignedHeaders=" + b, "Signature=" + d]
  {
    assert Word("AWS4-HMAC-SHA256");
    Prefixed("Credential=", a);
    Prefixed("SignedHeaders=", b);
    Prefixed("Signature=", d);
    FieldsOfFour("AWS4-HMAC-SHA256", "Credential=" + a, "SignedHeaders=" + b, "Signature=" + d);
  }

  lemma Prefixed(name: string, value: string)
    requires Word(name) && SpaceFree(value)
    ensures Word(name + value)
  {
  }

  lemma FieldsOfFour(w: string, a: string, b: string, d: string)
    requires Word(w) && Word(a) && Word(b) && Word(d)
    ensures Fields(w + " " + (a + " " + (b + " " + d))) == [w, a, b, d]
  {
    JoinFour(w, a, b, d, " ");
    FieldsOfJoin([w, a, b, d]);
  }

  /** Whatever was on the request: host, date and payload hash are signed, and the
      session token of temporary credentials. */
  lemma AlwaysSigned(header: Headers, c: Credentials, amzDate: string, host: string, m: map<string, string>)
    requires IsHeaderMap(m, host, Prepared(header, c, amzDate))
    ensures "host" in m && "x-amz-date" in m && "x-amz-content-sha256" in m
    ensures c.sessionToken != "" ==> "x-amz-security-token" in m
  {
    var p := Prepared(header, c, amzDate);
    LowerCaseNames();
    IsSpelled(p, "X-Amz-Date");
    IsSpelled(p, "X-Amz-Content-Sha256");
    if c.sessionToken != "" {
      IsSpelled(p, "X-Amz-Security-Token");
    }
  }

  /** The date is set, a payload hash that is there is kept, and no header but
      these three changes. */
  lemma PreparedKeeps(header: Headers, c: Credentials, amzDate: string, k: string)
    ensures var p := Prepared(header, c, amzDate);
            && Get(p, "X-Amz-Date") == amzDate
            && (Get(header, "X-Amz-Content-Sha256") != "" ==> p["X-Amz-Content-Sha256"] == header["X-Amz-Content-Sha256"])
            && (Get(header, "X-Amz-Content-Sha256") == "" ==> Get(p, "X-Amz-Content-Sha256") == EMPTY_SHA256)
            && (c.sessionToken != "" ==> Get(p, "X-Amz-Security-Token") == c.sessionToken)
            && (k !in {"X-Amz-Date", "X-Amz-Content-Sha256", "X-Amz-Security-Token"} ==>
                  (k in p <==> k in header) && (k in header ==> p[k] == header[k]))
  {
    ThreeNames();
  }

  lemma ThreeNames()
    ensures "X-Amz-Date" != "X-Amz-Content-Sha256" && "X-Amz-Date" != "X-Amz-Security-Token"
    ensures "X-Amz-Content-Sha256" != "X-Amz-Security-Token"
  {
    assert "X-Amz-Date"[6] == 'D' && "X-Amz-Content-Sha256"[6] == 'C' && "X-Amz-Security-Token"[6] == 'S';
  }

  lemma IsSpelled(header: Headers, k: string)
    requires k in header
    ensures Spelled(Lower(k), header)
  {
  }

  lemma LowerCaseNames()
    ensures Lower("X-Amz-Date") == "x-amz-date"
    ensures Lower("X-Amz-Content-Sha256") == "x-amz-content-sha256"
    ensures Lower("X-Amz-Security-Token") == "x-amz-security-token"
  {
  }

  class Request {
    const http: string
    const path: string
    const query: Values
    const host: string
    const urlHost: string
    var header: Headers

    constructor (http: string, path: string, query: Values, host: string, urlHost: string, header: Headers)
      ensures this.http == http && this.path == path && this.query == query
      ensures this.host == host && this.urlHost == urlHost && this.header == header
    {
      this.http, this.path, this.query, this.host, this.urlHost, this.header := http, path, query, host, urlHost, header;
    }

    function SignedHost(): (r: string)
      ensures host != "" ==> r == host
      ensures host == "" ==> r == urlHost
    {
      if host == "" then urlHost else host
    }

    /** Sets the date, hash and token headers, signs them with everything that
        was there, and adds Authorization. `m` is the map of signed headers. */
    method SignV4(c: Credentials, region: string, service: string, amzDate: string, h: Hashes)
      returns (ghost m: map<string, string>)
      requires |amzDate| >= 8
      modifies this
      ensures IsHeaderMap(m, SignedHost(), Prepared(old(header), c, amzDate))
      ensures var prepared := Prepared(old(header), c, amzDate);
              var scope := Scope(amzDate[..8], region, service);
              var text := CanonicalText(Canonical(http, CanonicalPath(path), CanonicalQuery(query), m,
                                                  Get(prepared, "X-Amz-Content-Sha256")));
              header == prepared["Authorization" :=
                [Authorization(h, c, scope, Join(HeaderNames(m), ";"), amzDate,
                               SigningKey(h, c.secretAccessKey, amzDate[..8], region, service), text)]]
    {
      Prepare(c, amzDate);
      var headers := CollectHeaders(SignedHost(), header);
      m := headers;
      var hash := Get(header, "X-Amz-Content-Sha256");
      var text, signed := BuildCanonical(http, path, query, headers, hash);
      Authorize(c, Scope(amzDate[..8], region, service), signed, amzDate,
                SigningKey(h, c.secretAccessKey, amzDate[..8], region, service), text, h);
    }

    method Prepare(c: Credentials, amzDate: string)
      modifies this
      ensures header == Prepared(old(header), c, amzDate)
    {
      header := header["X-Amz-Date" := [amzDate]];
      if Get(header, "X-Amz-Content-Sha256") == "" {
        header := header["X-Amz-Content-Sha256" := [EMPTY_SHA256]];
      }
      if c.sessionToken != "" {
        header := header["X-Amz-Security-Token" := [c.sessionToken]];
      }
    }

    method Authorize(c: Credentials, scope: string, signed: string, amzDate: string, key: string, text: string, h: Hashes)
      modifies this
      ensures header == old(header)["Authorization" := [Authorization(h, c, scope, signed, amzDate, key, text)]]
    {
      header := header["Authorization" := [Authorization(h, c, scope, signed, amzDate, key, text)]];
    }
  }
}
