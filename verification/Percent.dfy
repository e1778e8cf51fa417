/** Percent-encoding (sections 2.1 and 2.3 of RFC 3986) as the AWS signer does it. */
module Percent {
  import opened Text

  predicate Unreserved(c: char) {
    ('A' <= c <= 'Z') || ('a' <= c <= 'z') || ('0' <= c <= '9') || c == '-' || c == '_' || c == '.' || c == '~'
  }

  /** A Go string: every char is one byte. */
  ghost predicate Bytes(s: string) {
    forall i | 0 <= i < |s| :: s[i] as int < 256
  }

  function HexDigit(n: nat): (c: char)
    requires n < 16
    ensures HexValue(c) == Some(n) && Unreserved(c)
  {
    if n < 10 then '0' + n as char else 'A' + (n - 10) as char
  }

  /** Either case is accepted, as url.PathUnescape does. */
  function HexValue(c: char): (r: Option<nat>)
    ensures r.Some? ==> r.value < 16
  {
    if '0' <= c <= '9' then Some(c as nat - '0' as nat)
    else if 'a' <= c <= 'f' then Some(c as nat - 'a' as nat + 10)
    else if 'A' <= c <= 'F' then Some(c as nat - 'A' as nat + 10)
    else None
  }

  /** %02X, or the char itself. (The remainder only matters outside Bytes.) */
  function EscapeChar(c: char): (r: string)
    ensures |r| == 1 || |r| == 3
    ensures forall d | d in r :: Unreserved(d) || d == '%'
  {
    if Unreserved(c) then [c] else ['%', HexDigit(c as nat / 16 % 16), HexDigit(c as nat % 16)]
  }

  function Escape(s: string): string {
    if s == "" then "" else EscapeChar(s[0]) + Escape(s[1..])
  }

  /** awsEscape */
  method AwsEscape(s: string) returns (b: string)
    ensures b == Escape(s)
  {
    b := "";
    for i := 0 to |s|
      invariant b == Escape(s[..i])
    {
      EscapeAppend(s[..i], [s[i]]);
      assert s[..i + 1] == s[..i] + [s[i]];
      assert [s[i]][1..] == "" && Escape([s[i]]) == EscapeChar(s[i]) + "";
      b := b + EscapeChar(s[i]);
    }
    assert s[..|s|] == s;
  }

  lemma {:induction false} EscapeAppend(a: string, b: string)
    ensures Escape(a + b) == Escape(a) + Escape(b)
  {
    if a == "" {
      assert a + b == b;
    } else {
      EscapeAppend(a[1..], b);
      assert a + b == [a[0]] + (a[1..] + b);
      Assoc(EscapeChar(a[0]), Escape(a[1..]), Escape(b));
    }
  }

  /** url.PathUnescape: None where Go reports an error. */
  function Unescape(s: string): Option<string> {
    if s == "" then Some("")
    else if s[0] != '%' then Cons(s[0], Unescape(s[1..]))
    else if |s| < 3 || HexValue(s[1]).None? || HexValue(s[2]).None? then None
    else Cons((16 * HexValue(s[1]).value + HexValue(s[2]).value) as char, Unescape(s[3..]))
  }

  function Cons(c: char, r: Option<string>): Option<string> {
    if r.None? then None else Some([c] + r.value)
  }

  // ---------------------------------------------------------------- the one encoding AWS accepts

  /** Letters, digits and "-", "_", ".", "~" stand for themselves. */
  predicate Keeps(c: char) {
    || 'A' <= c <= 'Z' || 'a' <= c <= 'z' || '0' <= c <= '9'
    || c == '-' || c == '_' || c == '.' || c == '~'
  }

  predicate UpperHex(c: char) {
    '0' <= c <= '9' || 'A' <= c <= 'F'
  }

  /** A triplet of "%" and two hex digits, for a byte that does not stand for itself. */
  predicate Triplet(t: string) {
    |t| == 3 && t[0] == '%' && UpperHex(t[1]) && UpperHex(t[2]) && forall c | Unescape(t) == Some([c]) :: !Keeps(c)
  }

  predicate NormalForm(t: string) {
    || t == ""
    || (Keeps(t[0]) && NormalForm(t[1..]))
    || (|t| >= 3 && Triplet(t[..3]) && NormalForm(t[3..]))
  }

  lemma KeepsIff(c: char)
    ensures Keeps(c) <==> Unreserved(c)
  {
  }

  lemma UpperHexIff(c: char)
    ensures UpperHex(c) <==> HexValue(c).Some? && c == HexDigit(HexValue(c).value)
  {
  }

  /** The encoding is in normal form, and nothing else that decodes to the text is. */
  lemma EscapeIff(s: string, t: string)
    requires Bytes(s)
    ensures Unescape(t) == Some(s) && NormalForm(t) <==> t == Escape(s)
  {
    UnescapeOfEscape(s);
    EscapeIsNormal(s);
    if Unescape(t) == Some(s) && NormalForm(t) {
      NormalIsEscape(t);
    }
  }

  lemma {:induction false} EscapeIsNormal(s: string)
    requires Bytes(s)
    ensures NormalForm(Escape(s))
  {
    if s != "" {
      EscapeIsNormal(s[1..]);
      var c, rest := s[0], Escape(s[1..]);
      KeepsIff(c);
      if Unreserved(c) {
        assert Escape(s)[1..] == rest;
      } else {
        TripletOf(c);
        assert Escape(s)[..3] == EscapeChar(c) && Escape(s)[3..] == rest;
      }
    }
  }

  lemma TripletOf(c: char)
    requires c as int < 256 && !Unreserved(c)
    ensures Triplet(EscapeChar(c))
  {
    var t := EscapeChar(c);
    UnescapeChar(c, "");
    assert t + "" == t && Unescape("") == Some("") && [c] + "" == [c];
    KeepsIff(c);
    UpperHexIff(t[1]);
    UpperHexIff(t[2]);
    forall d | Unescape(t) == Some([d]) ensures !Keeps(d) {
      assert [d][0] == [c][0];
    }
  }

  lemma {:induction false} NormalIsEscape(t: string)
    requires NormalForm(t) && Unescape(t).Some?
    ensures t == Escape(Unescape(t).value)
    decreases |t|
  {
    if t == "" {
    } else if Keeps(t[0]) {
      KeepsIff(t[0]);
      NormalIsEscape(t[1..]);
      EscapeCons(t[0], Unescape(t[1..]).value);
      assert t == [t[0]] + t[1..];
    } else {
      NormalIsEscape(t[3..]);
      TripletThen(t);
    }
  }

  lemma TripletThen(t: string)
    requires |t| >= 3 && Triplet(t[..3]) && Unescape(t).Some? && Unescape(t[3..]).Some?
    requires t[3..] == Escape(Unescape(t[3..]).value)
    ensures t == Escape(Unescape(t).value)
  {
    TripletIsEscape(t[..3]);
    assert t[..3][0] == t[0] && t[..3][1] == t[1] && t[..3][2] == t[2];
    var c := (16 * HexValue(t[1]).value + HexValue(t[2]).value) as char;
    EscapeCons(c, Unescape(t[3..]).value);
    assert t == t[..3] + t[3..];
  }

  lemma EscapeCons(c: char, s: string)
    ensures Escape([c] + s) == EscapeChar(c) + Escape(s)
  {
    assert ([c] + s)[1..] == s;
  }

  lemma TripletIsEscape(t: string)
    requires Triplet(t)
    ensures HexValue(t[1]).Some? && HexValue(t[2]).Some?
    ensures t == EscapeChar((16 * HexValue(t[1]).value + HexValue(t[2]).value) as char)
  {
    UpperHexIff(t[1]);
    UpperHexIff(t[2]);
    var h, l := HexValue(t[1]).value, HexValue(t[2]).value;
    var c := (16 * h + l) as char;
    UnescapeTriplet(t, h, l);
    KeepsIff(c);
    Nibbles(h, l);
    assert t == [t[0], t[1], t[2]];
  }

  lemma UnescapeTriplet(t: string, h: nat, l: nat)
    requires |t| == 3 && t[0] == '%' && HexValue(t[1]) == Some(h) && HexValue(t[2]) == Some(l)
    ensures Unescape(t) == Some([(16 * h + l) as char])
  {
    var c := (16 * h + l) as char;
    assert t[3..] == "" && [c] + "" == [c];
  }

  lemma Nibbles(h: nat, l: nat)
    requires h < 16 && l < 16
    ensures (16 * h + l) / 16 % 16 == h && (16 * h + l) % 16 == l
  {
  }

  predicate HexIs(c: char, n: int) {
    0 <= n < 16 && (c == "0123456789abcdef"[n] || c == "0123456789ABCDEF"[n])
  }

  lemma HexValueIff(c: char)
    ensures forall n :: HexIs(c, n) <==> HexValue(c).Some? && HexValue(c).value == n
  {
  }

  /** Char by char what a text stands for: "%" and two hex digits of either case
      for a byte, anything else for itself. */
  ghost predicate StandsFor(t: string, s: string) {
    if t == "" then s == ""
    else if t[0] != '%' then s != "" && s[0] == t[0] && StandsFor(t[1..], s[1..])
    else s != "" && |t| >= 3 && StandsFor(t[3..], s[1..]) && ByteOf(t[1], t[2], s[0])
  }

  ghost predicate ByteOf(c: char, d: char, b: char) {
    exists h, l :: HexIs(c, h) && HexIs(d, l) && b as int == 16 * h + l
  }

  lemma ByteOfIff(c: char, d: char, b: char)
    ensures ByteOf(c, d, b) <==>
              HexValue(c).Some? && HexValue(d).Some? && b == (16 * HexValue(c).value + HexValue(d).value) as char
  {
    HexValueIff(c);
    HexValueIff(d);
    if HexValue(c).Some? && HexValue(d).Some? {
      assert HexIs(c, HexValue(c).value) && HexIs(d, HexValue(d).value);
    }
  }

  /** Decoding yields what the text stands for, and fails if it stands for nothing. */
  lemma {:induction false} UnescapeIff(t: string, s: string)
    ensures Unescape(t) == Some(s) <==> StandsFor(t, s)
    decreases |t|
  {
    if t != "" && s != "" {
      assert s == [s[0]] + s[1..];
      if t[0] != '%' {
        UnescapeIff(t[1..], s[1..]);
        ConsIff(t[0], Unescape(t[1..]), s);
      } else if |t| >= 3 {
        UnescapeIff(t[3..], s[1..]);
        ByteOfIff(t[1], t[2], s[0]);
        if HexValue(t[1]).Some? && HexValue(t[2]).Some? {
          ConsIff((16 * HexValue(t[1]).value + HexValue(t[2]).value) as char, Unescape(t[3..]), s);
        }
      }
    }
  }

  lemma ConsIff(c: char, r: Option<string>, s: string)
    requires s != ""
    ensures Cons(c, r) == Some(s) <==> s[0] == c && r == Some(s[1..])
  {
    assert s == [s[0]] + s[1..];
    if r.Some? {
      assert ([c] + r.value)[1..] == r.value;
    }
  }

  // ---------------------------------------------------------------- decoding undoes it

  lemma UnescapeChar(c: char, rest: string)
    requires c as int < 256
    ensures Unescape(EscapeChar(c) + rest) == Cons(c, Unescape(rest))
  {
    var s := EscapeChar(c) + rest;
    if Unreserved(c) {
      assert s[1..] == rest;
    } else {
      var n := c as nat;
      assert n / 16 % 16 == n / 16;
      assert s[3..] == rest;
      assert 16 * (n / 16) + n % 16 == n;
    }
  }

  /** Decoding undoes encoding, on every byte string. */
  lemma {:induction false} UnescapeOfEscape(s: string)
    requires Bytes(s)
    ensures Unescape(Escape(s)) == Some(s)
  {
    if s != "" {
      UnescapeOfEscape(s[1..]);
      UnescapeChar(s[0], Escape(s[1..]));
      assert s == [s[0]] + s[1..];
    }
  }

  lemma {:induction false} EscapeAlphabet(s: string)
    ensures forall c | c in Escape(s) :: Unreserved(c) || c == '%'
  {
    if s != "" {
      EscapeAlphabet(s[1..]);
    }
  }

  lemma {:induction false} UnescapeBytes(s: string)
    requires Bytes(s)
    ensures Unescape(s).Some? ==> Bytes(Unescape(s).value)
  {
    if s != "" {
      if s[0] != '%' {
        UnescapeBytes(s[1..]);
      } else if |s| >= 3 {
        UnescapeBytes(s[3..]);
      }
    }
  }

  // ---------------------------------------------------------------- order

  /** The first place where two strings differ puts an unreserved char below a reserved one. */
  predicate Clash(a: string, b: string) {
    a != "" && b != "" &&
    if a[0] == b[0] then Clash(a[1..], b[1..])
    else a[0] < b[0] && Unreserved(a[0]) && !Unreserved(b[0])
  }

  lemma EscapeCharOrder(c: char, d: char, x: string, y: string)
    requires c as int < 256 && d as int < 256 && c < d
    ensures Less(EscapeChar(c) + x, EscapeChar(d) + y) <==> !(Unreserved(c) && !Unreserved(d))
    ensures EscapeChar(c) + x != EscapeChar(d) + y
  {
    var e, f := EscapeChar(c), EscapeChar(d);
    var a, b := e + x, f + y;
    assert a[0] == e[0] && b[0] == f[0];
    if !Unreserved(c) && !Unreserved(d) {
      HexOrder(c as nat, d as nat);
      assert a == "%" + ([e[1], e[2]] + x) && b == "%" + ([f[1], f[2]] + y);
      LessPrefix("%", [e[1], e[2]] + x, [f[1], f[2]] + y);
      assert ([e[1], e[2]] + x)[1..] == [e[2]] + x && ([f[1], f[2]] + y)[1..] == [f[2]] + y;
      assert a[1] == e[1] && a[2] == e[2] && b[1] == f[1] && b[2] == f[2];
    }
  }

  lemma HexOrder(m: nat, n: nat)
    requires m < n < 256
    ensures var (a, b, c, d) := (HexDigit(m / 16 % 16), HexDigit(m % 16), HexDigit(n / 16 % 16), HexDigit(n % 16));
            a < c || (a == c && b < d)
  {
    assert m / 16 % 16 == m / 16 && n / 16 % 16 == n / 16;
    assert m == 16 * (m / 16) + m % 16 && n == 16 * (n / 16) + n % 16;
  }

  /** Encoding keeps the order of two strings exactly when they do not clash. */
  lemma {:induction false} EscapeOrder(a: string, b: string)
    requires Bytes(a) && Bytes(b) && Less(a, b)
    ensures Less(Escape(a), Escape(b)) <==> !Clash(a, b)
    ensures Escape(a) != Escape(b)
  {
    if a == "" {
    } else {
      if a[0] == b[0] {
        EscapeOrder(a[1..], b[1..]);
        var e := EscapeChar(a[0]);
        LessPrefix(e, Escape(a[1..]), Escape(b[1..]));
        assert Escape(a)[|e|..] == Escape(a[1..]) && Escape(b)[|e|..] == Escape(b[1..]);
      } else {
        EscapeCharOrder(a[0], b[0], Escape(a[1..]), Escape(b[1..]));
      }
    }
  }
}
