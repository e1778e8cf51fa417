/** UTF-8 validity as Go's decoder sees it (table 3-7 of the Unicode standard),
    and strings.ToValidUTF8 with an empty replacement. */
module Utf8 {
  import opened Text

  predicate In(s: string, i: nat, lo: int, hi: int) {
    i < |s| && lo <= s[i] as int <= hi
  }

  /** The length of the well-formed sequence at the front of `s`; 0 if there is none. */
  function RuneLength(s: string): (n: nat)
    ensures n <= |s|
  {
    if In(s, 0, 0x00, 0x7F) then 1
    else if In(s, 0, 0xC2, 0xDF) && In(s, 1, 0x80, 0xBF) then 2
    else if && (|| (In(s, 0, 0xE0, 0xE0) && In(s, 1, 0xA0, 0xBF))
                || (In(s, 0, 0xE1, 0xEC) && In(s, 1, 0x80, 0xBF))
                || (In(s, 0, 0xED, 0xED) && In(s, 1, 0x80, 0x9F))
                || (In(s, 0, 0xEE, 0xEF) && In(s, 1, 0x80, 0xBF)))
            && In(s, 2, 0x80, 0xBF) then 3
    else if && (|| (In(s, 0, 0xF0, 0xF0) && In(s, 1, 0x90, 0xBF))
                || (In(s, 0, 0xF1, 0xF3) && In(s, 1, 0x80, 0xBF))
                || (In(s, 0, 0xF4, 0xF4) && In(s, 1, 0x80, 0x8F)))
            && In(s, 2, 0x80, 0xBF) && In(s, 3, 0x80, 0xBF) then 4
    else 0
  }

  /** utf8.ValidString */
  predicate Valid(s: string) {
    s == "" || (RuneLength(s) > 0 && Valid(s[RuneLength(s)..]))
  }

  /** strings.ToValidUTF8(s, "") */
  function ToValid(s: string): string {
    if s == "" then ""
    else if RuneLength(s) > 0 then s[..RuneLength(s)] + ToValid(s[RuneLength(s)..])
    else ToValid(s[1..])
  }

  lemma {:induction false} ToValidIsValid(s: string)
    ensures Valid(ToValid(s))
  {
    if s != "" {
      var n := RuneLength(s);
      if n > 0 {
        ToValidIsValid(s[n..]);
        assert ToValid(s)[n..] == ToValid(s[n..]);
      } else {
        ToValidIsValid(s[1..]);
      }
    }
  }

  lemma {:induction false} ToValidOfValid(s: string)
    requires Valid(s)
    ensures ToValid(s) == s
  {
    if s != "" {
      ToValidOfValid(s[RuneLength(s)..]);
    }
  }

  /** Dropping invalid bytes changes nothing exactly when there are none. */
  lemma ToValidIdentity(s: string)
    ensures ToValid(s) == s <==> Valid(s)
  {
    ToValidIsValid(s);
    if Valid(s) {
      ToValidOfValid(s);
    }
  }

  /** Latin letters in ISO 8859-1 are not UTF-8: an accented byte is dropped. */
  lemma InvalidByteIsDropped()
    ensures !Valid(['c', 'a', 'f', 0xE9 as char])
    ensures ToValid(['c', 'a', 'f', 0xE9 as char]) == "caf" == ToValid("caf")
  {
    var s := ['c', 'a', 'f', 0xE9 as char];
    assert s[1..] == ['a', 'f', 0xE9 as char];
    assert s[1..][1..] == ['f', 0xE9 as char];
    assert s[1..][1..][1..] == [0xE9 as char];
    assert s[1..][1..][1..][1..] == "";
    assert ToValid([0xE9 as char]) == "" && !Valid([0xE9 as char]);
    assert ToValid(['f', 0xE9 as char]) == "f";
    assert ToValid(['a', 'f', 0xE9 as char]) == "af";
    ToValidIdentity(s);
    var t := "caf";
    assert t[1..] == "af" && t[1..][1..] == "f" && t[1..][1..][1..] == "";
    assert Valid("f") && Valid("af");
    ToValidOfValid(t);
  }

  // ---------------------------------------------------------------- code points

  /** A Unicode scalar value: a code point that is not a surrogate. */
  predicate Scalar(u: int) {
    0 <= u <= 0x10FFFF && !(0xD800 <= u <= 0xDFFF)
  }

  /** UTF-8 as section 3 of RFC 3629 defines it. */
  function Encode(u: int): string
    requires Scalar(u)
  {
    if u < 0x80 then [u as char]
    else if u < 0x800 then [(0xC0 + u / 64) as char, (0x80 + u % 64) as char]
    else if u < 0x10000 then [(0xE0 + u / 4096) as char, (0x80 + u / 64 % 64) as char, (0x80 + u % 64) as char]
    else [(0xF0 + u / 262144) as char, (0x80 + u / 4096 % 64) as char, (0x80 + u / 64 % 64) as char, (0x80 + u % 64) as char]
  }

  lemma EncodedLength(u: int, rest: string)
    requires Scalar(u)
    ensures RuneLength(Encode(u) + rest) == |Encode(u)|
  {
    var e, s := Encode(u), Encode(u) + rest;
    assert forall i | 0 <= i < |e| :: s[i] == e[i];
    if u < 0x80 {
    } else if u < 0x800 {
      assert In(s, 0, 0xC2, 0xDF) && In(s, 1, 0x80, 0xBF);
    } else if u < 0x10000 {
      assert In(s, 0, 0xE0, 0xEF) && In(s, 1, 0x80, 0xBF) && In(s, 2, 0x80, 0xBF);
      assert s[0] as int == 0xE0 ==> s[1] as int >= 0xA0;
      assert s[0] as int == 0xED ==> s[1] as int <= 0x9F;
    } else {
      assert In(s, 0, 0xF0, 0xF4) && In(s, 1, 0x80, 0xBF) && In(s, 2, 0x80, 0xBF) && In(s, 3, 0x80, 0xBF);
      assert s[0] as int == 0xF0 ==> s[1] as int >= 0x90;
      assert s[0] as int == 0xF4 ==> s[1] as int <= 0x8F;
    }
  }

  lemma Sixes(a: int, b: int, c: int, d: int)
    requires 0 <= a && 0 <= b < 64 && 0 <= c < 64 && 0 <= d < 64
    ensures (a * 64 + b) / 64 == a && (a * 64 + b) % 64 == b
    ensures var u := a * 4096 + b * 64 + c; u / 4096 == a && u / 64 % 64 == b && u % 64 == c
    ensures var u := a * 262144 + b * 4096 + c * 64 + d;
            u / 262144 == a && u / 4096 % 64 == b && u / 64 % 64 == c && u % 64 == d
  {
  }

  /** The code point at the front of `s`. */
  lemma Decoded(s: string) returns (u: int)
    requires RuneLength(s) > 0
    ensures Scalar(u) && Encode(u) == s[..RuneLength(s)]
  {
    var n := RuneLength(s);
    if n == 1 {
      u := s[0] as int;
    } else if n == 2 {
      u := DecodedTwo(s);
    } else if n == 3 {
      u := DecodedThree(s);
    } else {
      u := DecodedFour(s);
    }
  }

  lemma DecodedTwo(s: string) returns (u: int)
    requires RuneLength(s) == 2
    ensures Scalar(u) && Encode(u) == s[..2]
  {
    var a, b := s[0] as int - 0xC0, s[1] as int - 0x80;
    u := a * 64 + b;
    Sixes(a, b, 0, 0);
  }

  lemma DecodedThree(s: string) returns (u: int)
    requires RuneLength(s) == 3
    ensures Scalar(u) && Encode(u) == s[..3]
  {
    var a, b, c := s[0] as int - 0xE0, s[1] as int - 0x80, s[2] as int - 0x80;
    u := a * 4096 + b * 64 + c;
    Sixes(a, b, c, 0);
  }

  lemma DecodedFour(s: string) returns (u: int)
    requires RuneLength(s) == 4
    ensures Scalar(u) && Encode(u) == s[..4]
  {
    var a, b, c, d := s[0] as int - 0xF0, s[1] as int - 0x80, s[2] as int - 0x80, s[3] as int - 0x80;
    u := a * 262144 + b * 4096 + c * 64 + d;
    Sixes(a, b, c, d);
  }

  function EncodeAll(us: seq<int>): string
    requires forall u | u in us :: Scalar(u)
  {
    if us == [] then "" else Encode(us[0]) + EncodeAll(us[1..])
  }

  ghost predicate IsText(us: seq<int>, s: string) {
    (forall u | u in us :: Scalar(u)) && EncodeAll(us) == s
  }

  lemma {:induction false} EncodedIsValid(us: seq<int>)
    requires forall u | u in us :: Scalar(u)
    ensures Valid(EncodeAll(us))
  {
    if us != [] {
      assert us[0] in us;
      EncodedIsValid(us[1..]);
      EncodedLength(us[0], EncodeAll(us[1..]));
      assert EncodeAll(us)[|Encode(us[0])|..] == EncodeAll(us[1..]);
    }
  }

  lemma {:induction false} DecodedAll(s: string) returns (us: seq<int>)
    requires Valid(s)
    ensures IsText(us, s)
  {
    if s == "" {
      us := [];
    } else {
      var n := RuneLength(s);
      var u := Decoded(s);
      var rest := DecodedAll(s[n..]);
      us := [u] + rest;
      assert us[1..] == rest && s == s[..n] + s[n..];
    }
  }

  /** Valid text is the encoding of some code points. */
  lemma ValidIff(s: string)
    ensures Valid(s) <==> exists us :: IsText(us, s)
  {
    if Valid(s) {
      var us := DecodedAll(s);
    }
    if us :| IsText(us, s) {
      EncodedIsValid(us);
    }
  }

  /** Bytes that begin no sequence are dropped, and what is around them stays. */
  lemma {:induction false} DropsOnlyThat(a: string, c: char, b: string)
    requires Valid(a) && (0x80 <= c as int <= 0xC1 || 0xF5 <= c as int <= 0xFF)
    ensures ToValid(a + ([c] + b)) == a + ToValid(b)
    decreases |a|
  {
    if a == "" {
      DropsFirst(c, b);
      assert a + ([c] + b) == [c] + b && a + ToValid(b) == ToValid(b);
    } else {
      var n := RuneLength(a);
      FrontRune(a, [c] + b);
      KeepsFirst(a + ([c] + b));
      DropsOnlyThat(a[n..], c, b);
      assert a == a[..n] + a[n..];
      Assoc(a[..n], a[n..], ToValid(b));
    }
  }

  lemma DropsFirst(c: char, b: string)
    requires 0x80 <= c as int <= 0xC1 || 0xF5 <= c as int <= 0xFF
    ensures ToValid([c] + b) == ToValid(b)
  {
    assert ([c] + b)[1..] == b;
  }

  lemma KeepsFirst(s: string)
    requires RuneLength(s) > 0
    ensures ToValid(s) == s[..RuneLength(s)] + ToValid(s[RuneLength(s)..])
  {
  }

  lemma FrontRune(a: string, rest: string)
    requires RuneLength(a) > 0
    ensures RuneLength(a + rest) == RuneLength(a)
    ensures (a + rest)[..RuneLength(a)] == a[..RuneLength(a)] && (a + rest)[RuneLength(a)..] == a[RuneLength(a)..] + rest
  {
    assert forall i | 0 <= i < |a| :: (a + rest)[i] == a[i];
  }
}
