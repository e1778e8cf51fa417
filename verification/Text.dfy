/** Byte strings as Go handles them: one char per byte, ordered byte by byte.

    Split, Join, Cut, Fields and the decimal printer are the library functions
    the two programs build their texts with. Each comes with the lemma that
    undoes it, because every larger round trip rests on them. */
module Text {
  // ---------------------------------------------------------------- order

  /** Go's `<` on strings. */
  predicate Less(a: string, b: string) {
    if b == [] then false
    else if a == [] then true
    else a[0] < b[0] || (a[0] == b[0] && Less(a[1..], b[1..]))
  }

  lemma {:induction false} LessAsymmetric(a: string, b: string)
    requires Less(a, b)
    ensures !Less(b, a)
  {
    if a != [] && a[0] == b[0] {
      LessAsymmetric(a[1..], b[1..]);
    }
  }

  lemma {:induction false} LessTransitive(a: string, b: string, c: string)
    requires Less(a, b) && Less(b, c)
    ensures Less(a, c)
  {
    if a != [] && a[0] == b[0] && b[0] == c[0] {
      LessTransitive(a[1..], b[1..], c[1..]);
    }
  }

  lemma {:induction false} LessTotal(a: string, b: string)
    ensures Less(a, b) || a == b || Less(b, a)
  {
    if a != [] && b != [] && a[0] == b[0] {
      LessTotal(a[1..], b[1..]);
      assert a == [a[0]] + a[1..] && b == [b[0]] + b[1..];
    }
  }

  /** Smaller where the two first differ, or a proper beginning. */
  lemma {:induction false} LessIff(a: string, b: string)
    ensures Less(a, b) <==> a < b || exists i: nat :: DifferAt(a, b, i) && a[i] < b[i]
  {
    if a != "" && b != "" && a[0] == b[0] {
      LessIff(a[1..], b[1..]);
      if i: nat :| DifferAt(a[1..], b[1..], i) && a[1..][i] < b[1..][i] {
        DifferCons(a, b, i + 1);
      }
      if i: nat :| DifferAt(a, b, i) && a[i] < b[i] {
        DifferCons(a, b, i);
        assert a[1..][i - 1] < b[1..][i - 1];
      }
    } else if a != "" && b != "" {
      assert DifferAt(a, b, 0);
    }
  }

  predicate DifferAt(a: string, b: string, i: nat) {
    i < |a| && i < |b| && a[..i] == b[..i] && a[i] != b[i]
  }

  lemma DifferCons(a: string, b: string, i: nat)
    requires a != "" && b != "" && a[0] == b[0] && i > 0
    ensures DifferAt(a, b, i) <==> DifferAt(a[1..], b[1..], i - 1)
  {
    if i < |a| && i < |b| {
      assert a[..i] == [a[0]] + a[1..][..i - 1] && b[..i] == [b[0]] + b[1..][..i - 1];
      if a[..i] == b[..i] {
        assert a[1..][..i - 1] == a[..i][1..] == b[..i][1..] == b[1..][..i - 1];
      }
    }
  }

  lemma {:induction false} LessPrefix(p: string, a: string, b: string)
    ensures Less(p + a, p + b) == Less(a, b)
  {
    if p == [] {
      assert p + a == a && p + b == b;
    } else {
      LessPrefix(p[1..], a, b);
      assert (p + a)[1..] == p[1..] + a && (p + b)[1..] == p[1..] + b;
    }
  }

  // ---------------------------------------------------------------- split and join

  function Join(parts: seq<string>, sep: string): string {
    if parts == [] then ""
    else if |parts| == 1 then parts[0]
    else parts[0] + sep + Join(parts[1..], sep)
  }

  lemma JoinFour(a: string, b: string, c: string, d: string, sep: string)
    ensures Join([a, b, c, d], sep) == a + sep + (b + sep + (c + sep + d))
    ensures Join([a, b, c, d], sep) == a + sep + b + sep + c + sep + d
  {
    assert Join([c, d], sep) == c + sep + d by {
      assert [c, d][1..] == [d];
    }
    assert Join([b, c, d], sep) == b + sep + (c + sep + d) by {
      assert [b, c, d][1..] == [c, d];
    }
    assert [a, b, c, d][1..] == [b, c, d];
    Assoc(a + sep, b + sep, c + sep + d);
    Assoc(a + sep, b, sep);
    Assoc(a + sep + b + sep, c + sep, d);
    Assoc(a + sep + b + sep, c, sep);
  }

  /** The length of the longest prefix of `s` without `c`. */
  function IndexOf(s: string, c: char): (n: nat)
    ensures n <= |s|
    ensures forall i | 0 <= i < n :: s[i] != c
    ensures n < |s| ==> s[n] == c
  {
    if s == [] || s[0] == c then 0 else 1 + IndexOf(s[1..], c)
  }

  lemma IndexOfHead(a: string, c: char, rest: string)
    requires c !in a
    ensures IndexOf(a + [c] + rest, c) == |a|
    ensures (a + [c] + rest)[..|a|] == a && (a + [c] + rest)[|a| + 1..] == rest
  {
    var s := a + [c] + rest;
    assert forall i | 0 <= i < |a| :: s[i] == a[i];
    assert s[|a|] == c;
  }

  lemma IndexOfAbsent(a: string, c: char)
    requires c !in a
    ensures IndexOf(a, c) == |a|
  {
  }

  /** strings.Split for a one-byte separator. */
  function Split(s: string, c: char): (parts: seq<string>)
    ensures parts != []
    ensures forall p | p in parts :: c !in p
    decreases |s|
  {
    var n := IndexOf(s, c);
    if n == |s| then [s] else [s[..n]] + Split(s[n + 1..], c)
  }

  lemma {:induction false} JoinOfSplit(s: string, c: char)
    ensures Join(Split(s, c), [c]) == s
    decreases |s|
  {
    var n := IndexOf(s, c);
    if n < |s| {
      JoinOfSplit(s[n + 1..], c);
      var rest := Split(s[n + 1..], c);
      assert Split(s, c)[1..] == rest;
      assert s == s[..n] + [c] + s[n + 1..];
    }
  }

  lemma SplitHead(a: string, c: char, rest: string)
    requires c !in a
    ensures Split(a + [c] + rest, c) == [a] + Split(rest, c)
  {
    IndexOfHead(a, c, rest);
  }

  lemma {:induction false} SplitOfJoin(parts: seq<string>, c: char)
    requires parts != [] && forall p | p in parts :: c !in p
    ensures Split(Join(parts, [c]), c) == parts
  {
    assert parts[0] in parts;
    if |parts| == 1 {
      IndexOfAbsent(parts[0], c);
    } else {
      SplitOfJoin(parts[1..], c);
      SplitHead(parts[0], c, Join(parts[1..], [c]));
      HeadTail(parts);
    }
  }

  lemma HeadTail<T>(s: seq<T>)
    requires s != []
    ensures [s[0]] + s[1..] == s
  {
  }

  lemma FrontLast<T>(s: seq<T>)
    requires s != []
    ensures s[..|s| - 1] + [s[|s| - 1]] == s
  {
  }

  lemma Assoc<T>(a: seq<T>, b: seq<T>, c: seq<T>)
    ensures (a + b) + c == a + (b + c)
  {
  }

  lemma {:induction false} JoinFree(parts: seq<string>, sep: string, c: char)
    requires c !in sep && forall p | p in parts :: c !in p
    ensures c !in Join(parts, sep)
  {
    if |parts| > 1 {
      JoinFree(parts[1..], sep, c);
    }
  }

  lemma {:induction false} JoinAppend(a: seq<string>, b: seq<string>, sep: string)
    requires a != [] && b != []
    ensures Join(a + b, sep) == Join(a, sep) + sep + Join(b, sep)
  {
    if |a| == 1 {
      assert (a + b)[1..] == b;
    } else {
      JoinAppend(a[1..], b, sep);
      assert (a + b)[1..] == a[1..] + b;
      var h, m := a[0] + sep, Join(a[1..], sep);
      assert Join(a, sep) == h + m && Join(a + b, sep) == h + (m + sep + Join(b, sep));
      Assoc(h, m + sep, Join(b, sep));
      Assoc(h, m, sep);
    }
  }

  /** Lines as a printer leaves them: each ended by a newline. */
  function Unlines(lines: seq<string>): string {
    if lines == [] then "" else lines[0] + "\n" + Unlines(lines[1..])
  }

  /** The lines of a text, the last newline ending the last line. */
  function Lines(s: string): (r: seq<string>)
    ensures forall l | l in r :: '\n' !in l
    decreases |s|
  {
    if s == "" then []
    else
      var n := IndexOf(s, '\n');
      if n == |s| then [s] else [s[..n]] + Lines(s[n + 1..])
  }

  lemma LinesHead(l: string, rest: string)
    requires '\n' !in l
    ensures Lines(l + "\n" + rest) == [l] + Lines(rest)
  {
    IndexOfHead(l, '\n', rest);
  }

  lemma {:induction false} LinesOfUnlines(lines: seq<string>)
    requires forall l | l in lines :: '\n' !in l
    ensures Lines(Unlines(lines)) == lines
  {
    if lines != [] {
      assert lines[0] in lines && forall l | l in lines[1..] :: l in lines;
      LinesOfUnlines(lines[1..]);
      LinesHead(lines[0], Unlines(lines[1..]));
      HeadTail(lines);
    }
  }

  lemma {:induction false} UnlinesAppend(a: seq<string>, b: seq<string>)
    ensures Unlines(a + b) == Unlines(a) + Unlines(b)
  {
    if a == [] {
      assert a + b == b;
    } else {
      UnlinesAppend(a[1..], b);
      assert (a + b)[1..] == a[1..] + b;
    }
  }

  // ---------------------------------------------------------------- white space

  /** ASCII white space, as strings.Fields and strings.TrimSpace see it. */
  predicate IsSpace(c: char) {
    c == ' ' || ('\t' <= c <= '\r')
  }

  /** Tab, line feed, vertical tab, form feed, carriage return and the space. */
  lemma IsSpaceIff(c: char)
    ensures IsSpace(c) <==> c as int in {9, 10, 11, 12, 13, 32}
  {
  }

  ghost predicate SpaceFree(s: string) {
    forall c | c in s :: !IsSpace(c)
  }

  ghost predicate AllSpace(s: string) {
    forall c | c in s :: IsSpace(c)
  }

  function TokenLength(s: string): (n: nat)
    ensures n <= |s|
    ensures forall i | 0 <= i < n :: !IsSpace(s[i])
    ensures n < |s| ==> IsSpace(s[n])
  {
    if s == [] || IsSpace(s[0]) then 0 else 1 + TokenLength(s[1..])
  }

  /** strings.Fields */
  function Fields(s: string): (r: seq<string>)
    ensures forall f | f in r :: f != "" && SpaceFree(f)
    decreases |s|
  {
    if s == [] then []
    else if IsSpace(s[0]) then Fields(s[1..])
    else
      var n := TokenLength(s);
      [s[..n]] + Fields(s[n..])
  }

  lemma {:induction false} FieldsMembers(s: string, c: char)
    requires c !in s
    ensures forall f | f in Fields(s) :: c !in f
    decreases |s|
  {
    if s == [] {
    } else if IsSpace(s[0]) {
      FieldsMembers(s[1..], c);
    } else {
      FieldsMembers(s[TokenLength(s)..], c);
    }
  }

  lemma {:induction false} FieldsSkip(pad: string, s: string)
    requires AllSpace(pad)
    ensures Fields(pad + s) == Fields(s)
  {
    if pad == [] {
      assert pad + s == s;
    } else {
      FieldsSkip(pad[1..], s);
      assert (pad + s)[1..] == pad[1..] + s;
    }
  }

  lemma FieldsOfSpace(pad: string)
    requires AllSpace(pad)
    ensures Fields(pad) == []
  {
    FieldsSkip(pad, "");
    assert pad + "" == pad;
  }

  /** A token followed by white space, or by nothing, is the first field. */
  lemma FieldsToken(token: string, rest: string)
    requires token != "" && SpaceFree(token)
    requires rest == "" || IsSpace(rest[0])
    ensures Fields(token + rest) == [token] + Fields(rest)
  {
    var s := token + rest;
    assert s[..|token|] == token && s[|token|..] == rest;
    assert forall i | 0 <= i < |token| :: s[i] == token[i] && !IsSpace(s[i]);
    assert rest != "" ==> s[|token|] == rest[0];
  }

  lemma {:induction false} FieldsEmptyIff(s: string)
    ensures Fields(s) == [] <==> AllSpace(s)
  {
    if s != "" {
      assert s[0] in s && s == [s[0]] + s[1..];
      FieldsEmptyIff(s[1..]);
    }
  }

  /** The first field, what is before it and what is behind. */
  lemma {:induction false} FirstField(s: string) returns (lead: string, rest: string)
    requires Fields(s) != []
    ensures s == lead + (Fields(s)[0] + rest) && AllSpace(lead) && (lead == "" ==> !IsSpace(s[0]))
    ensures (rest == "" || IsSpace(rest[0])) && Fields(rest) == Fields(s)[1..]
    decreases |s|
  {
    if IsSpace(s[0]) {
      lead, rest := FirstField(s[1..]);
      lead := [s[0]] + lead;
    } else {
      var n := TokenLength(s);
      lead, rest := "", s[n..];
    }
  }

  /** What strings.Fields yields: not empty, no white space. */
  ghost predicate Word(w: string) {
    w != "" && SpaceFree(w)
  }

  /** Words joined by single spaces are the fields of the result. */
  lemma {:induction false} FieldsOfJoin(ws: seq<string>)
    requires forall w | w in ws :: Word(w)
    ensures Fields(Join(ws, " ")) == ws
  {
    if ws != [] {
      assert Word(ws[0]) && ws == [ws[0]] + ws[1..];
      assert forall w | w in ws[1..] :: w in ws;
      if |ws| == 1 {
        FieldsToken(ws[0], "");
        assert ws[0] + "" == ws[0];
      } else {
        var rest := Join(ws[1..], " ");
        assert Join(ws, " ") == ws[0] + (" " + rest);
        FieldsToken(ws[0], " " + rest);
        FieldsSkip(" ", rest);
        FieldsOfJoin(ws[1..]);
      }
    }
  }

  lemma FieldsOfTwo(lead: string, a: string, gap: string, b: string, tail: string)
    requires AllSpace(lead) && AllSpace(gap) && gap != "" && AllSpace(tail)
    requires a != "" && SpaceFree(a) && b != "" && SpaceFree(b)
    ensures Fields(lead + (a + (gap + (b + tail)))) == [a, b]
  {
    FieldsSkip(lead, a + (gap + (b + tail)));
    assert gap[0] in gap;
    FieldsToken(a, gap + (b + tail));
    FieldsSkip(gap, b + tail);
    if tail != "" {
      assert tail[0] in tail;
    }
    FieldsToken(b, tail);
    FieldsOfSpace(tail);
  }

  function TrimLeft(s: string): (r: string)
    ensures r == "" || !IsSpace(r[0])
  {
    if s != [] && IsSpace(s[0]) then TrimLeft(s[1..]) else s
  }

  function TrimRight(s: string): (r: string)
    ensures r <= s
    ensures r == "" || !IsSpace(r[|r| - 1])
  {
    if s != [] && IsSpace(s[|s| - 1]) then TrimRight(s[..|s| - 1]) else s
  }

  /** strings.TrimSpace */
  function TrimSpace(s: string): string {
    TrimRight(TrimLeft(s))
  }

  lemma {:induction false} TrimLeftPad(pad: string, s: string)
    requires AllSpace(pad)
    ensures TrimLeft(pad + s) == TrimLeft(s)
  {
    if pad == [] {
      assert pad + s == s;
    } else {
      TrimLeftPad(pad[1..], s);
      assert (pad + s)[1..] == pad[1..] + s;
    }
  }

  lemma {:induction false} TrimRightPad(s: string, pad: string)
    requires AllSpace(pad)
    ensures TrimRight(s + pad) == TrimRight(s)
  {
    if pad == [] {
      assert s + pad == s;
    } else {
      var t := s + pad;
      assert t[|t| - 1] == pad[|pad| - 1] && t[..|t| - 1] == s + pad[..|pad| - 1];
      TrimRightPad(s, pad[..|pad| - 1]);
    }
  }

  /** White space on either side is trimmed, whatever it encloses. */
  lemma {:induction false} TrimPad(before: string, s: string, after: string)
    requires AllSpace(before) && AllSpace(after)
    ensures TrimSpace(before + s + after) == TrimSpace(s)
    decreases |s|
  {
    Assoc(before, s, after);
    TrimLeftPad(before, s + after);
    if s == "" {
      TrimLeftPad(after, "");
      assert after + "" == after == s + after;
    } else if IsSpace(s[0]) {
      TrimPad("", s[1..], after);
      assert (s + after)[1..] == s[1..] + after == "" + s[1..] + after;
    } else {
      TrimRightPad(s, after);
    }
  }

  // ---------------------------------------------------------------- decimals

  function Digit(d: nat): (c: char)
    requires d < 10
    ensures '0' <= c <= '9'
  {
    '0' + d as char
  }

  function DigitValue(c: char): (d: nat)
    requires '0' <= c <= '9'
    ensures d < 10
  {
    c as int - '0' as int
  }

  predicate AllDigits(s: string) {
    forall i | 0 <= i < |s| :: '0' <= s[i] <= '9'
  }

  function NatText(n: nat): (s: string)
    ensures s != "" && AllDigits(s)
    ensures if n == 0 then s == "0" else s[0] != '0'
  {
    if n < 10 then [Digit(n)] else NatText(n / 10) + [Digit(n % 10)]
  }

  /** Go's %d. */
  function Decimal(n: int): string {
    if n < 0 then "-" + NatText(-n) else NatText(n)
  }

  function NatValue(s: string): nat
    requires AllDigits(s)
  {
    if s == "" then 0 else 10 * NatValue(s[..|s| - 1]) + DigitValue(s[|s| - 1])
  }

  datatype Option<+T> = None | Some(value: T)

  function ParseDecimal(s: string): Option<int> {
    if s != "" && AllDigits(s) then Some(NatValue(s))
    else if |s| > 1 && s[0] == '-' && AllDigits(s[1..]) then Some(-(NatValue(s[1..]) as int))
    else None
  }

  lemma {:induction false} NatValueOfText(n: nat)
    ensures NatValue(NatText(n)) == n
  {
    if n >= 10 {
      NatValueOfText(n / 10);
      var s := NatText(n);
      assert s[..|s| - 1] == NatText(n / 10);
    }
  }

  lemma ParseMinus(digits: string)
    requires digits != "" && AllDigits(digits)
    ensures ParseDecimal("-" + digits) == Some(-(NatValue(digits) as int))
  {
    var s := "-" + digits;
    assert s[0] == '-' && s[1..] == digits;
  }

  lemma ParseOfDecimal(n: int)
    ensures ParseDecimal(Decimal(n)) == Some(n)
  {
    if n < 0 {
      NatValueOfText(-n);
      ParseMinus(NatText(-n));
    } else {
      NatValueOfText(n);
    }
  }

  lemma DecimalFree(n: int, c: char)
    requires c != '-' && !('0' <= c <= '9')
    ensures c !in Decimal(n)
  {
  }
}
