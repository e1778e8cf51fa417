/** nextLink: the rel="next" target of a Link header (section 3 of RFC 8288). */
module LinkHeader {
  import opened Text

  predicate Angle(c: char) {
    c == '<' || c == '>'
  }

  function TrimAnglesLeft(s: string): string {
    if s != "" && Angle(s[0]) then TrimAnglesLeft(s[1..]) else s
  }

  function TrimAnglesRight(s: string): string {
    if s != "" && Angle(s[|s| - 1]) then TrimAnglesRight(s[..|s| - 1]) else s
  }

  /** strings.Trim(s, "<>") */
  function TrimAngles(s: string): string {
    TrimAnglesRight(TrimAnglesLeft(s))
  }

  const NEXT := "rel=\"next\""

  predicate SaysNext(segs: seq<string>) {
    exists i | 1 <= i < |segs| :: TrimSpace(segs[i]) == NEXT
  }

  /** The target of the first link that says next; empty if none does. */
  function NextIn(parts: seq<string>): string {
    if parts == [] then ""
    else if SaysNext(Split(parts[0], ';')) then TrimAngles(TrimSpace(Split(parts[0], ';')[0]))
    else NextIn(parts[1..])
  }

  function NextLink(header: string): string {
    NextIn(Split(header, ','))
  }

  /** nextLink, as two nested loops. */
  method FindNext(header: string) returns (r: string)
    ensures r == NextLink(header)
  {
    var parts := Split(header, ',');
    for i := 0 to |parts|
      invariant NextIn(parts) == NextIn(parts[i..])
    {
      assert parts[i..][1..] == parts[i + 1..];
      var segs := Split(parts[i], ';');
      for j := 1 to |segs|
        invariant forall k | 1 <= k < j :: TrimSpace(segs[k]) != NEXT
      {
        if TrimSpace(segs[j]) == NEXT {
          return TrimAngles(TrimSpace(segs[0]));
        }
      }
    }
    r := "";
  }

  // ---------------------------------------------------------------- printing a header

  datatype Link = Link(uri: string, rel: string)

  /** A target without the header's own punctuation, and a one-word relation. */
  ghost predicate GoodLink(l: Link) {
    && ',' !in l.uri && ';' !in l.uri && '<' !in l.uri && '>' !in l.uri
    && ',' !in l.rel && ';' !in l.rel
  }

  function PrintRel(l: Link): string {
    "rel=\"" + l.rel + "\""
  }

  function Target(l: Link): string {
    "<" + l.uri + ">"
  }

  function PrintLink(l: Link): string {
    Target(l) + ";" + (" " + PrintRel(l))
  }

  /** `<uri>; rel="...", <uri>; rel="..."` */
  function PrintParts(links: seq<Link>, first: bool): (r: seq<string>)
    ensures |r| == |links|
  {
    if links == [] then []
    else [(if first then "" else " ") + PrintLink(links[0])] + PrintParts(links[1..], false)
  }

  function PrintLinks(links: seq<Link>): string {
    Join(PrintParts(links, true), ",")
  }

  function FirstNext(links: seq<Link>): string {
    if links == [] then "" else if links[0].rel == "next" then links[0].uri else FirstNext(links[1..])
  }

  lemma TrimSpaceOf(pad: string, s: string)
    requires AllSpace(pad) && s != "" && !IsSpace(s[0]) && !IsSpace(s[|s| - 1])
    ensures TrimSpace(pad + s) == s
  {
    TrimLeftPad(pad, s);
  }

  lemma TrimAnglesOf(uri: string)
    requires '<' !in uri && '>' !in uri
    ensures TrimAngles("<" + uri + ">") == uri
  {
    var s := "<" + uri + ">";
    assert s[1..] == uri + ">";
    if uri == "" {
      assert s[1..] == ">" && ">"[1..] == "";
      assert TrimAnglesLeft(">") == "" && TrimAnglesLeft(s) == "";
    } else {
      assert (uri + ">")[0] == uri[0] && uri[0] in uri;
      assert uri[|uri| - 1] in uri;
      var t := uri + ">";
      assert TrimAnglesLeft(s) == TrimAnglesLeft(t) == t;
      assert t[..|t| - 1] == uri;
      assert TrimAnglesRight(t) == TrimAnglesRight(uri) == uri;
    }
  }

  lemma RelDetermines(l: Link)
    ensures PrintRel(l) == NEXT <==> l.rel == "next"
  {
    assert NEXT == "rel=\"" + "next" + "\"";
    assert PrintRel(l)[5..|PrintRel(l)| - 1] == l.rel;
    assert NEXT[5..|NEXT| - 1] == "next";
  }

  lemma RelFree(l: Link)
    requires GoodLink(l)
    ensures ';' !in " " + PrintRel(l) && ',' !in " " + PrintRel(l) && ';' !in Target(l) && ',' !in Target(l)
  {
  }

  lemma PartRoundTrip(l: Link, pad: string)
    requires GoodLink(l) && (pad == "" || pad == " ")
    ensures Split(pad + PrintLink(l), ';') == [pad + Target(l), " " + PrintRel(l)]
    ensures ',' !in pad + PrintLink(l)
  {
    RelFree(l);
    SplitTwo(pad + Target(l), " " + PrintRel(l), ';');
    Assoc(pad, Target(l) + ";", " " + PrintRel(l));
    Assoc(pad, Target(l), ";");
  }

  lemma SplitTwo(a: string, b: string, c: char)
    requires c !in a && c !in b
    ensures Split(a + [c] + b, c) == [a, b]
  {
    SplitHead(a, c, b);
    IndexOfAbsent(b, c);
  }

  lemma PartMeaning(l: Link, pad: string)
    requires GoodLink(l) && (pad == "" || pad == " ")
    ensures var segs := [pad + Target(l), " " + PrintRel(l)];
            && (SaysNext(segs) <==> l.rel == "next")
            && TrimAngles(TrimSpace(segs[0])) == l.uri
  {
    var segs := [pad + Target(l), " " + PrintRel(l)];
    TrimSpaceOf(pad, Target(l));
    TrimAnglesOf(l.uri);
    TrimSpaceOf(" ", PrintRel(l));
    RelDetermines(l);
    assert TrimSpace(segs[1]) == PrintRel(l);
  }

  lemma {:induction false} NextInRoundTrip(links: seq<Link>, first: bool)
    requires forall l | l in links :: GoodLink(l)
    ensures NextIn(PrintParts(links, first)) == FirstNext(links)
    ensures forall p | p in PrintParts(links, first) :: ',' !in p
  {
    if links != [] {
      assert links[0] in links;
      var pad := if first then "" else " ";
      PartRoundTrip(links[0], pad);
      PartMeaning(links[0], pad);
      NextInRoundTrip(links[1..], false);
      assert PrintParts(links, first)[1..] == PrintParts(links[1..], false);
    }
  }

  /** Reading a printed Link header yields the target of its first next link, or nothing. */
  lemma NextLinkRoundTrip(links: seq<Link>)
    requires forall l | l in links :: GoodLink(l)
    ensures NextLink(PrintLinks(links)) == FirstNext(links)
  {
    NextInRoundTrip(links, true);
    if links == [] {
      assert Split("", ',') == [""] && Split("", ';') == [""];
      assert NextIn([""]) == NextIn([""][1..]);
    } else {
      SplitOfJoin(PrintParts(links, true), ',');
    }
  }
}
