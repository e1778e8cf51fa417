/** (control, resource) pairs, and the one string they are sorted by. */
module Pairs {
  import opened Text
  import opened Sorting

  datatype Pair = Pair(control: string, resource: string) {
    /** pair.String() */
    function Key(): string { control + " " + resource }
  }

  /** What difference sorts by. */
  predicate KeyLess(a: Pair, b: Pair) {
    Less(a.Key(), b.Key())
  }

  lemma KeyOrder()
    ensures WeakOrder(KeyLess)
  {
    StringOrder();
    forall a: Pair, b, c | !KeyLess(a, b) && !KeyLess(b, c) ensures !KeyLess(a, c) {
      assert !Less(a.Key(), b.Key()) && !Less(b.Key(), c.Key());
    }
    forall a: Pair, b | KeyLess(a, b) ensures !KeyLess(b, a) {
      LessAsymmetric(a.Key(), b.Key());
    }
  }

  /** By control, then by resource. */
  predicate LexLess(a: Pair, b: Pair) {
    if a.control != b.control then Less(a.control, b.control) else Less(a.resource, b.resource)
  }

  /** Control IDs as Kubescape writes them: no white space or control characters. */
  ghost predicate Plain(control: string) {
    forall i | 0 <= i < |control| :: control[i] > ' '
  }

  /** One ID continues the other with a character that does not sort above the separator. */
  predicate Straddles(c: string, d: string) {
    (c < d && d[|c|] <= ' ') || (d < c && c[|d|] <= ' ')
  }

  lemma {:induction false} ApartKeepsOrder(c: string, d: string, r: string, s: string)
    requires !(c <= d) && !(d <= c)
    ensures Less(c + " " + r, d + " " + s) <==> Less(c, d)
  {
    if c[0] == d[0] {
      ApartKeepsOrder(c[1..], d[1..], r, s);
      assert (c + " " + r)[1..] == c[1..] + " " + r && (d + " " + s)[1..] == d[1..] + " " + s;
    }
  }

  lemma {:induction false} PrefixLess(c: string, d: string)
    requires c < d
    ensures Less(c, d)
  {
    if c != "" {
      PrefixLess(c[1..], d[1..]);
    }
  }

  lemma PrefixKeepsOrder(c: string, d: string, r: string, s: string)
    requires c < d && d[|c|] > ' '
    ensures Less(c + " " + r, d + " " + s) && !Less(d + " " + s, c + " " + r) && Less(c, d) && !Less(d, c)
  {
    var t := d[|c|..];
    assert c + " " + r == c + (" " + r) && d + " " + s == c + (t + " " + s);
    LessPrefix(c, " " + r, t + " " + s);
    PrefixLess(c, d);
    LessAsymmetric(c, d);
    LessAsymmetric(c + " " + r, d + " " + s);
  }

  /** A witness that the separator lets the resource decide. */
  lemma StraddleBreaksOrder(c: string, d: string)
    requires c < d && d[|c|] <= ' '
    ensures Less(c, d) && !Less(c + " " + (d[|c| + 1..] + " a"), d + " " + "")
    ensures !Less(d, c)
  {
    var t := d[|c|..];
    var r := d[|c| + 1..] + " a";
    assert c + " " + r == c + (" " + r) && d + " " + "" == c + (t + " ");
    LessPrefix(c, " " + r, t + " ");
    PrefixLess(c, d);
    LessAsymmetric(c, d);
    if t[0] == ' ' {
      assert (" " + r)[1..] == r && (t + " ")[1..] == d[|c| + 1..] + " ";
      assert r == (d[|c| + 1..] + " ") + "a" && d[|c| + 1..] + " " < r;
      PrefixLess(d[|c| + 1..] + " ", r);
      LessAsymmetric(d[|c| + 1..] + " ", r);
    }
  }

  /** For two different controls, sorting by "control resource" agrees with
      sorting by control, whatever the resources, exactly when neither control
      continues the other with a character that is not above the space. */
  lemma KeyOrderIff(c: string, d: string)
    requires c != d
    ensures (forall r, s :: Less(c + " " + r, d + " " + s) <==> Less(c, d)) <==> !Straddles(c, d)
  {
    if c < d && d[|c|] <= ' ' {
      StraddleBreaksOrder(c, d);
    } else if d < c && c[|d|] <= ' ' {
      StraddleBreaksOrder(d, c);
      var r := c[|d| + 1..] + " a";
      LessTotal(d + " " + r, c + " " + "");
      StraddleDiffers(d, c);
    } else {
      forall r, s ensures Less(c + " " + r, d + " " + s) <==> Less(c, d) {
        if c < d {
          PrefixKeepsOrder(c, d, r, s);
        } else if d < c {
          PrefixKeepsOrder(d, c, s, r);
        } else {
          ApartKeepsOrder(c, d, r, s);
        }
      }
    }
  }

  lemma StraddleDiffers(d: string, c: string)
    requires d < c && c[|d|] <= ' '
    ensures d + " " + (c[|d| + 1..] + " a") != c + " " + ""
  {
    assert |d + " " + (c[|d| + 1..] + " a")| == |c| + 2;
    assert |c + " " + ""| == |c| + 1;
  }

  /** For plain controls the concatenated key orders pairs by control, then resource. */
  lemma KeyIsLexicographic(a: Pair, b: Pair)
    requires Plain(a.control) && Plain(b.control)
    ensures KeyLess(a, b) <==> LexLess(a, b)
  {
    if a.control == b.control {
      LessPrefix(a.control + " ", a.resource, b.resource);
      assert a.Key() == (a.control + " ") + a.resource && b.Key() == (b.control + " ") + b.resource;
    } else {
      KeyOrderIff(a.control, b.control);
    }
  }

  /** One ID continues the other with the separator. */
  predicate SpaceContinues(c: string, d: string) {
    c + " " <= d || d + " " <= c
  }

  /** Two controls can share a key exactly when one continues the other with a space. */
  lemma KeysCollideIff(c: string, d: string)
    requires c != d
    ensures (exists r, s :: Pair(c, r).Key() == Pair(d, s).Key()) <==> SpaceContinues(c, d)
  {
    if c + " " <= d {
      assert Pair(c, d[|c| + 1..] + " ").Key() == Pair(d, "").Key();
    } else if d + " " <= c {
      assert Pair(c, "").Key() == Pair(d, c[|d| + 1..] + " ").Key();
    }
    if r, s :| Pair(c, r).Key() == Pair(d, s).Key() {
      SharedKeyContinues(c, d, r, s);
    }
  }

  lemma SharedKeyContinues(c: string, d: string, r: string, s: string)
    requires c != d && Pair(c, r).Key() == Pair(d, s).Key()
    ensures SpaceContinues(c, d)
  {
    var k := c + " " + r;
    assert k[..|c| + 1] == c + " " && k[..|d| + 1] == d + " ";
    assert c == k[..|c|] && d == k[..|d|];
  }

  /** So the key determines the pair unless one control continues the other with
      a space; in particular for plain controls. */
  lemma KeyDetermines(a: Pair, b: Pair)
    requires !SpaceContinues(a.control, b.control) && a.Key() == b.Key()
    ensures a == b
  {
    if a.control != b.control {
      SharedKeyContinues(a.control, b.control, a.resource, b.resource);
    } else {
      assert a.Key()[|a.control| + 1..] == a.resource && b.Key()[|b.control| + 1..] == b.resource;
    }
  }

  /** Plain controls do not straddle. */
  lemma PlainStaysApart(c: string, d: string)
    requires Plain(c) && Plain(d)
    ensures !Straddles(c, d)
  {
  }

  lemma ContinuesStraddles(c: string, d: string)
    ensures SpaceContinues(c, d) ==> Straddles(c, d)
  {
    if c + " " <= d {
      SpaceInside(c, d);
    } else if d + " " <= c {
      SpaceInside(d, c);
    }
  }

  lemma SpaceInside(c: string, d: string)
    requires c + " " <= d
    ensures c < d && d[|c|] == ' '
  {
    assert (c + " ")[|c|] == ' ';
  }

  /** Two pairs that difference may print in either order. */
  lemma KeyCollides()
    ensures Pair("C-1", "x y").Key() == Pair("C-1 x", "y").Key()
  {
  }
}
