/** normalizeSeverity: every tool's vocabulary on one scale. */
module Severity {
  import opened Text

  function LowerChar(c: char): char {
    if 'A' <= c <= 'Z' then c - 'A' + 'a' else c
  }

  /** Letter by letter. */
  lemma LowerCharIs(i: nat, c: char)
    requires i < 26
    ensures LowerChar("ABCDEFGHIJKLMNOPQRSTUVWXYZ"[i]) == "abcdefghijklmnopqrstuvwxyz"[i]
    ensures c !in "ABCDEFGHIJKLMNOPQRSTUVWXYZ" ==> LowerChar(c) == c
  {
    assert "ABCDEFGHIJKLMNOPQRSTUVWXYZ"[i] == 'A' + i as char && "abcdefghijklmnopqrstuvwxyz"[i] == 'a' + i as char;
    assert 'A' <= c <= 'Z' ==> c == "ABCDEFGHIJKLMNOPQRSTUVWXYZ"[c as int - 'A' as int];
  }

  /** strings.ToLower, on ASCII. */
  function Lower(s: string): (r: string)
    ensures |r| == |s| && forall i | 0 <= i < |s| :: r[i] == LowerChar(s[i])
  {
    seq(|s|, i requires 0 <= i < |s| => LowerChar(s[i]))
  }

  function NormalizeSeverity(s: string): string {
    ScaleOf(Lower(TrimSpace(s)))
  }

  function ScaleOf(t: string): string {
    if t == "critical" || t == "emergency" || t == "alert" || t == "fatal" then "critical"
    else if t == "high" || t == "error" then "high"
    else if t == "medium" || t == "warning" || t == "moderate" then "medium"
    else if t == "low" || t == "notice" || t == "note" then "low"
    else if t == "informational" || t == "info" || t == "debug" then "info"
    else "unknown"
  }

  lemma {:induction false} LowerTrimLeft(s: string)
    ensures TrimLeft(Lower(s)) == Lower(TrimLeft(s))
  {
    if s != "" && IsSpace(s[0]) {
      LowerTrimLeft(s[1..]);
      assert Lower(s)[1..] == Lower(s[1..]);
    }
  }

  lemma {:induction false} LowerTrimRight(s: string)
    ensures TrimRight(Lower(s)) == Lower(TrimRight(s))
  {
    if s != "" && IsSpace(s[|s| - 1]) {
      LowerTrimRight(s[..|s| - 1]);
      assert Lower(s)[..|s| - 1] == Lower(s[..|s| - 1]);
    }
  }

  /** Neither letter case nor white space around it matters to the scale. */
  lemma CaseAndPaddingIgnored(before: string, s: string, after: string)
    requires AllSpace(before) && AllSpace(after)
    ensures NormalizeSeverity(before + Lower(s) + after) == NormalizeSeverity(s)
  {
    TrimPad(before, Lower(s), after);
    LowerTrimLeft(s);
    LowerTrimRight(TrimLeft(s));
    assert Lower(Lower(TrimSpace(s))) == Lower(TrimSpace(s));
  }

  // ---------------------------------------------------------------- the scale

  predicate OnScale(w: string) {
    w == "critical" || w == "high" || w == "medium" || w == "low" || w == "info" || w == "unknown"
  }

  lemma PlainWord(w: string)
    requires forall i | 0 <= i < |w| :: 'a' <= w[i] <= 'z'
    ensures Lower(TrimSpace(w)) == w
  {
    assert TrimLeft(w) == w && TrimRight(w) == w;
    assert Lower(w) == w;
  }

  /** Every severity lands on the scale, and the words of the scale stay where they are. */
  lemma ScaleIsFixed(s: string)
    ensures OnScale(NormalizeSeverity(s))
    ensures OnScale(s) ==> NormalizeSeverity(s) == s
  {
    if OnScale(s) {
      PlainWord(s);
    }
  }

  /** The words each tool uses, for each place on the scale. Anything else is unknown. */
  lemma WordsOfScale(w: string)
    requires forall i | 0 <= i < |w| :: 'a' <= w[i] <= 'z'
    ensures NormalizeSeverity(w) == "critical" <==> w in {"critical", "emergency", "alert", "fatal"}
    ensures NormalizeSeverity(w) == "high" <==> w in {"high", "error"}
    ensures NormalizeSeverity(w) == "medium" <==> w in {"medium", "moderate", "warning"}
    ensures NormalizeSeverity(w) == "low" <==> w in {"low", "note", "notice"}
    ensures NormalizeSeverity(w) == "info" <==> w in {"info", "informational", "debug"}
  {
    PlainWord(w);
  }
}
