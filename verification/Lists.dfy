/** splitList: comma-separated settings. */
module Lists {
  import opened Text
  import opened Filters

  predicate NotBlank(p: string) {
    TrimSpace(p) != ""
  }

  function Entries(s: string): seq<string> {
    FilterMap(NotBlank, TrimSpace, Split(s, ','))
  }

  method SplitList(s: string) returns (out: seq<string>)
    ensures out == Entries(s)
  {
    out := [];
    var parts := Split(s, ',');
    for i := 0 to |parts|
      invariant out == FilterMap(NotBlank, TrimSpace, parts[..i])
    {
      assert parts[..i + 1] == parts[..i] + [parts[i]];
      FilterMapSnoc(NotBlank, TrimSpace, parts[..i], parts[i]);
      var p := TrimSpace(parts[i]);
      if p != "" {
        out := out + [p];
      }
    }
    assert parts[..|parts|] == parts;
  }

  /** An entry as someone writes it: a name, or nothing, with white space around it. */
  datatype Entry = Entry(before: string, name: string, after: string)

  function PrintEntry(e: Entry): string {
    e.before + e.name + e.after
  }

  function Printed(es: seq<Entry>): (r: seq<string>)
    ensures |r| == |es| && forall i | 0 <= i < |es| :: r[i] == PrintEntry(es[i])
  {
    seq(|es|, i requires 0 <= i < |es| => PrintEntry(es[i]))
  }

  function Name(e: Entry): string {
    e.name
  }

  predicate Named(e: Entry) {
    e.name != ""
  }

  ghost predicate WellWritten(e: Entry) {
    AllSpace(e.before) && AllSpace(e.after) && ',' !in e.name && TrimSpace(e.name) == e.name
  }

  /** Whatever the spacing and however many entries are empty, the names come back, in order. */
  lemma ListRoundTrip(es: seq<Entry>)
    requires es != [] && forall e | e in es :: WellWritten(e)
    ensures Entries(Join(Printed(es), ",")) == FilterMap(Named, Name, es)
  {
    forall p | p in Printed(es) ensures ',' !in p {
      var i :| 0 <= i < |es| && p == PrintEntry(es[i]);
      assert WellWritten(es[i]);
      assert !IsSpace(',');
    }
    SplitOfJoin(Printed(es), ',');
    NamesOfPrinted(es);
  }

  lemma {:induction false} NamesOfPrinted(es: seq<Entry>)
    requires forall e | e in es :: WellWritten(e)
    ensures FilterMap(NotBlank, TrimSpace, Printed(es)) == FilterMap(Named, Name, es)
  {
    if es != [] {
      var front, e := es[..|es| - 1], es[|es| - 1];
      assert forall f | f in front :: f in es;
      NamesOfPrinted(front);
      assert Printed(es) == Printed(front) + [PrintEntry(e)];
      FilterMapSnoc(NotBlank, TrimSpace, Printed(front), PrintEntry(e));
      assert WellWritten(e);
      TrimPad(e.before, e.name, e.after);
    }
  }
}
