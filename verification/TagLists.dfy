/** Lists of tags as one comma-separated string: what the database concatenates and the code splits. */
module TagLists {

  predicate CommaFree(t: string) {
    ',' !in t
  }

  function Join(tags: seq<string>): string {
    if tags == [] then ""
    else if |tags| == 1 then tags[0]
    else tags[0] + "," + Join(tags[1..])
  }

  /** `s.split(",")`: never empty. */
  function Split(s: string): (tags: seq<string>)
    ensures tags != []
  {
    if s == "" then [""]
    else
      var rest := Split(s[1..]);
      if s[0] == ',' then [""] + rest else [[s[0]] + rest[0]] + rest[1..]
  }

  lemma {:induction false} SplitOne(t: string)
    requires CommaFree(t)
    ensures Split(t) == [t]
  {
    if t != "" {
      assert t[0] in t && t[1..] + [] == t[1..];
      SplitOne(t[1..]);
      assert [t[0]] + t[1..] == t;
    }
  }

  lemma {:induction false} SplitFirst(t: string, s: string)
    requires CommaFree(t)
    ensures Split(t + "," + s) == [t] + Split(s)
  {
    if t == "" {
      assert (t + "," + s)[1..] == s;
    } else {
      assert t[0] in t;
      SplitFirst(t[1..], s);
      assert (t + "," + s)[1..] == t[1..] + "," + s;
      assert [t[0]] + t[1..] == t;
    }
  }

  lemma {:induction false} SplitGivesCommaFree(s: string)
    ensures forall t <- Split(s) :: CommaFree(t)
  {
    if s != "" {
      SplitGivesCommaFree(s[1..]);
      var rest := Split(s[1..]);
      assert rest[0] in rest;
    }
  }

  lemma {:induction false} SplitJoined(tags: seq<string>)
    requires tags != [] && forall t <- tags :: CommaFree(t)
    ensures Split(Join(tags)) == tags
  {
    assert tags[0] in tags;
    if |tags| == 1 {
      SplitOne(tags[0]);
    } else {
      assert forall t <- tags[1..] :: t in tags;
      SplitJoined(tags[1..]);
      SplitFirst(tags[0], Join(tags[1..]));
    }
  }

  /** The list comes back exactly when no tag contains a comma. */
  lemma SplitUndoesJoin(tags: seq<string>)
    requires tags != []
    ensures Split(Join(tags)) == tags <==> forall t <- tags :: CommaFree(t)
  {
    if forall t <- tags :: CommaFree(t) { SplitJoined(tags); }
    SplitGivesCommaFree(Join(tags));
  }
}
