/** Tags of the form child<=>parent. */
module SyntheticTags {

  const SEPARATOR := "<=>"

  predicate Marked(s: string) {
    |s| >= 3 && (s[..3] == SEPARATOR || Marked(s[1..]))
  }

  lemma {:induction false} MarkedMeans(s: string)
    ensures Marked(s) <==> exists i, j :: 0 <= i && j == i + 3 <= |s| && s[i..j] == "<=>"
  {
    if |s| >= 3 {
      MarkedMeans(s[1..]);
      if i, j :| 0 <= i && j == i + 3 <= |s| && s[i..j] == "<=>" {
        if i > 0 { assert s[1..][i - 1..j - 1] == s[i..j]; }
      }
      if i, j :| 0 <= i && j == i + 3 <= |s[1..]| && s[1..][i..j] == "<=>" {
        assert s[i + 1..j + 1] == s[1..][i..j];
      }
      if s[..3] == SEPARATOR { assert s[0..3] == "<=>"; }
    }
  }

  function Synthetic(child: string, parent: string): string {
    child + SEPARATOR + parent
  }

  /** Where the first separator is. */
  function FirstMark(s: string): nat
    requires Marked(s)
  {
    if s[..3] == SEPARATOR then 0 else 1 + FirstMark(s[1..])
  }

  lemma {:induction false} SyntheticMark(child: string, parent: string)
    requires !Marked(child)
    ensures Marked(Synthetic(child, parent)) && FirstMark(Synthetic(child, parent)) == |child|
  {
    var s := Synthetic(child, parent);
    if child == "" {
      assert s[..3] == SEPARATOR;
    } else {
      assert s[1..] == Synthetic(child[1..], parent);
      if |child| >= 3 {
        assert s[..3] == child[..3];
      } else {
        assert s[|child|] == '<';
        assert s[..3][|child|] == '<';
      }
      SyntheticMark(child[1..], parent);
    }
  }

  /** A synthetic tag says which child and which parent it is for, and is never a real tag. */
  lemma SyntheticIsUnambiguous(child: string, parent: string, child': string, parent': string)
    requires !Marked(child) && !Marked(child')
    ensures Synthetic(child, parent) == Synthetic(child', parent') <==> child == child' && parent == parent'
    ensures Synthetic(child, parent) != child'
  {
    SyntheticMark(child, parent);
    SyntheticMark(child', parent');
    var s, s' := Synthetic(child, parent), Synthetic(child', parent');
    if s == s' {
      assert s[..|child|] == child && s'[..|child'|] == child';
      assert s[|child| + 3..] == parent && s'[|child'| + 3..] == parent';
    }
  }
}
