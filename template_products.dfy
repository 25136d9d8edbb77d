/**
 * Template literal types over unions: `${A}${sep}${B}` denotes every member
 * of `A`, then the separator, then every member of `B`.
 */
module TemplateProducts {
  import opened Wrappers
  import opened Strings

  /** The union `${left}${sep}${right}`. */
  function Product(left: set<string>, sep: char, right: set<string>): set<string>
  {
    set a, b | a in left && b in right :: a + [sep] + b
  }

  /** The members of `${a}${sep}${right}` for one `a`. */
  function Row(a: string, sep: char, right: set<string>): set<string>
  {
    set b | b in right :: a + [sep] + b
  }

  /** Cut `s` at its first `sep`. */
  function SplitFirst(s: string, sep: char): (r: Option<(string, string)>)
    ensures r.None? <==> sep !in s
    ensures r.Some? ==> s == r.value.0 + [sep] + r.value.1 && sep !in r.value.0
  {
    match IndexOf(s, sep)
    case None => None
    case Some(i) =>
      assert s == s[..i] + [sep] + s[i + 1..];
      Some((s[..i], s[i + 1..]))
  }

  /** Cutting at the first separator recovers the parts, when the left part holds none. */
  lemma SplitFirstOfJoined(a: string, sep: char, b: string)
    requires sep !in a
    ensures SplitFirst(a + [sep] + b, sep) == Some((a, b))
  {
    IndexOfAfter(a, sep, b);
    var s := a + [sep] + b;
    assert s[..|a|] == a && s[|a| + 1..] == b;
  }

  /** Distinct pairs give distinct members, when the left parts hold no separator. */
  lemma JoinedInjective(a1: string, b1: string, a2: string, b2: string, sep: char)
    requires sep !in a1 && sep !in a2
    requires a1 + [sep] + b1 == a2 + [sep] + b2
    ensures a1 == a2 && b1 == b2
  {
    SplitFirstOfJoined(a1, sep, b1);
    SplitFirstOfJoined(a2, sep, b2);
  }

  /** A joined string equals a joined pair of separator-free parts only if the parts agree. */
  lemma JoinedMatchesClean(a1: string, b1: string, a2: string, b2: string, sep: char)
    requires sep !in a2 && sep !in b2
    requires a1 + [sep] + b1 == a2 + [sep] + b2
    ensures a1 == a2 && b1 == b2
  {
    var s := a2 + [sep] + b2;
    assert forall j :: 0 <= j < |a2| ==> s[j] == a2[j];
    assert forall j :: |a2| < j < |s| ==> s[j] == b2[j - |a2| - 1];
    assert s[|a1|] == sep;
    assert |a1| == |a2|;
    assert a1 == s[..|a1|] == a2;
    assert b1 == s[|a1| + 1..] == b2;
  }

  /** A string is in the product exactly when cutting it at the first separator gives a left and a right member. */
  lemma ProductMembership(left: set<string>, sep: char, right: set<string>, s: string)
    requires forall a :: a in left ==> sep !in a
    ensures s in Product(left, sep, right) <==>
              SplitFirst(s, sep).Some? && SplitFirst(s, sep).value.0 in left
              && SplitFirst(s, sep).value.1 in right
  {
    if s in Product(left, sep, right) {
      var a, b :| a in left && b in right && s == a + [sep] + b;
      SplitFirstOfJoined(a, sep, b);
    }
    if SplitFirst(s, sep).Some? {
      var (a, b) := SplitFirst(s, sep).value;
      if a in left && b in right {
        assert s == a + [sep] + b;
      }
    }
  }

  lemma {:induction false} RowCardinality(a: string, sep: char, right: set<string>)
    ensures |Row(a, sep, right)| == |right|
    decreases right
  {
    if right != {} {
      var b :| b in right;
      var rest := right - {b};
      RowCardinality(a, sep, rest);
      assert Row(a, sep, right) == Row(a, sep, rest) + {a + [sep] + b};
      forall b' | b' in rest ensures a + [sep] + b' != a + [sep] + b {
        assert (a + [sep] + b')[|a| + 1..] == b';
        assert (a + [sep] + b)[|a| + 1..] == b;
      }
    }
  }

  /** Taking one left member out of the product takes out exactly its row. */
  lemma ProductWithoutOne(left: set<string>, a: string, sep: char, right: set<string>)
    requires forall x :: x in left ==> sep !in x
    requires a in left
    ensures Product(left, sep, right) == Product(left - {a}, sep, right) + Row(a, sep, right)
    ensures Product(left - {a}, sep, right) !! Row(a, sep, right)
  {
    var rest := left - {a};
    forall s | s in Product(rest, sep, right) && s in Row(a, sep, right)
      ensures false
    {
      var a1, b1 :| a1 in rest && b1 in right && s == a1 + [sep] + b1;
      var b2 :| b2 in right && s == a + [sep] + b2;
      JoinedInjective(a1, b1, a, b2, sep);
    }
  }

  /** The product has one member per pair: `|left| * |right|` members. */
  lemma {:induction false} ProductCardinality(left: set<string>, sep: char, right: set<string>)
    requires forall a :: a in left ==> sep !in a
    ensures |Product(left, sep, right)| == |left| * |right|
    decreases left
  {
    if left != {} {
      var a :| a in left;
      var rest := left - {a};
      ProductCardinality(rest, sep, right);
      RowCardinality(a, sep, right);
      ProductWithoutOne(left, a, sep, right);
      var others, row := Product(rest, sep, right), Row(a, sep, right);
      DisjointUnionCardinality(others, row);
      assert |left| == |rest| + 1;
      MulSucc(|rest|, |right|);
    }
  }

  lemma DisjointUnionCardinality(x: set<string>, y: set<string>)
    requires x !! y
    ensures |x + y| == |x| + |y|
  {
    assert x * y == {};
  }

  lemma MulSucc(n: nat, m: nat)
    ensures (n + 1) * m == n * m + m
  {
  }
}
