/** `Path<T>`: every route through an object type, as a tuple of keys. */
module TuplePaths {
  import opened Shapes

  /**
   * For each key `k` of an object, `[k]` and `[k]` followed by every path of
   * the key's own type; a non-object type has no paths (`never`).
   */
  function Path(s: Shape): set<seq<string>>
  {
    match s
    case Leaf => {}
    case Obj(f) => (set k | k in f :: [k]) + (set k, p | k in f && p in Path(f[k]) :: [k] + p)
  }

  /** Reference definition: `p` is non-empty and each key is a key of the object the previous keys reach. */
  predicate Follows(s: Shape, p: seq<string>)
    decreases |p|
  {
    && |p| > 0
    && s.Obj?
    && p[0] in s.fields
    && (|p| == 1 || Follows(s.fields[p[0]], p[1..]))
  }

  /** `Path` enumerates exactly the key sequences that follow the nesting. */
  lemma {:induction false} PathIffFollows(s: Shape, p: seq<string>)
    ensures p in Path(s) <==> Follows(s, p)
    decreases |p|
  {
    if s.Obj? && |p| > 1 && p[0] in s.fields {
      var f := s.fields;
      PathIffFollows(f[p[0]], p[1..]);
      assert p == [p[0]] + p[1..];
      if p in Path(s) {
        var k, q :| k in f && q in Path(f[k]) && p == [k] + q;
        assert q == p[1..];
      }
    } else if s.Obj? && |p| == 1 && p[0] in s.fields {
      assert p == [p[0]];
    } else if s.Obj? && |p| > 0 && p !in Path(s) {
      assert !Follows(s, p);
    }
  }

  /** Every path is non-empty and starts with a key of the object. */
  lemma PathStartsWithKey(s: Shape, p: seq<string>)
    requires p in Path(s)
    ensures |p| > 0 && s.Obj? && p[0] in s.fields
  {
    PathIffFollows(s, p);
  }

  lemma {:induction false} FollowsPrefix(s: Shape, p: seq<string>, i: nat)
    requires Follows(s, p) && 1 <= i <= |p|
    ensures Follows(s, p[..i])
    decreases |p|
  {
    if i > 1 {
      FollowsPrefix(s.fields[p[0]], p[1..], i - 1);
      assert p[..i][1..] == p[1..][..i - 1];
    }
  }

  /** Every non-empty prefix of a path is a path. */
  lemma PathPrefixClosed(s: Shape, p: seq<string>, i: nat)
    requires p in Path(s) && 1 <= i <= |p|
    ensures p[..i] in Path(s)
  {
    PathIffFollows(s, p);
    FollowsPrefix(s, p, i);
    PathIffFollows(s, p[..i]);
  }

  /** Every key is a path, and an object-valued key extends each path of its object. */
  lemma KeyPaths(f: map<string, Shape>, k: string, q: seq<string>)
    requires k in f
    ensures [k] in Path(Obj(f))
    ensures q in Path(f[k]) ==> [k] + q in Path(Obj(f))
  {
  }

  /** A key whose value is not an object contributes only the path `[k]`. */
  lemma LeafKeyOnlySingleton(f: map<string, Shape>, k: string, p: seq<string>)
    requires k in f && f[k].Leaf?
    requires p in Path(Obj(f)) && p[0] == k
    ensures p == [k]
  {
    PathIffFollows(Obj(f), p);
  }

  /** The three paths of `User` written out in its doc comment. */
  lemma UserPathExamples()
    ensures ["id"] in Path(User)
    ensures ["address", "country"] in Path(User)
    ensures ["address", "street", "streetName"] in Path(User)
  {
    assert Follows(User, ["id"]);
    assert Follows(User, ["address", "country"]);
    assert Follows(User, ["address", "street", "streetName"]);
    PathIffFollows(User, ["id"]);
    PathIffFollows(User, ["address", "country"]);
    PathIffFollows(User, ["address", "street", "streetName"]);
  }
}
