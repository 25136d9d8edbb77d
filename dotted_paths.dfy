/** `Paths<T>`: every route through an object type, as one dot-separated string. */
module DottedPaths {
  import opened Strings
  import opened Shapes
  import opened TuplePaths

  /**
   * For each key `k` of an object: `k` itself, and when the key's type is an
   * object also `k.p` for every path `p` of that object; a non-object type has
   * no paths (`never`).
   */
  function Paths(s: Shape): set<string>
  {
    match s
    case Leaf => {}
    case Obj(f) =>
      (set k | k in f :: k)
      + (set k, p | k in f && f[k].Obj? && p in Paths(f[k]) :: k + "." + p)
  }

  /** A type that is not an object has no paths of either kind (`never`). */
  lemma NonObjectHasNoPaths()
    ensures Paths(Leaf) == {} && Path(Leaf) == {}
  {
  }

  /** The dotted paths are exactly the tuple paths of `Path`, joined with dots. */
  lemma {:induction false} PathsAreJoinedTuplePaths(s: Shape)
    ensures Paths(s) == set p | p in Path(s) :: Join(p, '.')
  {
    match s
    case Leaf =>
    case Obj(f) =>
      var joined := set p | p in Path(s) :: Join(p, '.');
      forall x | x in Paths(s) ensures x in joined {
        if x !in f.Keys {
          var k, y :| k in f && f[k].Obj? && y in Paths(f[k]) && x == k + "." + y;
          PathsAreJoinedTuplePaths(f[k]);
          var q :| q in Path(f[k]) && y == Join(q, '.');
          PathStartsWithKey(f[k], q);
          var p := [k] + q;
          assert p[1..] == q;
          assert Join(p, '.') == x;
          assert p in Path(s);
        } else {
          assert Join([x], '.') == x;
        }
      }
      forall x | x in joined ensures x in Paths(s) {
        var p :| p in Path(s) && x == Join(p, '.');
        if |p| > 1 {
          var k, q :| k in f && q in Path(f[k]) && p == [k] + q;
          assert p[1..] == q;
          PathsAreJoinedTuplePaths(f[k]);
          assert Join(q, '.') in Paths(f[k]);
          assert f[k].Obj?;
        } else {
          PathStartsWithKey(s, p);
        }
      }
  }

  lemma {:induction false} FollowedKeysAvoid(s: Shape, p: seq<string>, c: char)
    requires Follows(s, p) && KeysAvoid(s, c)
    ensures forall i :: 0 <= i < |p| ==> c !in p[i]
    decreases |p|
  {
    if |p| > 1 {
      FollowedKeysAvoid(s.fields[p[0]], p[1..], c);
      assert forall i :: 1 <= i < |p| ==> p[i] == p[1..][i - 1];
    }
  }

  /**
   * When no key holds a dot, a string is a path exactly when cutting it at
   * its dots gives a key sequence that follows the nesting.
   */
  lemma PathsDecided(s: Shape, x: string)
    requires KeysAvoid(s, '.')
    ensures x in Paths(s) <==> Follows(s, Split(x, '.'))
  {
    PathsAreJoinedTuplePaths(s);
    if x in Paths(s) {
      var p :| p in Path(s) && x == Join(p, '.');
      PathIffFollows(s, p);
      FollowedKeysAvoid(s, p, '.');
      SplitJoin(p, '.');
    }
    if Follows(s, Split(x, '.')) {
      PathIffFollows(s, Split(x, '.'));
      JoinSplit(x, '.');
    }
  }

  /** The text of a path before its first dot is a top-level key. */
  lemma FirstSegmentIsKey(s: Shape, x: string)
    requires x in Paths(s)
    requires s.Obj? ==> forall k :: k in s.fields ==> '.' !in k
    ensures s.Obj? && Before(x, '.') in s.fields
  {
    var f := s.fields;
    if x in f {
      BeforeKey(x, '.', "");
    } else {
      var k, y :| k in f && f[k].Obj? && y in Paths(f[k]) && x == k + "." + y;
      BeforeKey(k, '.', y);
    }
  }

  /** `k.p` for every `p` in `ps`. */
  function Prefixed(k: string, ps: set<string>): set<string>
  {
    set p | p in ps :: k + "." + p
  }

  /**
   * What one key contributes: adding key `k` with value shape `v` to an
   * object adds the path `k` and, when `v` is an object, `k.p` for every path
   * `p` of `v` (none when `v` is not an object), and nothing else.
   */
  lemma KeyContribution(f: map<string, Shape>, k: string, v: Shape)
    requires k !in f
    ensures Paths(Obj(f[k := v])) == Paths(Obj(f)) + {k} + Prefixed(k, Paths(v))
  {
    var g := f[k := v];
    var rhs := Paths(Obj(f)) + {k} + Prefixed(k, Paths(v));
    forall x | x in Paths(Obj(g)) ensures x in rhs {
      if x !in g {
        var j, p :| j in g && g[j].Obj? && p in Paths(g[j]) && x == j + "." + p;
        if j != k {
          assert g[j] == f[j];
        }
      }
    }
    forall x | x in rhs ensures x in Paths(Obj(g)) {
      if x == k || x in f {
        assert x in g;
      } else if x in Prefixed(k, Paths(v)) {
        var p :| p in Paths(v) && x == k + "." + p;
        assert v.Obj? && g[k] == v;
        assert k in g && g[k].Obj? && p in Paths(g[k]) && x == k + "." + p;
      } else {
        var j, p :| j in f && f[j].Obj? && p in Paths(f[j]) && x == j + "." + p;
        assert g[j] == f[j];
        assert j in g && g[j].Obj? && p in Paths(g[j]) && x == j + "." + p;
      }
    }
  }

  lemma PrefixedPair(k: string, a: string, b: string)
    ensures Prefixed(k, {a, b}) == {k + "." + a, k + "." + b}
  {
  }

  lemma PairPaths(a: string, b: string)
    requires a != b
    ensures Paths(Obj(map[a := Leaf, b := Leaf])) == {a, b}
  {
    var e: map<string, Shape> := map[];
    assert Paths(Obj(e)) == {};
    KeyContribution(e, a, Leaf);
    KeyContribution(e[a := Leaf], b, Leaf);
    assert map[a := Leaf, b := Leaf] == e[a := Leaf][b := Leaf];
  }

  lemma AddressPaths()
    ensures Paths(Address) == {"country", "city", "street", "flat", "street.streetName", "street.streetNumber", "flat.flatName", "flat.flatNumber"}
  {
    PairPaths("streetName", "streetNumber");
    PairPaths("flatName", "flatNumber");
    PairPaths("country", "city");
    var m := map["country" := Leaf, "city" := Leaf];
    KeyContribution(m, "street", Street);
    PrefixedPair("street", "streetName", "streetNumber");
    assert Paths(Obj(m["street" := Street])) == {"country", "city", "street", "street" + "." + "streetName", "street" + "." + "streetNumber"};
    KeyContribution(m["street" := Street], "flat", Flat);
    PrefixedPair("flat", "flatName", "flatNumber");
    assert Paths(Obj(m["street" := Street]["flat" := Flat])) == {"country", "city", "street", "street" + "." + "streetName", "street" + "." + "streetNumber", "flat", "flat" + "." + "flatName", "flat" + "." + "flatNumber"};
    assert Address.fields == m["street" := Street]["flat" := Flat];
    AddressLiterals();
  }

  lemma AddressLiterals()
    ensures "street" + "." + "streetName" == "street.streetName"
    ensures "street" + "." + "streetNumber" == "street.streetNumber"
    ensures "flat" + "." + "flatName" == "flat.flatName"
    ensures "flat" + "." + "flatNumber" == "flat.flatNumber"
  {
  }

  lemma PrefixedUnion(k: string, a: set<string>, b: set<string>)
    ensures Prefixed(k, a + b) == Prefixed(k, a) + Prefixed(k, b)
  {
  }

  lemma PrefixedLiteralPair(k: string, a: string, b: string, ka: string, kb: string)
    requires k + "." + a == ka && k + "." + b == kb
    ensures Prefixed(k, {a, b}) == {ka, kb}
  {
    PrefixedPair(k, a, b);
  }

  lemma PrefixedFour(k: string, a1: set<string>, a2: set<string>, a3: set<string>, a4: set<string>)
    ensures Prefixed(k, a1 + a2 + a3 + a4) == Prefixed(k, a1) + Prefixed(k, a2) + Prefixed(k, a3) + Prefixed(k, a4)
  {
    PrefixedUnion(k, a1 + a2 + a3, a4);
    PrefixedUnion(k, a1 + a2, a3);
    PrefixedUnion(k, a1, a2);
  }

  lemma AddressPrefixedParts()
    ensures Prefixed("address", {"country", "city"}) == {"address.country", "address.city"}
    ensures Prefixed("address", {"street", "flat"}) == {"address.street", "address.flat"}
    ensures Prefixed("address", {"street.streetName", "street.streetNumber"}) == {"address.street.streetName", "address.street.streetNumber"}
    ensures Prefixed("address", {"flat.flatName", "flat.flatNumber"}) == {"address.flat.flatName", "address.flat.flatNumber"}
  {
    UserLiterals();
    PrefixedLiteralPair("address", "country", "city", "address.country", "address.city");
    PrefixedLiteralPair("address", "street", "flat", "address.street", "address.flat");
    PrefixedLiteralPair("address", "street.streetName", "street.streetNumber", "address.street.streetName", "address.street.streetNumber");
    PrefixedLiteralPair("address", "flat.flatName", "flat.flatNumber", "address.flat.flatName", "address.flat.flatNumber");
  }

  lemma AddressPrefixed(ps: set<string>)
    requires ps == {"country", "city", "street", "flat", "street.streetName", "street.streetNumber", "flat.flatName", "flat.flatNumber"}
    ensures Prefixed("address", ps) == {"address.country", "address.city", "address.street", "address.flat", "address.street.streetName", "address.street.streetNumber", "address.flat.flatName", "address.flat.flatNumber"}
  {
    var k := "address";
    var a1, a2 := {"country", "city"}, {"street", "flat"};
    var a3, a4 := {"street.streetName", "street.streetNumber"}, {"flat.flatName", "flat.flatNumber"};
    assert ps == a1 + a2 + a3 + a4;
    AddressPrefixedParts();
    PrefixedFour(k, a1, a2, a3, a4);
  }

  /** The complete list of `User` paths, intermediate objects included. */
  lemma UserPaths()
    ensures Paths(User) == {"id", "firstName", "lastName", "address", "address.country", "address.city", "address.street", "address.street.streetName", "address.street.streetNumber", "address.flat", "address.flat.flatName", "address.flat.flatNumber"}
  {
    var e: map<string, Shape> := map[];
    assert Paths(Obj(e)) == {};
    KeyContribution(e, "id", Leaf);
    var m1 := e["id" := Leaf];
    KeyContribution(m1, "firstName", Leaf);
    var m2 := m1["firstName" := Leaf];
    KeyContribution(m2, "lastName", Leaf);
    var m3 := m2["lastName" := Leaf];
    assert Paths(Obj(m3)) == {"id", "firstName", "lastName"};
    KeyContribution(m3, "address", Address);
    assert User.fields == m3["address" := Address];
    AddressPaths();
    AddressPrefixed(Paths(Address));
  }

  lemma UserLiterals()
    ensures "address" + "." + "country" == "address.country"
    ensures "address" + "." + "city" == "address.city"
    ensures "address" + "." + "street" == "address.street"
    ensures "address" + "." + "flat" == "address.flat"
    ensures "address" + "." + "street.streetName" == "address.street.streetName"
    ensures "address" + "." + "street.streetNumber" == "address.street.streetNumber"
    ensures "address" + "." + "flat.flatName" == "address.flat.flatName"
    ensures "address" + "." + "flat.flatNumber" == "address.flat.flatNumber"
  {
  }

}
