/** The order-insensitive comparison of parameters (client/serviceinstance/serviceinstance.go,
    the comparison inside ParameterUpdateForBroker). enc is json.Marshal, kept as a function
    that encodes different documents differently. */
module OrderedCompare {
  import opened JsonDoc

  // ---------------------------------------------------------------- the order of encoded texts

  /** string(aj) < string(bj) */
  predicate TextLess(a: string, b: string) {
    if b == "" then false
    else if a == "" then true
    else a[0] < b[0] || (a[0] == b[0] && TextLess(a[1..], b[1..]))
  }

  lemma {:induction false} TextTotal(a: string, b: string)
    ensures !(TextLess(a, b) && TextLess(b, a))
    ensures TextLess(a, b) || TextLess(b, a) <==> a != b
  {
    if a != "" && b != "" {
      TextTotal(a[1..], b[1..]);
      assert a == [a[0]] + a[1..] && b == [b[0]] + b[1..];
    }
  }

  lemma {:induction false} TextTransitive(a: string, b: string, c: string)
    requires !TextLess(b, a) && !TextLess(c, b)
    ensures !TextLess(c, a)
  {
    if a != "" && b != "" && c != "" && a[0] == b[0] == c[0] {
      TextTransitive(a[1..], b[1..], c[1..]);
    }
  }

  type Encoding = Json -> string

  ghost predicate Injective(enc: Encoding) {
    forall a, b :: enc(a) == enc(b) ==> a == b
  }

  // ---------------------------------------------------------------- sorting

  /** Where x goes in a stable insertion: in front of the first element that is greater. */
  function Place(enc: Encoding, x: Json, s: seq<Json>): (i: nat)
    ensures i <= |s| && (i < |s| ==> TextLess(enc(x), enc(s[i])))
    ensures forall j | 0 <= j < i :: !TextLess(enc(x), enc(s[j]))
  {
    if s == [] || TextLess(enc(x), enc(s[0])) then 0
    else
      var i := Place(enc, x, s[1..]);
      assert forall j | 0 < j < i + 1 :: s[j] == s[1..][j - 1];
      i + 1
  }

  function Inserted(enc: Encoding, x: Json, r: seq<Json>): seq<Json> {
    r[..Place(enc, x, r)] + [x] + r[Place(enc, x, r)..]
  }

  function Sort(enc: Encoding, s: seq<Json>): (r: seq<Json>)
    ensures |r| == |s| && forall i | 0 <= i < |r| :: r[i] in s
  {
    if s == [] then [] else Inserted(enc, s[|s| - 1], Sort(enc, s[..|s| - 1]))
  }

  predicate InOrder(enc: Encoding, s: seq<Json>) {
    forall i, j | 0 <= i < j < |s| :: !TextLess(enc(s[j]), enc(s[i]))
  }

  lemma InsertKeepsOrder(enc: Encoding, x: Json, r: seq<Json>)
    requires InOrder(enc, r)
    ensures InOrder(enc, Inserted(enc, x, r))
  {
    var i := Place(enc, x, r);
    var s := Inserted(enc, x, r);
    forall j | i <= j < |r| ensures !TextLess(enc(r[j]), enc(x)) {
      TextTotal(enc(x), enc(r[i]));
      if TextLess(enc(r[j]), enc(x)) {
        TextTotal(enc(r[j]), enc(x));
        TextTransitive(enc(r[i]), enc(r[j]), enc(x));
      }
    }
    forall j, k | 0 <= j < k < |s| ensures !TextLess(enc(s[k]), enc(s[j])) {
      var before, after := if j < i then j else j - 1, if k < i then k else k - 1;
      if j == i {
        assert s[k] == r[after];
      } else if k == i {
        assert s[j] == r[before];
      } else {
        assert s[j] == r[before] && s[k] == r[after];
      }
    }
  }

  lemma SortStep(enc: Encoding, front: seq<Json>, x: Json)
    ensures Sort(enc, front + [x]) == Inserted(enc, x, Sort(enc, front))
  {
    assert (front + [x])[..|front|] == front;
  }

  lemma PlaceLast(enc: Encoding, x: Json, s: seq<Json>)
    requires forall j | 0 <= j < |s| :: !TextLess(enc(x), enc(s[j]))
    ensures Inserted(enc, x, s) == s + [x]
  {
    assert Place(enc, x, s) == |s|;
    assert s[..|s|] == s && s[|s|..] == [];
  }

  /** Sorting leaves what is in order as it is. */
  lemma {:induction false} SortedStays(enc: Encoding, s: seq<Json>)
    requires InOrder(enc, s)
    ensures Sort(enc, s) == s
  {
    if s != [] {
      var front, x := s[..|s| - 1], s[|s| - 1];
      SortedStays(enc, front);
      SplitLast(s);
      PlaceLast(enc, x, front);
      SortStep(enc, front, x);
    }
  }

  lemma InsertKeepsElements(enc: Encoding, x: Json, r: seq<Json>)
    ensures multiset(Inserted(enc, x, r)) == multiset(r) + multiset{x}
  {
    var i := Place(enc, x, r);
    assert r == r[..i] + r[i..];
  }

  lemma {:induction false} SortKeepsElements(enc: Encoding, s: seq<Json>)
    ensures multiset(Sort(enc, s)) == multiset(s)
  {
    if s != [] {
      var front, x := s[..|s| - 1], s[|s| - 1];
      SortKeepsElements(enc, front);
      InsertKeepsElements(enc, x, Sort(enc, front));
      SplitLast(s);
    }
  }

  lemma {:induction false} SortIsOrdered(enc: Encoding, s: seq<Json>)
    ensures InOrder(enc, Sort(enc, s))
  {
    if s != [] {
      var front, x := s[..|s| - 1], s[|s| - 1];
      SortIsOrdered(enc, front);
      InsertKeepsOrder(enc, x, Sort(enc, front));
    }
  }

  /** Sorting by encoded text is unique: it depends on the multiset of elements only. */
  lemma {:induction false} OrderedIsUnique(enc: Encoding, a: seq<Json>, b: seq<Json>)
    requires Injective(enc) && InOrder(enc, a) && InOrder(enc, b) && multiset(a) == multiset(b)
    ensures a == b
    decreases |a|
  {
    assert |a| == |multiset(a)| == |multiset(b)| == |b|;
    if a != [] {
      SameLeast(enc, a, b);
      SplitFirst(a);
      SplitFirst(b);
      assert multiset(a[1..]) == multiset(a) - multiset{a[0]} == multiset(b) - multiset{b[0]} == multiset(b[1..]);
      OrderedIsUnique(enc, a[1..], b[1..]);
      assert a[1..] == b[1..];
    }
  }

  lemma SameLeast(enc: Encoding, a: seq<Json>, b: seq<Json>)
    requires Injective(enc) && InOrder(enc, a) && InOrder(enc, b) && a != [] && b != [] && multiset(a) == multiset(b)
    ensures a[0] == b[0]
  {
    LeastComesFirst(enc, a, b);
    LeastComesFirst(enc, b, a);
    TextTotal(enc(a[0]), enc(b[0]));
  }

  lemma LeastComesFirst(enc: Encoding, a: seq<Json>, b: seq<Json>)
    requires InOrder(enc, a) && a != [] && b != [] && multiset(a) == multiset(b)
    ensures !TextLess(enc(b[0]), enc(a[0]))
  {
    assert b[0] in multiset(a);
    var j :| 0 <= j < |a| && a[j] == b[0];
    TextTotal(enc(a[0]), enc(a[0]));
  }

  // ---------------------------------------------------------------- the comparison

  /** cmp.Equal with SortSlices and EquateEmpty, on decoded JSON: arrays are compared element by
      element after sorting both, at every depth. Sorting leaves a sorted array and one of at
      most one element as it is; no decoded array or object is nil. */
  predicate Same(enc: Encoding, x: Json, y: Json)
    decreases x
  {
    match (x, y)
    case (Arr(a), Arr(b)) =>
      |a| == |b| && forall i | 0 <= i < |a| :: Same(enc, Sort(enc, a)[i], Sort(enc, b)[i])
    case (Obj(f), Obj(g)) =>
      f.Keys == g.Keys && forall k <- f :: Same(enc, f[k], g[k])
    case _ => x == y
  }

  /** Every array sorted, from the outside in. */
  function Norm(enc: Encoding, v: Json): Json
    decreases v
  {
    match v
    case Arr(a) => Arr(seq(|a|, i requires 0 <= i < |a| => Norm(enc, Sort(enc, a)[i])))
    case Obj(f) => Obj(map k | k in f :: Norm(enc, f[k]))
    case _ => v
  }

  lemma {:induction false} SameArraysIffNormal(enc: Encoding, a: seq<Json>, b: seq<Json>)
    ensures Same(enc, Arr(a), Arr(b)) <==> Norm(enc, Arr(a)) == Norm(enc, Arr(b))
    decreases a
  {
    var p, q := Norm(enc, Arr(a)).items, Norm(enc, Arr(b)).items;
    if |a| == |b| {
      forall i | 0 <= i < |a| ensures Same(enc, Sort(enc, a)[i], Sort(enc, b)[i]) <==> p[i] == q[i] {
        SameIffNormal(enc, Sort(enc, a)[i], Sort(enc, b)[i]);
      }
      assert p == q <==> forall i | 0 <= i < |a| :: p[i] == q[i];
    } else {
      assert |p| != |q|;
    }
  }

  /** Two documents compare equal exactly when sorting makes them identical. */
  lemma {:induction false} SameIffNormal(enc: Encoding, x: Json, y: Json)
    ensures Same(enc, x, y) <==> Norm(enc, x) == Norm(enc, y)
    decreases x
  {
    match (x, y)
    case (Arr(a), Arr(b)) =>
      SameArraysIffNormal(enc, a, b);
    case (Obj(f), Obj(g)) =>
      var p, q := Norm(enc, x).fields, Norm(enc, y).fields;
      assert p.Keys == f.Keys && q.Keys == g.Keys;
      if f.Keys == g.Keys {
        forall k | k in f ensures Same(enc, f[k], g[k]) <==> p[k] == q[k] {
          SameIffNormal(enc, f[k], g[k]);
        }
        assert p == q <==> forall k | k in f :: p[k] == q[k];
      }
    case _ =>
  }

  /** The comparison is an equivalence. */
  lemma SameIsEquivalence(enc: Encoding, x: Json, y: Json, z: Json)
    ensures Same(enc, x, x)
    ensures Same(enc, x, y) ==> Same(enc, y, x)
    ensures Same(enc, x, y) && Same(enc, y, z) ==> Same(enc, x, z)
  {
    SameIffNormal(enc, x, x);
    SameIffNormal(enc, x, y);
    SameIffNormal(enc, y, x);
    SameIffNormal(enc, y, z);
    SameIffNormal(enc, x, z);
  }

  // ---------------------------------------------------------------- equality up to permutation

  /** p and q are permutations of the first n numbers, inverse to each other. */
  ghost predicate Inverse(p: seq<nat>, q: seq<nat>, n: nat) {
    && |p| == |q| == n
    && (forall i | 0 <= i < n :: p[i] < n && q[p[i]] == i)
    && (forall i | 0 <= i < n :: q[i] < n && p[q[i]] == i)
  }

  /** Equal but for the order of array elements, at every depth. */
  ghost predicate PermEq(x: Json, y: Json)
    decreases x
  {
    match (x, y)
    case (Arr(a), Arr(b)) =>
      |a| == |b| && exists p, q :: Inverse(p, q, |a|) && forall i | 0 <= i < |a| :: PermEq(a[i], b[p[i]])
    case (Obj(f), Obj(g)) =>
      f.Keys == g.Keys && forall k <- f :: PermEq(f[k], g[k])
    case _ => x == y
  }

  /** A permutation extended by one number that goes to place k. */
  lemma InsertInverse(p: seq<nat>, q: seq<nat>, n: nat, k: nat) returns (p1: seq<nat>, q1: seq<nat>)
    requires Inverse(p, q, n) && k <= n
    ensures p1 == p[..k] + [n] + p[k..] && Inverse(p1, q1, n + 1)
  {
    p1 := p[..k] + [n] + p[k..];
    q1 := seq(n + 1, i requires 0 <= i < n + 1 => if i == n then k else if q[i] < k then q[i] else q[i] + 1);
    forall i | 0 <= i < n + 1 ensures p1[i] < n + 1 && q1[p1[i]] == i {
      if i != k {
        assert p1[i] == p[if i < k then i else i - 1];
      }
    }
    forall i | 0 <= i < n + 1 ensures q1[i] < n + 1 && p1[q1[i]] == i {
      if i < n {
        assert p1[q1[i]] == p[q[i]];
      }
    }
  }

  /** The last element of s goes to its place among the others, which are read through p0. */
  lemma InsertPermutes(enc: Encoding, s: seq<Json>, r: seq<Json>, p0: seq<nat>, q0: seq<nat>, n: nat)
    returns (p: seq<nat>, q: seq<nat>)
    requires |s| == n + 1 && |r| == n && Inverse(p0, q0, n)
    requires forall i | 0 <= i < n :: r[i] == s[p0[i]]
    ensures Inverse(p, q, n + 1)
    ensures forall i | 0 <= i < n + 1 :: Inserted(enc, s[n], r)[i] == s[p[i]]
  {
    var k := Place(enc, s[n], r);
    p, q := InsertInverse(p0, q0, n, k);
    forall i | 0 <= i < n + 1 ensures Inserted(enc, s[n], r)[i] == s[p[i]] {
      if i != k {
        var j := if i < k then i else i - 1;
        assert p[i] == p0[j];
      }
    }
  }

  /** Sorting permutes. */
  lemma {:induction false} SortPermutes(enc: Encoding, s: seq<Json>) returns (p: seq<nat>, q: seq<nat>)
    ensures Inverse(p, q, |s|) && forall i | 0 <= i < |s| :: Sort(enc, s)[i] == s[p[i]]
  {
    if s == [] {
      p, q := [], [];
    } else {
      var n := |s| - 1;
      var r := Sort(enc, s[..n]);
      var p0, q0 := SortPermutes(enc, s[..n]);
      assert forall i | 0 <= i < n :: r[i] == s[..n][p0[i]] == s[p0[i]];
      p, q := InsertPermutes(enc, s, r, p0, q0, n);
    }
  }

  /** The way from a through the sorted sequences to b. */
  lemma ThroughSorted(p: seq<nat>, q: seq<nat>, r: seq<nat>, s: seq<nat>, n: nat) returns (there: seq<nat>, back: seq<nat>)
    requires Inverse(p, q, n) && Inverse(r, s, n)
    ensures Inverse(there, back, n) && forall i | 0 <= i < n :: there[i] == r[q[i]]
  {
    there := seq(n, i requires 0 <= i < n => r[q[i]]);
    back := seq(n, i requires 0 <= i < n => p[s[i]]);
  }

  lemma {:induction false} SameIsSound(enc: Encoding, x: Json, y: Json)
    requires Same(enc, x, y)
    ensures PermEq(x, y)
    decreases x
  {
    match (x, y)
    case (Arr(a), Arr(b)) =>
      SameArraysAreSound(enc, a, b);
    case (Obj(f), Obj(g)) =>
      forall k | k in f ensures PermEq(f[k], g[k]) {
        SameIsSound(enc, f[k], g[k]);
      }
    case _ =>
  }

  lemma {:induction false} SameArraysAreSound(enc: Encoding, a: seq<Json>, b: seq<Json>)
    requires Same(enc, Arr(a), Arr(b))
    ensures PermEq(Arr(a), Arr(b))
    decreases a
  {
    var p, q := SortPermutes(enc, a);
    var r, s := SortPermutes(enc, b);
    var there, back := ThroughSorted(p, q, r, s, |a|);
    forall i | 0 <= i < |a| ensures PermEq(a[i], b[there[i]]) {
      var j := q[i];
      assert Sort(enc, a)[j] == a[p[j]] == a[i] && Sort(enc, b)[j] == b[r[j]];
      SameIsSound(enc, a[i], b[there[i]]);
    }
  }

  /** A permutation without its last number and that number's image. */
  lemma RemoveInverse(p: seq<nat>, q: seq<nat>, n: nat) returns (p1: seq<nat>, q1: seq<nat>)
    requires Inverse(p, q, n + 1)
    ensures Inverse(p1, q1, n)
    ensures forall i | 0 <= i < n :: p[i] != p[n] && p1[i] == if p[i] < p[n] then p[i] else p[i] - 1
  {
    var m := p[n];
    p1 := seq(n, i requires 0 <= i < n => if p[i] < m then p[i] else (assert q[p[i]] == i && q[m] == n; p[i] - 1));
    q1 := seq(n, j requires 0 <= j < n => if j < m then q[j] else q[j + 1]);
    forall i | 0 <= i < n ensures p[i] != m && p1[i] < n && q1[p1[i]] == i {
      assert q[p[i]] == i && q[m] == n;
    }
    forall j | 0 <= j < n ensures q1[j] < n && p1[q1[j]] == j {
      var j0 := if j < m then j else j + 1;
      assert p[q[j0]] == j0;
    }
  }

  /** A sequence read through a permutation has the same elements. */
  lemma {:induction false} PermutedMultiset(a: seq<Json>, b: seq<Json>, p: seq<nat>, q: seq<nat>)
    requires |a| == |b| && Inverse(p, q, |a|) && forall i | 0 <= i < |a| :: a[i] == b[p[i]]
    ensures multiset(a) == multiset(b)
    decreases |a|
  {
    if a != [] {
      var n := |a| - 1;
      var m := p[n];
      var a1, b1 := a[..n], b[..m] + b[m + 1..];
      var p1, q1 := RemoveInverse(p, q, n);
      forall i | 0 <= i < n ensures a1[i] == b1[p1[i]] {
        assert a[i] == b[p[i]];
      }
      PermutedMultiset(a1, b1, p1, q1);
      assert a == a1 + [a[n]];
      assert b == b[..m] + [b[m]] + b[m + 1..];
    }
  }

  lemma SortPair(enc: Encoding, a: Json, b: Json)
    ensures Sort(enc, [a, b]) == if TextLess(enc(b), enc(a)) then [b, a] else [a, b]
  {
    assert [a, b][..1] == [a];
    assert [a][..0] == [];
    assert Sort(enc, [a]) == [a];
  }

  /** Texts that first differ at k are in the order of their characters there. */
  lemma {:induction false} FirstDifference(a: string, b: string, k: nat)
    requires k < |a| && k < |b| && (forall i | 0 <= i < k :: a[i] == b[i]) && a[k] < b[k]
    ensures TextLess(a, b) && !TextLess(b, a)
  {
    if k > 0 {
      FirstDifference(a[1..], b[1..], k - 1);
    }
  }

  lemma PermEqBy(a: seq<Json>, b: seq<Json>, p: seq<nat>, q: seq<nat>)
    requires |a| == |b| && Inverse(p, q, |a|) && forall i | 0 <= i < |a| :: PermEq(a[i], b[p[i]])
    ensures PermEq(Arr(a), Arr(b))
  {
  }

  lemma PermEqPair(s: seq<Json>, t: seq<Json>)
    requires |s| == |t| == 2 && PermEq(s[0], t[0]) && PermEq(s[1], t[1])
    ensures PermEq(Arr(s), Arr(t))
  {
    var p := [0, 1];
    assert Inverse(p, p, 2);
    PermEqBy(s, t, p, p);
  }

  lemma PermEqSwapped(s: seq<Json>, t: seq<Json>)
    requires |s| == |t| == 2 && PermEq(s[0], t[1]) && PermEq(s[1], t[0])
    ensures PermEq(Arr(s), Arr(t))
  {
    var p := [1, 0];
    assert Inverse(p, p, 2);
    PermEqBy(s, t, p, p);
  }

  lemma SameBy(enc: Encoding, a: seq<Json>, b: seq<Json>)
    requires |a| == |b| && forall i | 0 <= i < |a| :: Same(enc, Sort(enc, a)[i], Sort(enc, b)[i])
    ensures Same(enc, Arr(a), Arr(b))
  {
  }

  lemma SameElements(enc: Encoding, a: seq<Json>, b: seq<Json>, i: nat)
    requires Same(enc, Arr(a), Arr(b)) && i < |a|
    ensures |a| == |b| && Same(enc, Sort(enc, a)[i], Sort(enc, b)[i])
  {
  }

  /** Sorting [a, b] and [c, b] puts b against c. */
  lemma OuterPairs(enc: Encoding, a: Json, b: Json, c: Json)
    requires TextLess(enc(b), enc(a)) && TextLess(enc(c), enc(b)) && Same(enc, Arr([a, b]), Arr([c, b]))
    ensures Same(enc, b, c)
  {
    TextTotal(enc(c), enc(b));
    SortPair(enc, a, b);
    SortPair(enc, c, b);
    SameElements(enc, [a, b], [c, b], 0);
  }

  lemma InnerPairs(enc: Encoding, t: Json, u: Json, v: Json)
    requires TextLess(enc(t), enc(u)) && TextLess(enc(t), enc(v)) && Same(enc, Arr([t, v]), Arr([t, u]))
    ensures Same(enc, v, u)
  {
    TextTotal(enc(t), enc(u));
    TextTotal(enc(t), enc(v));
    SortPair(enc, t, v);
    SortPair(enc, t, u);
    SameElements(enc, [t, v], [t, u], 1);
  }

  lemma NestedPermEq(t: Json, u: Json, v: Json)
    requires t.Num? && u.Num? && v.Num?
    ensures PermEq(Arr([Arr([u, t]), Arr([t, v])]), Arr([Arr([t, u]), Arr([t, v])]))
  {
    PermEqSwapped([u, t], [t, u]);
    PermEqPair([t, v], [t, v]);
    PermEqPair([Arr([u, t]), Arr([t, v])], [Arr([t, u]), Arr([t, v])]);
  }

  /** [[u, t], [t, v]] against [[t, u], [t, v]], for scalars t < u < v whose pairs are ordered as
      their first different element. */
  lemma NestedMiss(enc: Encoding, t: Json, u: Json, v: Json)
    requires t.Num? && u.Num? && v.Num? && u != v
    requires TextLess(enc(t), enc(u)) && TextLess(enc(t), enc(v))
    requires TextLess(enc(Arr([t, v])), enc(Arr([u, t]))) && TextLess(enc(Arr([t, u])), enc(Arr([t, v])))
    ensures var x := Arr([Arr([u, t]), Arr([t, v])]);
            var y := Arr([Arr([t, u]), Arr([t, v])]);
            PermEq(x, y) && !Same(enc, x, y)
  {
    NestedPermEq(t, u, v);
    if Same(enc, Arr([Arr([u, t]), Arr([t, v])]), Arr([Arr([t, u]), Arr([t, v])])) {
      OuterPairs(enc, Arr([u, t]), Arr([t, v]), Arr([t, u]));
      InnerPairs(enc, t, u, v);
    }
  }

  /** With nested arrays the comparison misses permutations: the outer arrays are sorted by the
      text of elements that are not sorted yet. */
  lemma NestedArraysDiffer(enc: Encoding)
    requires enc(Num(Decimal(1, 0))) == "1" && enc(Num(Decimal(2, 0))) == "2" && enc(Num(Decimal(3, 0))) == "3"
    requires enc(Arr([Num(Decimal(2, 0)), Num(Decimal(1, 0))])) == "[2,1]"
    requires enc(Arr([Num(Decimal(1, 0)), Num(Decimal(3, 0))])) == "[1,3]"
    requires enc(Arr([Num(Decimal(1, 0)), Num(Decimal(2, 0))])) == "[1,2]"
    ensures var x := Arr([Arr([Num(Decimal(2, 0)), Num(Decimal(1, 0))]), Arr([Num(Decimal(1, 0)), Num(Decimal(3, 0))])]);
            var y := Arr([Arr([Num(Decimal(1, 0)), Num(Decimal(2, 0))]), Arr([Num(Decimal(1, 0)), Num(Decimal(3, 0))])]);
            PermEq(x, y) && !Same(enc, x, y)
  {
    FirstDifference("[1,3]", "[2,1]", 1);
    FirstDifference("[1,2]", "[1,3]", 3);
    FirstDifference("1", "3", 0);
    FirstDifference("1", "2", 0);
    NestedMiss(enc, Num(Decimal(1, 0)), Num(Decimal(2, 0)), Num(Decimal(3, 0)));
  }
}
