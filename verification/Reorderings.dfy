/** How exact the order-insensitive comparison is: for which documents it sees every reordering of
    arrays as equal, and for which documents it sees nothing else as equal. */
module Reorderings {
  import opened JsonDoc
  import opened OrderedCompare

  // ---------------------------------------------------------------- no reordering is missed

  /** The order of the texts of x and y survives every reordering inside them. */
  ghost predicate OrderKept(enc: Encoding, x: Json, y: Json) {
    forall x1, y1 | PermEq(x, x1) && PermEq(y, y1) :: TextLess(enc(x1), enc(y1)) <==> TextLess(enc(x), enc(y))
  }

  /** At every depth, two elements of an array are equal or keep the order of their texts. */
  ghost predicate Steady(enc: Encoding, v: Json)
    decreases v
  {
    match v
    case Arr(a) => (forall i | 0 <= i < |a| :: Steady(enc, a[i])) && Ranked(enc, a)
    case Obj(f) => forall k <- f :: Steady(enc, f[k])
    case _ => true
  }

  ghost predicate Ranked(enc: Encoding, a: seq<Json>) {
    forall i, j | 0 <= i < |a| && 0 <= j < |a| :: Same(enc, a[i], a[j]) || OrderKept(enc, a[i], a[j])
  }

  /** Every reordering of x compares equal to x. */
  ghost predicate Complete(enc: Encoding, x: Json) {
    forall y | PermEq(x, y) :: Same(enc, x, y)
  }

  lemma PermEqReflexive(x: Json)
    ensures PermEq(x, x)
  {
    var enc: Encoding := _ => "";
    SameIsEquivalence(enc, x, x, x);
    SameIsSound(enc, x, x);
  }

  function Norms(enc: Encoding, s: seq<Json>): (r: seq<Json>)
    ensures |r| == |s| && forall i | 0 <= i < |s| :: r[i] == Norm(enc, s[i])
  {
    seq(|s|, i requires 0 <= i < |s| => Norm(enc, s[i]))
  }

  lemma ArraysSameIffNorms(enc: Encoding, a: seq<Json>, b: seq<Json>)
    ensures Same(enc, Arr(a), Arr(b)) <==> Norms(enc, Sort(enc, a)) == Norms(enc, Sort(enc, b))
  {
    SameIffNormal(enc, Arr(a), Arr(b));
    assert Norm(enc, Arr(a)).items == Norms(enc, Sort(enc, a));
    assert Norm(enc, Arr(b)).items == Norms(enc, Sort(enc, b));
  }

  lemma SortedNorms(enc: Encoding, a: seq<Json>)
    ensures multiset(Norms(enc, Sort(enc, a))) == multiset(Norms(enc, a))
  {
    var p, q := SortPermutes(enc, a);
    PermutedMultiset(Norms(enc, Sort(enc, a)), Norms(enc, a), p, q);
  }

  /** How the elements of a steady array are ordered, told by their sorted forms. */
  ghost predicate Before(enc: Encoding, a: seq<Json>, m: Json, n: Json) {
    m != n && exists i, j :: Apart(enc, a, i, j, m, n)
  }

  ghost predicate Apart(enc: Encoding, a: seq<Json>, i: int, j: int, m: Json, n: Json) {
    && 0 <= i < |a| && 0 <= j < |a|
    && Norm(enc, a[i]) == m && Norm(enc, a[j]) == n && TextLess(enc(a[i]), enc(a[j]))
  }

  lemma SameNormPermEq(enc: Encoding, x: Json, y: Json)
    requires Norm(enc, x) == Norm(enc, y)
    ensures PermEq(x, y)
  {
    SameIffNormal(enc, x, y);
    SameIsSound(enc, x, y);
  }

  lemma BeforeIsAsymmetric(enc: Encoding, a: seq<Json>, m: Json, n: Json)
    requires Ranked(enc, a) && Before(enc, a, m, n)
    ensures !Before(enc, a, n, m)
  {
    var i, j :| Apart(enc, a, i, j, m, n);
    forall k, l ensures !Apart(enc, a, k, l, n, m) {
      if Apart(enc, a, k, l, n, m) {
        SameIffNormal(enc, a[i], a[j]);
        SameNormPermEq(enc, a[i], a[l]);
        SameNormPermEq(enc, a[j], a[k]);
        assert TextLess(enc(a[l]), enc(a[k]));
        TextTotal(enc(a[k]), enc(a[l]));
      }
    }
  }

  ghost predicate OrderedBy(enc: Encoding, a: seq<Json>, s: seq<Json>) {
    forall u, w | 0 <= u < w < |s| :: s[u] == s[w] || Before(enc, a, s[u], s[w])
  }

  /** The first elements agree, since each would come before the other one. */
  lemma SameFirst(enc: Encoding, a: seq<Json>, s: seq<Json>, t: seq<Json>)
    requires Ranked(enc, a) && OrderedBy(enc, a, s) && OrderedBy(enc, a, t) && multiset(s) == multiset(t)
    requires s != [] && t != []
    ensures s[0] == t[0]
  {
    if s[0] != t[0] {
      assert s[0] in multiset(t) && t[0] in multiset(s);
      var u :| 0 <= u < |s| && s[u] == t[0];
      var w :| 0 <= w < |t| && t[w] == s[0];
      assert Before(enc, a, s[0], s[u]) && Before(enc, a, t[0], t[w]);
      BeforeIsAsymmetric(enc, a, s[0], s[u]);
    }
  }

  lemma {:induction false} OneOrder(enc: Encoding, a: seq<Json>, s: seq<Json>, t: seq<Json>)
    requires Ranked(enc, a) && OrderedBy(enc, a, s) && OrderedBy(enc, a, t) && multiset(s) == multiset(t)
    ensures s == t
    decreases |s|
  {
    assert |s| == |multiset(s)| == |multiset(t)| == |t|;
    if s != [] {
      SameFirst(enc, a, s, t);
      SplitFirst(s);
      SplitFirst(t);
      assert multiset(s[1..]) == multiset(s) - multiset{s[0]} == multiset(t) - multiset{t[0]} == multiset(t[1..]);
      OneOrder(enc, a, s[1..], t[1..]);
    }
  }

  /** A sorted sequence of reorderings of the elements of a steady array is in that order. */
  lemma SortedIsOrderedBy(enc: Encoding, a: seq<Json>, c: seq<Json>, r: seq<nat>)
    requires Injective(enc) && Ranked(enc, a) && InOrder(enc, c) && |r| == |c|
    requires forall u | 0 <= u < |c| :: r[u] < |a| && PermEq(a[r[u]], c[u]) && Same(enc, a[r[u]], c[u])
    ensures OrderedBy(enc, a, Norms(enc, c))
  {
    var s := Norms(enc, c);
    forall u, w | 0 <= u < w < |c| ensures s[u] == s[w] || Before(enc, a, s[u], s[w]) {
      SameIffNormal(enc, a[r[u]], c[u]);
      SameIffNormal(enc, a[r[w]], c[w]);
      if s[u] != s[w] {
        SameIffNormal(enc, a[r[u]], a[r[w]]);
        TextTotal(enc(c[u]), enc(c[w]));
        assert Apart(enc, a, r[u], r[w], s[u], s[w]);
      }
    }
  }

  lemma SteadyArrays(enc: Encoding, a: seq<Json>, b: seq<Json>, p: seq<nat>, q: seq<nat>)
    requires Injective(enc) && Ranked(enc, a) && |a| == |b| && Inverse(p, q, |a|)
    requires forall i | 0 <= i < |a| :: PermEq(a[i], b[p[i]]) && Same(enc, a[i], b[p[i]])
    ensures Same(enc, Arr(a), Arr(b))
  {
    var pa, _ := SortPermutes(enc, a);
    var pb, _ := SortPermutes(enc, b);
    SortIsOrdered(enc, a);
    SortIsOrdered(enc, b);
    forall u | 0 <= u < |a| ensures PermEq(a[pa[u]], Sort(enc, a)[u]) && Same(enc, a[pa[u]], Sort(enc, a)[u]) {
      PermEqReflexive(a[pa[u]]);
      SameIsEquivalence(enc, a[pa[u]], a[pa[u]], a[pa[u]]);
    }
    SortedIsOrderedBy(enc, a, Sort(enc, a), pa);
    var r := seq(|a|, u requires 0 <= u < |a| => q[pb[u]]);
    forall u | 0 <= u < |a| ensures PermEq(a[r[u]], Sort(enc, b)[u]) && Same(enc, a[r[u]], Sort(enc, b)[u]) {
      assert p[r[u]] == pb[u];
    }
    SortedIsOrderedBy(enc, a, Sort(enc, b), r);
    SortedNorms(enc, a);
    SortedNorms(enc, b);
    forall i | 0 <= i < |a| ensures Norms(enc, a)[i] == Norms(enc, b)[p[i]] {
      SameIffNormal(enc, a[i], b[p[i]]);
    }
    PermutedMultiset(Norms(enc, a), Norms(enc, b), p, q);
    OneOrder(enc, a, Norms(enc, Sort(enc, a)), Norms(enc, Sort(enc, b)));
    ArraysSameIffNorms(enc, a, b);
  }

  lemma {:induction false} SteadyMeansSame(enc: Encoding, x: Json, y: Json)
    requires Injective(enc) && Steady(enc, x) && PermEq(x, y)
    ensures Same(enc, x, y)
    decreases x
  {
    match (x, y)
    case (Arr(a), Arr(b)) =>
      var p, q :| Inverse(p, q, |a|) && forall i | 0 <= i < |a| :: PermEq(a[i], b[p[i]]);
      forall i | 0 <= i < |a| ensures Same(enc, a[i], b[p[i]]) {
        SteadyMeansSame(enc, a[i], b[p[i]]);
      }
      SteadyArrays(enc, a, b, p, q);
    case (Obj(f), Obj(g)) =>
      forall k | k in f ensures Same(enc, f[k], g[k]) {
        SteadyMeansSame(enc, f[k], g[k]);
      }
    case _ =>
  }

  // ---------------------------------------------------------------- where one is missed

  lemma PermEqPointwise(a: seq<Json>, b: seq<Json>)
    requires |a| == |b| && forall i | 0 <= i < |a| :: PermEq(a[i], b[i])
    ensures PermEq(Arr(a), Arr(b))
  {
    var p: seq<nat> := seq(|a|, i requires 0 <= i < |a| => i);
    assert Inverse(p, p, |a|);
    PermEqBy(a, b, p, p);
  }

  lemma CompleteField(enc: Encoding, f: Fields, k: string)
    requires Complete(enc, Obj(f)) && k in f
    ensures Complete(enc, f[k])
  {
    forall y | PermEq(f[k], y) ensures Same(enc, f[k], y) {
      var g := f[k := y];
      forall l | l in f ensures PermEq(f[l], g[l]) {
        PermEqReflexive(f[l]);
      }
      assert PermEq(Obj(f), Obj(g));
      assert Same(enc, Obj(f), Obj(g));
      assert g[k] == y;
    }
  }

  lemma ElementReplaced(a: seq<Json>, i: nat, y: Json)
    requires i < |a| && PermEq(a[i], y)
    ensures PermEq(Arr(a), Arr(a[i := y]))
  {
    forall j | 0 <= j < |a| ensures PermEq(a[j], a[i := y][j]) {
      PermEqReflexive(a[j]);
    }
    PermEqPointwise(a, a[i := y]);
  }

  lemma SameReplaced(enc: Encoding, a: seq<Json>, i: nat, y: Json)
    requires i < |a| && Same(enc, Arr(a), Arr(a[i := y]))
    ensures Same(enc, a[i], y)
  {
    var b := a[i := y];
    ArraysSameIffNorms(enc, a, b);
    SortedNorms(enc, a);
    SortedNorms(enc, b);
    ReplacedOne(Norms(enc, a), Norms(enc, b), i);
    SameIffNormal(enc, a[i], y);
  }

  lemma CompleteElement(enc: Encoding, a: seq<Json>, i: nat)
    requires Complete(enc, Arr(a)) && i < |a|
    ensures Complete(enc, a[i])
  {
    forall y | PermEq(a[i], y) ensures Same(enc, a[i], y) {
      ElementReplaced(a, i, y);
      SameReplaced(enc, a, i, y);
    }
  }

  lemma ReplacedOne(s: seq<Json>, t: seq<Json>, i: nat)
    requires |s| == |t| && i < |s| && multiset(s) == multiset(t) && forall j | 0 <= j < |s| && j != i :: s[j] == t[j]
    ensures s[i] == t[i]
  {
    assert s == s[..i] + [s[i]] + s[i + 1..];
    assert t == s[..i] + [t[i]] + s[i + 1..];
    assert multiset(s) == multiset(s[..i]) + multiset{s[i]} + multiset(s[i + 1..]);
    assert multiset(t) == multiset(s[..i]) + multiset{t[i]} + multiset(s[i + 1..]);
    assert multiset(s)[s[i]] == multiset(t)[s[i]];
  }

  /** The array a with x and y in the places of all elements that equal them. */
  function Uniform(enc: Encoding, a: seq<Json>, x: Json, y: Json): (b: seq<Json>)
    ensures |b| == |a|
  {
    seq(|a|, i requires 0 <= i < |a| => if Same(enc, x, a[i]) then x else if Same(enc, y, a[i]) then y else a[i])
  }

  lemma UniformIsReordering(enc: Encoding, a: seq<Json>, x: Json, y: Json)
    ensures PermEq(Arr(a), Arr(Uniform(enc, a, x, y))) && Norms(enc, Uniform(enc, a, x, y)) == Norms(enc, a)
  {
    var b := Uniform(enc, a, x, y);
    forall i | 0 <= i < |a| ensures PermEq(a[i], b[i]) && Norm(enc, b[i]) == Norm(enc, a[i]) {
      SameIffNormal(enc, x, a[i]);
      SameIffNormal(enc, y, a[i]);
      SameNormPermEq(enc, a[i], b[i]);
    }
    PermEqPointwise(a, b);
  }

  lemma UniformAt(enc: Encoding, a: seq<Json>, x: Json, y: Json, u: nat)
    requires u < |a| && !Same(enc, x, y)
    ensures var v := Sort(enc, Uniform(enc, a, x, y))[u];
            (Norm(enc, v) == Norm(enc, x) ==> v == x) && (Norm(enc, v) == Norm(enc, y) ==> v == y)
  {
    var b := Uniform(enc, a, x, y);
    var v := Sort(enc, b)[u];
    var i :| 0 <= i < |b| && b[i] == v;
    SameIffNormal(enc, x, y);
    SameIffNormal(enc, x, a[i]);
    SameIffNormal(enc, y, a[i]);
  }

  lemma PlacesInOrder(enc: Encoding, c: seq<Json>, u: nat, w: nat)
    requires InOrder(enc, c) && u < |c| && w < |c| && TextLess(enc(c[u]), enc(c[w]))
    ensures u < w
  {
    TextTotal(enc(c[u]), enc(c[w]));
  }

  /** Sorting puts the places of x in front of the places of y, or the other way round, as their
      texts are ordered. */
  lemma UniformOrder(enc: Encoding, a: seq<Json>, x: Json, y: Json, u: nat, w: nat)
    requires u < |a| && w < |a| && !Same(enc, x, y) && TextLess(enc(x), enc(y))
    requires var c := Sort(enc, Uniform(enc, a, x, y)); Norm(enc, c[u]) == Norm(enc, x) && Norm(enc, c[w]) == Norm(enc, y)
    ensures u < w
  {
    SortIsOrdered(enc, Uniform(enc, a, x, y));
    UniformAt(enc, a, x, y, u);
    UniformAt(enc, a, x, y, w);
    PlacesInOrder(enc, Sort(enc, Uniform(enc, a, x, y)), u, w);
  }

  lemma UniformNorms(enc: Encoding, a: seq<Json>, x: Json, y: Json, u: nat)
    requires Complete(enc, Arr(a)) && u < |a|
    ensures Norm(enc, Sort(enc, a)[u]) == Norm(enc, Sort(enc, Uniform(enc, a, x, y))[u])
  {
    var b := Uniform(enc, a, x, y);
    UniformIsReordering(enc, a, x, y);
    ArraysSameIffNorms(enc, a, b);
    assert Norms(enc, Sort(enc, a))[u] == Norms(enc, Sort(enc, b))[u];
  }

  /** Where an element stands once the array is sorted. */
  lemma SortedAt(enc: Encoding, a: seq<Json>, i: nat) returns (u: nat)
    requires i < |a|
    ensures u < |a| && Sort(enc, a)[u] == a[i]
  {
    var p, q := SortPermutes(enc, a);
    u := q[i];
  }

  /** Reorderings of two different elements are not ordered the other way round. */
  lemma NotReversed(enc: Encoding, a: seq<Json>, i: nat, j: nat, x: Json, y: Json)
    requires Complete(enc, Arr(a)) && i < |a| && j < |a| && !Same(enc, a[i], a[j])
    requires Norm(enc, x) == Norm(enc, a[i]) && Norm(enc, y) == Norm(enc, a[j])
    requires TextLess(enc(a[i]), enc(a[j]))
    ensures !TextLess(enc(y), enc(x))
  {
    if TextLess(enc(y), enc(x)) {
      var u := SortedAt(enc, a, i);
      var w := SortedAt(enc, a, j);
      UniformNorms(enc, a, a[i], a[j], u);
      UniformNorms(enc, a, a[i], a[j], w);
      UniformNorms(enc, a, y, x, u);
      UniformNorms(enc, a, y, x, w);
      SameIffNormal(enc, a[i], a[j]);
      SameIffNormal(enc, y, x);
      UniformOrder(enc, a, a[i], a[j], u, w);
      UniformOrder(enc, a, y, x, w, u);
    }
  }

  lemma CompletePair(enc: Encoding, a: seq<Json>, i: nat, j: nat)
    requires Injective(enc) && Complete(enc, Arr(a)) && i < |a| && j < |a| && !Same(enc, a[i], a[j])
    ensures OrderKept(enc, a[i], a[j])
  {
    CompleteElement(enc, a, i);
    CompleteElement(enc, a, j);
    SameIffNormal(enc, a[i], a[j]);
    forall x, y | PermEq(a[i], x) && PermEq(a[j], y)
      ensures TextLess(enc(x), enc(y)) <==> TextLess(enc(a[i]), enc(a[j]))
    {
      SameIffNormal(enc, a[i], x);
      SameIffNormal(enc, a[j], y);
      SameIffNormal(enc, a[j], a[i]);
      TextTotal(enc(a[i]), enc(a[j]));
      TextTotal(enc(x), enc(y));
      if TextLess(enc(a[i]), enc(a[j])) {
        NotReversed(enc, a, i, j, x, y);
      } else {
        NotReversed(enc, a, j, i, y, x);
      }
    }
  }

  lemma {:induction false} CompleteMeansSteady(enc: Encoding, x: Json)
    requires Injective(enc) && Complete(enc, x)
    ensures Steady(enc, x)
    decreases x
  {
    match x
    case Arr(a) =>
      forall i | 0 <= i < |a| ensures Steady(enc, a[i]) {
        CompleteElement(enc, a, i);
        CompleteMeansSteady(enc, a[i]);
      }
      forall i, j | 0 <= i < |a| && 0 <= j < |a| ensures Same(enc, a[i], a[j]) || OrderKept(enc, a[i], a[j]) {
        if !Same(enc, a[i], a[j]) {
          CompletePair(enc, a, i, j);
        }
      }
    case Obj(f) =>
      forall k | k in f ensures Steady(enc, f[k]) {
        CompleteField(enc, f, k);
        CompleteMeansSteady(enc, f[k]);
      }
    case _ =>
  }

  /** Exactly the documents of which no reordering is missed. */
  lemma CompleteIffSteady(enc: Encoding, x: Json)
    requires Injective(enc)
    ensures Complete(enc, x) <==> Steady(enc, x)
  {
    if Complete(enc, x) {
      CompleteMeansSteady(enc, x);
    }
    if Steady(enc, x) {
      forall y | PermEq(x, y) ensures Same(enc, x, y) {
        SteadyMeansSame(enc, x, y);
      }
    }
  }

  // ---------------------------------------------------------------- documents that are steady at once

  /** No array anywhere in the document. */
  predicate ArrayFree(v: Json)
    decreases v
  {
    !v.Arr? && (v.Obj? ==> forall k <- v.fields :: ArrayFree(v.fields[k]))
  }

  /** No array lies inside an element of another array. */
  predicate Flat(v: Json)
    decreases v
  {
    match v
    case Arr(a) => forall i | 0 <= i < |a| :: ArrayFree(a[i])
    case Obj(f) => forall k <- f :: Flat(f[k])
    case _ => true
  }

  /** Every array, at any depth, repeats one element. */
  predicate Rigid(v: Json)
    decreases v
  {
    match v
    case Arr(a) => forall i | 0 <= i < |a| :: a[i] == a[0] && Rigid(a[i])
    case Obj(f) => forall k <- f :: Rigid(f[k])
    case _ => true
  }

  lemma {:induction false} ArrayFreeIsRigid(v: Json)
    requires ArrayFree(v)
    ensures Rigid(v)
    decreases v
  {
    if v.Obj? {
      forall k | k in v.fields ensures Rigid(v.fields[k]) {
        ArrayFreeIsRigid(v.fields[k]);
      }
    }
  }

  /** Nothing else is a reordering of a rigid document. */
  lemma {:induction false} RigidPermEq(x: Json, y: Json)
    requires Rigid(x) && PermEq(x, y)
    ensures x == y
    decreases x
  {
    match (x, y)
    case (Arr(a), Arr(b)) =>
      var p, q :| Inverse(p, q, |a|) && forall i | 0 <= i < |a| :: PermEq(a[i], b[p[i]]);
      forall i | 0 <= i < |a| ensures b[p[i]] == a[0] {
        RigidPermEq(a[i], b[p[i]]);
      }
      Constant(a, b, p, q);
    case (Obj(f), Obj(g)) =>
      forall k | k in f ensures f[k] == g[k] {
        RigidPermEq(f[k], g[k]);
      }
      assert f == g;
    case _ =>
  }

  lemma Constant(a: seq<Json>, b: seq<Json>, p: seq<nat>, q: seq<nat>)
    requires |a| == |b| && Inverse(p, q, |a|)
    requires forall i | 0 <= i < |a| :: a[i] == a[0] && b[p[i]] == a[0]
    ensures a == b
  {
    forall j | 0 <= j < |a| ensures a[j] == b[j] {
      assert p[q[j]] == j;
    }
  }

  lemma RigidOrderKept(enc: Encoding, x: Json, y: Json)
    requires Rigid(x) && Rigid(y)
    ensures OrderKept(enc, x, y)
  {
    forall x1, y1 | PermEq(x, x1) && PermEq(y, y1)
      ensures TextLess(enc(x1), enc(y1)) <==> TextLess(enc(x), enc(y))
    {
      RigidPermEq(x, x1);
      RigidPermEq(y, y1);
    }
  }

  lemma {:induction false} RigidIsSteady(enc: Encoding, x: Json)
    requires Rigid(x)
    ensures Steady(enc, x)
    decreases x
  {
    match x
    case Arr(a) =>
      forall i | 0 <= i < |a| ensures Steady(enc, a[i]) {
        RigidIsSteady(enc, a[i]);
      }
      forall i, j | 0 <= i < |a| && 0 <= j < |a| ensures OrderKept(enc, a[i], a[j]) {
        RigidOrderKept(enc, a[i], a[j]);
      }
    case Obj(f) =>
      forall k | k in f ensures Steady(enc, f[k]) {
        RigidIsSteady(enc, f[k]);
      }
    case _ =>
  }

  /** Documents without arrays inside elements of arrays are steady, whatever the encoding. */
  lemma {:induction false} FlatIsSteady(enc: Encoding, x: Json)
    requires Flat(x)
    ensures Steady(enc, x)
    decreases x
  {
    match x
    case Arr(a) =>
      forall i | 0 <= i < |a| ensures Rigid(a[i]) && Steady(enc, a[i]) {
        ArrayFreeIsRigid(a[i]);
        RigidIsSteady(enc, a[i]);
      }
      forall i, j | 0 <= i < |a| && 0 <= j < |a| ensures OrderKept(enc, a[i], a[j]) {
        RigidOrderKept(enc, a[i], a[j]);
      }
    case Obj(f) =>
      forall k | k in f ensures Steady(enc, f[k]) {
        FlatIsSteady(enc, f[k]);
      }
    case _ =>
  }

  /** On them the comparison is equality up to the order of array elements. */
  lemma SameIsComplete(enc: Encoding, x: Json, y: Json)
    requires Injective(enc) && Flat(x)
    ensures Same(enc, x, y) <==> PermEq(x, y)
  {
    FlatIsSteady(enc, x);
    if PermEq(x, y) {
      SteadyMeansSame(enc, x, y);
    } else if Same(enc, x, y) {
      SameIsSound(enc, x, y);
    }
  }

  // ---------------------------------------------------------------- nothing but itself

  lemma SortAgrees(enc: Encoding, a: seq<Json>, b: seq<Json>)
    requires Injective(enc) && multiset(a) == multiset(b)
    ensures Same(enc, Arr(a), Arr(b))
  {
    SortIsOrdered(enc, a);
    SortIsOrdered(enc, b);
    SortKeepsElements(enc, a);
    SortKeepsElements(enc, b);
    OrderedIsUnique(enc, Sort(enc, a), Sort(enc, b));
    ArraysSameIffNorms(enc, a, b);
  }

  /** Two different elements of an array can change places. */
  lemma Swapped(enc: Encoding, a: seq<Json>, i: nat) returns (b: seq<Json>)
    requires Injective(enc) && i < |a| && a[i] != a[0]
    ensures a != b && Same(enc, Arr(a), Arr(b))
  {
    b := a[0 := a[i]][i := a[0]];
    SwappedElements(a, b, i);
    SortAgrees(enc, a, b);
  }

  lemma SwappedElements(a: seq<Json>, b: seq<Json>, i: nat)
    requires 0 < i < |a| && b == a[0 := a[i]][i := a[0]]
    ensures multiset(a) == multiset(b)
  {
    var m, n := a[1..i], a[i + 1..];
    assert a == [a[0]] + m + [a[i]] + n;
    assert b == [a[i]] + m + [a[0]] + n;
    assert multiset(a) == multiset{a[0]} + multiset(m) + multiset{a[i]} + multiset(n);
    assert multiset(b) == multiset{a[i]} + multiset(m) + multiset{a[0]} + multiset(n);
  }

  /** All elements of an array that repeats one element can be replaced together. */
  lemma Replaced(enc: Encoding, a: seq<Json>, w: Json) returns (b: seq<Json>)
    requires a != [] && (forall i | 0 <= i < |a| :: a[i] == a[0]) && Same(enc, a[0], w) && a[0] != w
    ensures a != b && Same(enc, Arr(a), Arr(b))
  {
    b := seq(|a|, _ => w);
    assert b[0] != a[0];
    forall i | 0 <= i < |a| ensures Same(enc, Sort(enc, a)[i], Sort(enc, b)[i]) {
      assert Sort(enc, a)[i] in a && Sort(enc, b)[i] in b;
    }
    SameBy(enc, a, b);
  }

  /** A document that is not rigid compares equal to another one. */
  lemma {:induction false} SomeOther(enc: Encoding, v: Json) returns (w: Json)
    requires Injective(enc) && !Rigid(v)
    ensures w != v && Same(enc, v, w)
    decreases v
  {
    match v
    case Arr(a) =>
      var b: seq<Json>;
      if i :| 0 <= i < |a| && a[i] != a[0] {
        b := Swapped(enc, a, i);
      } else {
        var x := SomeOther(enc, a[0]);
        b := Replaced(enc, a, x);
      }
      w := Arr(b);
    case Obj(f) =>
      var k :| k in f && !Rigid(f[k]);
      var x := SomeOther(enc, f[k]);
      forall l | l in f ensures Same(enc, f[l], f[k := x][l]) {
        SameIsEquivalence(enc, f[l], f[l], f[l]);
      }
      w := Obj(f[k := x]);
      assert w.fields[k] == x;
  }

  /** Exactly the rigid documents compare equal to nothing but themselves. */
  lemma AloneIffRigid(enc: Encoding, v: Json)
    requires Injective(enc)
    ensures (forall w | Same(enc, v, w) :: w == v) <==> Rigid(v)
  {
    if Rigid(v) {
      forall w | Same(enc, v, w) ensures w == v {
        SameIsSound(enc, v, w);
        RigidPermEq(v, w);
      }
    } else {
      var other := SomeOther(enc, v);
      assert Same(enc, v, other);
    }
  }
}
