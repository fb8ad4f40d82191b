/** Removal of empty values from container overrides
    (appclusterbinding_reconcile.go, cleanMap and isEmptyValue). */
module CleanMap {
  import opened JsonDoc

  predicate IsEmptyValue(v: Json) {
    match v
    case Null => true
    case Bool(b) => !b
    case Num(n) => n == ZERO
    case Str(s) => s == ""
    case Arr(items) => items == []
    case Obj(fields) => fields == map[]
  }

  /** The empty values: null, false, zero, and the empty text, array and object. */
  lemma EmptyValues(v: Json)
    ensures IsEmptyValue(v) <==> v in {Null, Bool(false), Num(Decimal(0, 0)), Str(""), Arr([]), Obj(map[])}
  {
  }

  /** Specification: a member stays when its own cleaned value is not empty.
      Arrays are leaves and are left as they are. */
  function Cleaned(v: Json): Json
    decreases v
  {
    if v.Obj? then Obj(CleanedFields(v.fields)) else v
  }

  function CleanedFields(m: Fields): Fields
    decreases Obj(m), 0
  {
    map k | k in m && !IsEmptyValue(Cleaned(m[k])) :: Cleaned(m[k])
  }

  /** cleanMap: visits the members in an arbitrary order and recurses into objects. */
  method CleanMap(m: Fields) returns (result: Fields)
    ensures result == CleanedFields(m)
    decreases Obj(m)
  {
    result := map[];
    var todo := m.Keys;
    while todo != {}
      invariant todo <= m.Keys
      invariant result == map k | k in CleanedFields(m) && k !in todo :: CleanedFields(m)[k]
      decreases |todo|
    {
      var k :| k in todo;
      todo := todo - {k};
      var v := m[k];
      if IsEmptyValue(v) {
        EmptyStaysEmpty(v);
        continue;
      }
      if v.Obj? {
        assert Obj(v.fields) == v;
        var cleaned := CleanMap(v.fields);
        if |cleaned| > 0 {
          result := result[k := Obj(cleaned)];
        }
      } else {
        result := result[k := v];
      }
    }
  }

  lemma EmptyStaysEmpty(v: Json)
    requires IsEmptyValue(v)
    ensures IsEmptyValue(Cleaned(v))
  {
  }

  /** No value met on any path through objects is empty; the root object may be. */
  ghost predicate NoEmptyBelow(m: Fields) {
    forall path | path != [] && At(Obj(m), path).Some? :: !IsEmptyValue(At(Obj(m), path).value)
  }

  /** The leaf at a path: a non-empty value that is not an object. */
  ghost predicate HasLeaf(m: Fields, path: seq<string>, v: Json) {
    At(Obj(m), path) == Some(v) && !v.Obj? && !IsEmptyValue(v)
  }

  lemma {:induction false} CleaningLeavesNoEmptyValue(m: Fields, path: seq<string>)
    requires path != [] && At(Obj(CleanedFields(m)), path).Some?
    ensures !IsEmptyValue(At(Obj(CleanedFields(m)), path).value)
    decreases path
  {
    var v := m[path[0]];
    assert CleanedFields(m)[path[0]] == Cleaned(v);
    if path[1..] != [] {
      CleaningLeavesNoEmptyValue(v.fields, path[1..]);
    }
  }

  /** Cleaning keeps exactly the non-empty leaves, each at its path with its value. */
  lemma {:induction false} CleaningKeepsExactlyTheLeaves(m: Fields, path: seq<string>, v: Json)
    ensures HasLeaf(CleanedFields(m), path, v) <==> HasLeaf(m, path, v)
    ensures HasLeaf(m, path, v) <==>
              At(Obj(m), path) == Some(v) && !v.Obj? && v !in {Null, Bool(false), Num(Decimal(0, 0)), Str(""), Arr([])}
    decreases path
  {
    if path != [] {
      var k, rest := path[0], path[1..];
      assert path == [k] + rest;
      AtCons(m, k, rest);
      AtCons(CleanedFields(m), k, rest);
      if k in m && m[k].Obj? {
        CleaningKeepsExactlyTheLeaves(m[k].fields, rest, v);
      } else if k in m && rest != [] {
        assert At(m[k], rest) == None;
      }
    }
  }

  /** An object without empty values below its root has a leaf. */
  lemma {:induction false} SomeLeaf(m: Fields) returns (path: seq<string>, v: Json)
    requires NoEmptyBelow(m) && m != map[]
    ensures path != [] && HasLeaf(m, path, v)
    decreases Obj(m)
  {
    var k :| k in m;
    AtCons(m, k, []);
    if m[k].Obj? {
      NoEmptyInside(m, k);
      var p, w := SomeLeaf(m[k].fields);
      path, v := [k] + p, w;
      AtCons(m, k, p);
    } else {
      path, v := [k], m[k];
    }
  }

  lemma NoEmptyInside(m: Fields, k: string)
    requires NoEmptyBelow(m) && k in m && m[k].Obj?
    ensures NoEmptyBelow(m[k].fields) && m[k].fields != map[]
  {
    forall p | p != [] && At(m[k], p).Some? ensures !IsEmptyValue(At(m[k], p).value) {
      AtCons(m, k, p);
    }
    AtCons(m, k, []);
  }

  ghost predicate SameLeaves(a: Fields, b: Fields) {
    forall path, v :: HasLeaf(a, path, v) <==> HasLeaf(b, path, v)
  }

  lemma SameLeavesInside(a: Fields, b: Fields, k: string)
    requires SameLeaves(a, b) && k in a && k in b && a[k].Obj? && b[k].Obj?
    ensures SameLeaves(a[k].fields, b[k].fields)
  {
    forall p, v ensures HasLeaf(a[k].fields, p, v) <==> HasLeaf(b[k].fields, p, v) {
      AtCons(a, k, p);
      AtCons(b, k, p);
      assert HasLeaf(a, [k] + p, v) <==> HasLeaf(b, [k] + p, v);
    }
  }

  /** A leaf under member k of a, seen from b. */
  lemma MemberShared(a: Fields, b: Fields, k: string)
    requires NoEmptyBelow(a) && SameLeaves(a, b) && k in a
    ensures k in b && (a[k].Obj? <==> b[k].Obj?) && (!a[k].Obj? ==> a[k] == b[k])
  {
    AtCons(a, k, []);
    AtCons(b, k, []);
    if a[k].Obj? {
      NoEmptyInside(a, k);
      var p, v := SomeLeaf(a[k].fields);
      AtCons(a, k, p);
      AtCons(b, k, p);
      assert HasLeaf(a, [k] + p, v);
      assert HasLeaf(b, [k] + p, v);
    } else {
      assert HasLeaf(a, [k], a[k]);
      assert HasLeaf(b, [k], a[k]);
    }
  }

  lemma {:induction false} LeavesDetermine(a: Fields, b: Fields)
    requires NoEmptyBelow(a) && NoEmptyBelow(b) && SameLeaves(a, b)
    ensures a == b
    decreases Obj(a)
  {
    forall k | k in a ensures k in b && a[k] == b[k] {
      MemberShared(a, b, k);
      if a[k].Obj? {
        NoEmptyInside(a, k);
        NoEmptyInside(b, k);
        SameLeavesInside(a, b, k);
        LeavesDetermine(a[k].fields, b[k].fields);
      }
    }
    forall k | k in b ensures k in a {
      MemberShared(b, a, k);
    }
  }

  /** The two promises of cleaning leave no freedom: an object is the result of cleaning m
      if and only if it holds no empty value and has exactly the leaves of m. */
  lemma CleaningCharacterised(m: Fields, r: Fields)
    ensures r == CleanedFields(m) <==> NoEmptyBelow(r) && SameLeaves(r, m)
  {
    forall p | p != [] && At(Obj(CleanedFields(m)), p).Some?
      ensures !IsEmptyValue(At(Obj(CleanedFields(m)), p).value)
    {
      CleaningLeavesNoEmptyValue(m, p);
    }
    forall p, v ensures HasLeaf(CleanedFields(m), p, v) <==> HasLeaf(m, p, v) {
      CleaningKeepsExactlyTheLeaves(m, p, v);
    }
    if NoEmptyBelow(r) && SameLeaves(r, m) {
      LeavesDetermine(r, CleanedFields(m));
    }
  }

  lemma CleaningIsIdempotent(m: Fields)
    ensures CleanedFields(CleanedFields(m)) == CleanedFields(m)
  {
    CleaningCharacterised(m, CleanedFields(m));
    CleaningCharacterised(CleanedFields(m), CleanedFields(m));
  }
}
