/** JSON merge patches: application as in section 2 of RFC 7396, and the difference of two
    objects as the merge-patch library computes it for the committer. */
module MergePatch {
  import opened JsonDoc

  /** Section 2 of RFC 7396. A member missing from the target is merged like a null one. */
  function Merge(target: Json, patch: Json): Json
    decreases patch
  {
    if patch.Obj? then
      Obj(MergeFields(if target.Obj? then target.fields else map[], patch.fields))
    else patch
  }

  function MergeFields(t: Fields, p: Fields): Fields
    decreases Obj(p), 0
  {
    map k | k in t.Keys + p.Keys && (k in p ==> p[k] != Null) ::
      if k in p then Merge(if k in t then t[k] else Null, p[k]) else t[k]
  }

  /** The patch for one member present on both sides; None when there is nothing to say. */
  function DiffMember(a: Json, b: Json): Option<Json>
    decreases a
  {
    if a.Obj? && b.Obj? then
      var d := Diff(a.fields, b.fields);
      if d == map[] then None else Some(Obj(d))
    else if a == b then None
    else Some(b)
  }

  function Diff(a: Fields, b: Fields): Fields
    decreases Obj(a), 0
  {
    map k | k in a.Keys + b.Keys && (k in a && k in b ==> DiffMember(a[k], b[k]).Some?) ::
      if k !in b then Null
      else if k !in a then b[k]
      else DiffMember(a[k], b[k]).value
  }

  /** No null of b is new: a member that a does not hold in the same shape holds no null. */
  predicate NoNewNulls(a: Fields, b: Fields)
    decreases Obj(a)
  {
    forall k <- b ::
      if k !in a then NullFree(b[k])
      else if a[k].Obj? && b[k].Obj? then NoNewNulls(a[k].fields, b[k].fields)
      else a[k] == b[k] || NullFree(b[k])
  }

  lemma {:induction false} NullFreeAddsNone(a: Fields, b: Fields)
    requires NullFree(Obj(b))
    ensures NoNewNulls(a, b)
    decreases Obj(a)
  {
    forall k | k in b && k in a && a[k].Obj? && b[k].Obj? ensures NoNewNulls(a[k].fields, b[k].fields) {
      NullFreeAddsNone(a[k].fields, b[k].fields);
    }
  }

  /** Merging a value where there was no object drops every null, so it arrives whole
      exactly when it has none. */
  lemma {:induction false} MergeIntoNothing(target: Json, v: Json)
    requires !target.Obj?
    ensures Merge(target, v) == v && v != Null <==> NullFree(v)
    decreases v
  {
    if v.Obj? {
      var m := MergeFields(map[], v.fields);
      forall k | k in v.fields
        ensures Merge(Null, v.fields[k]) == v.fields[k] && v.fields[k] != Null <==> NullFree(v.fields[k])
        ensures v.fields[k] != Null ==> k in m && m[k] == Merge(Null, v.fields[k])
        ensures v.fields[k] == Null ==> k !in m
      {
        MergeIntoNothing(Null, v.fields[k]);
      }
      if NullFree(v) {
        assert m == v.fields;
      }
    }
  }

  lemma MemberAlone(target: Json, b: Json)
    ensures !(target.Obj? && b.Obj?) ==> (Merge(target, b) == b && b != Null <==> NullFree(b))
  {
    if !target.Obj? {
      MergeIntoNothing(target, b);
    }
  }

  /** The two objects a and t agree on a, and b puts nothing where t alone holds an object. */
  ghost predicate Covers(t: Fields, a: Fields, b: Fields) {
    && a.Keys <= t.Keys
    && (forall k <- a :: t[k] == a[k])
    && (forall k <- b :: k in t && k !in a ==> !t[k].Obj?)
  }

  predicate MemberNotNew(a: Fields, k: string, v: Json) {
    if k !in a then NullFree(v)
    else if a[k].Obj? && v.Obj? then NoNewNulls(a[k].fields, v.fields)
    else a[k] == v || NullFree(v)
  }

  lemma {:induction false} MemberRoundTrip(t: Fields, a: Fields, b: Fields, k: string)
    requires Covers(t, a, b) && k in b
    ensures var m := MergeFields(t, Diff(a, b));
            (k in m && m[k] == b[k]) <==> MemberNotNew(a, k, b[k])
    decreases Obj(a), 1
  {
    if k !in a {
      MemberAlone(if k in t then t[k] else Null, b[k]);
    } else if a[k].Obj? && b[k].Obj? {
      ObjectRoundTrip(t, a, b, k);
    } else {
      MemberAlone(a[k], b[k]);
    }
  }

  /** A member that is an object on both sides. */
  lemma {:induction false} ObjectRoundTrip(t: Fields, a: Fields, b: Fields, k: string)
    requires Covers(t, a, b) && k in a && k in b && a[k].Obj? && b[k].Obj?
    ensures var m := MergeFields(t, Diff(a, b));
            (k in m && m[k] == b[k]) <==> NoNewNulls(a[k].fields, b[k].fields)
    decreases Obj(a), 0
  {
    var m := MergeFields(t, Diff(a, b));
    var x, y := a[k].fields, b[k].fields;
    DiffRoundTrip(x, x, y);
    assert (x - x.Keys) + y == y;
    assert DiffMember(a[k], b[k]) == None ==> MergeFields(x, Diff(x, y)) == x && m[k] == a[k];
  }

  /** Round trip with its exact condition: the difference of a and b, merged into a, gives b
      if and only if b brings in no new null. The target t may hold further members. */
  lemma {:induction false} DiffRoundTrip(t: Fields, a: Fields, b: Fields)
    requires Covers(t, a, b)
    ensures MergeFields(t, Diff(a, b)) == (t - a.Keys) + b <==> NoNewNulls(a, b)
    decreases Obj(a), 2
  {
    var m := MergeFields(t, Diff(a, b));
    var want := (t - a.Keys) + b;
    forall k | k in b ensures (k in m && m[k] == b[k]) <==> MemberNotNew(a, k, b[k]) {
      MemberRoundTrip(t, a, b, k);
    }
    forall k | k !in b ensures k in m <==> k in want
                       ensures k in m ==> m[k] == want[k]
    {
    }
    if NoNewNulls(a, b) {
      forall k | k in b ensures k in m && m[k] == want[k] {
        assert MemberNotNew(a, k, b[k]);
      }
      assert m.Keys == want.Keys;
      assert m == want;
    }
    if m == want {
      forall k | k in b ensures MemberNotNew(a, k, b[k]) {
        assert k in want && want[k] == b[k];
      }
    }
  }
}
