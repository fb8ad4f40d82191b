/** What several modules share: optional values, and JSON documents as the decoders of the
    repository produce them for parameters, patches, overrides and credentials. */
module JsonDoc {

  datatype Option<+T> = None | Some(value: T)

  /** A number by its shortest decimal form: digits times a power of ten, with no zero at the end of
      the digits. Every finite float64 has exactly one such form. */
  datatype Decimal = Decimal(digits: int, exponent: int)

  type Number = d: Decimal | d.digits % 10 != 0 || d == Decimal(0, 0) witness Decimal(0, 0)

  const ZERO: Number := Decimal(0, 0)

  datatype Json =
    | Null
    | Bool(b: bool)
    | Num(n: Number)
    | Str(s: string)
    | Arr(items: seq<Json>)
    | Obj(fields: map<string, Json>)

  type Fields = map<string, Json>

  /** The value a path of field names leads to, going through objects only. */
  function At(v: Json, path: seq<string>): Option<Json>
    decreases v
  {
    if path == [] then Some(v)
    else if v.Obj? && path[0] in v.fields then At(v.fields[path[0]], path[1..])
    else None
  }

  /** No member of the document, at any depth of objects, is null. */
  predicate NullFree(v: Json)
    decreases v
  {
    v != Null && (v.Obj? ==> forall k <- v.fields :: NullFree(v.fields[k]))
  }

  lemma AtCons(m: Fields, k: string, path: seq<string>)
    ensures At(Obj(m), [k] + path) == if k in m then At(m[k], path) else None
    ensures At(Obj(m), [k]) == if k in m then Some(m[k]) else None
  {
    assert ([k] + path)[1..] == path;
    assert [k][1..] == [];
  }

  /** A sequence without its last element, or its first one, and that element. */
  lemma SplitLast<T>(s: seq<T>)
    requires s != []
    ensures s == s[..|s| - 1] + [s[|s| - 1]]
  {
  }

  lemma SplitFirst<T>(s: seq<T>)
    requires s != []
    ensures s == [s[0]] + s[1..]
  {
  }

  /** Logs grow at their end. */
  lemma Appended<T>(a: seq<T>, b: seq<T>, c: seq<T>)
    ensures a + b + c == a + (b + c)
  {
  }
}
