/** An encoding of JSON documents as json.Marshal writes them: no white space, members sorted by
    name, numbers in decimal. It shows that encodings and hashes which tell all documents apart
    exist, together with a decoding that inverts them. */
module JsonText {
  import opened JsonDoc
  import opened OrderedCompare
  import opened Reorderings

  // ---------------------------------------------------------------- numbers

  function Digit(d: nat): char
    requires d < 10
  {
    "0123456789"[d]
  }

  function Digits(n: nat): (r: string)
    ensures r != "" && forall c <- r :: '0' <= c <= '9'
  {
    if n < 10 then [Digit(n)] else Digits(n / 10) + [Digit(n % 10)]
  }

  lemma DigitsDiffer(d: nat, e: nat)
    requires d < 10 && e < 10 && Digit(d) == Digit(e)
    ensures d == e
  {
    var t := "0123456789";
    assert t[0] == '0' && t[1] == '1' && t[2] == '2' && t[3] == '3' && t[4] == '4';
    assert t[5] == '5' && t[6] == '6' && t[7] == '7' && t[8] == '8' && t[9] == '9';
  }

  lemma {:induction false} DigitsAreUnique(m: nat, n: nat)
    requires Digits(m) == Digits(n)
    ensures m == n
    decreases m
  {
    var a, b := Digits(m), Digits(n);
    assert a[|a| - 1] == Digit(m % 10) && b[|b| - 1] == Digit(n % 10);
    DigitsDiffer(m % 10, n % 10);
    assert (m >= 10 <==> |a| > 1) && (n >= 10 <==> |b| > 1);
    if m >= 10 {
      assert Digits(m / 10) == a[..|a| - 1] && Digits(n / 10) == b[..|b| - 1];
      DigitsAreUnique(m / 10, n / 10);
    }
  }

  function IntText(i: int): (r: string)
    ensures r != "" && forall c <- r :: c == '-' || '0' <= c <= '9'
  {
    if i < 0 then "-" + Digits(-i) else Digits(i)
  }

  lemma SignFirst(i: int)
    ensures IntText(i)[0] == '-' <==> i < 0
  {
    if i >= 0 { assert IntText(i)[0] in Digits(i); }
  }

  lemma IntTextIsUnique(i: int, j: int)
    requires IntText(i) == IntText(j)
    ensures i == j
  {
    var a, b := IntText(i), IntText(j);
    SignFirst(i);
    SignFirst(j);
    if i < 0 {
      assert a[1..] == Digits(-i) && b[1..] == Digits(-j);
      DigitsAreUnique(-i, -j);
    } else {
      DigitsAreUnique(i, j);
    }
  }

  predicate NumberChar(c: char) {
    c == '-' || c == 'e' || '0' <= c <= '9'
  }

  function NumText(n: Number): (r: string)
    ensures r != "" && forall c <- r :: NumberChar(c)
  {
    if n.exponent == 0 then IntText(n.digits) else IntText(n.digits) + "e" + IntText(n.exponent)
  }

  /** Two texts are told apart by their first stretch of characters with a property, if what follows
      it does not go on with that property. */
  lemma {:induction false} SplitAtStretch(p: char -> bool, a: string, b: string, s: string, t: string)
    requires (forall c <- a :: p(c)) && (forall c <- b :: p(c))
    requires (s != "" ==> !p(s[0])) && (t != "" ==> !p(t[0]))
    requires a + s == b + t
    ensures a == b && s == t
    decreases |a|
  {
    assert b != "" ==> (b + t)[0] in b;
    assert a != "" ==> (a + s)[0] in a;
    if a == "" {
      assert a + s == s;
      assert b + t == t;
    } else {
      assert b == "" ==> b + t == t;
      assert (a + s)[0] == a[0] && (b + t)[0] == b[0];
      assert (a + s)[1..] == a[1..] + s && (b + t)[1..] == b[1..] + t;
      SplitAtStretch(p, a[1..], b[1..], s, t);
      assert a == [a[0]] + a[1..] && b == [b[0]] + b[1..];
    }
  }

  lemma NumTextIsUnique(m: Number, n: Number)
    requires NumText(m) == NumText(n)
    ensures m == n
  {
    var p := (c: char) => c != 'e';
    var s := if m.exponent == 0 then "" else "e" + IntText(m.exponent);
    var t := if n.exponent == 0 then "" else "e" + IntText(n.exponent);
    var a, b := IntText(m.digits), IntText(n.digits);
    assert NumText(m) == a + s by { assert m.exponent != 0 ==> a + "e" + IntText(m.exponent) == a + s; }
    assert NumText(n) == b + t by { assert n.exponent != 0 ==> b + "e" + IntText(n.exponent) == b + t; }
    SplitAtStretch(p, a, b, s, t);
    IntTextIsUnique(m.digits, n.digits);
    if m.exponent != 0 {
      assert s[1..] == IntText(m.exponent) && t[1..] == IntText(n.exponent);
      IntTextIsUnique(m.exponent, n.exponent);
    }
  }

  // ---------------------------------------------------------------- documents

  /** A text in quotes, followed by rest. */
  function PutString(s: string, rest: string): string {
    if s == "" then "\"" + rest
    else if s[0] == '"' || s[0] == '\\' then ['\\', s[0]] + PutString(s[1..], rest)
    else [s[0]] + PutString(s[1..], rest)
  }

  ghost function Least(keys: set<string>): (k: string)
    requires keys != {}
    ensures k in keys && forall j | j in keys :: !TextLess(j, k)
  {
    SomeLeast(keys);
    var k :| k in keys && forall j | j in keys :: !TextLess(j, k);
    k
  }

  lemma {:induction false} SomeLeast(keys: set<string>)
    requires keys != {}
    ensures exists k :: k in keys && forall j | j in keys :: !TextLess(j, k)
    decreases |keys|
  {
    var x :| x in keys;
    TextTotal(x, x);
    if keys - {x} != {} {
      SomeLeast(keys - {x});
      var y :| y in keys - {x} && forall j | j in keys - {x} :: !TextLess(j, y);
      TextTotal(x, y);
      if TextLess(x, y) {
        forall j | j in keys ensures !TextLess(j, x) {
          if j != x { TextTransitive(x, y, j); }
        }
      } else {
        assert forall j | j in keys :: !TextLess(j, y);
      }
    } else {
      assert keys == {x};
    }
  }

  /** The member names in the order of their texts. */
  ghost function Sorted(keys: set<string>): (r: seq<string>)
    ensures forall k :: k in r <==> k in keys
    decreases |keys|
  {
    if keys == {} then [] else var k := Least(keys); [k] + Sorted(keys - {k})
  }

  /** What may follow a document inside another one, or nothing. */
  predicate Follows(s: string) {
    s == "" || s[0] == ',' || s[0] == ']' || s[0] == '}'
  }

  /** The text of a document, followed by rest. */
  ghost function Put(v: Json, rest: string): string
    decreases v, 1, 0
  {
    match v
    case Null => "null" + rest
    case Bool(b) => (if b then "true" else "false") + rest
    case Num(n) => NumText(n) + rest
    case Str(s) => "\"" + PutString(s, rest)
    case Arr(items) => "[" + (if items == [] then "]" + rest else Put(items[0], PutItems(items[1..], rest)))
    case Obj(fields) =>
      var keys := Sorted(fields.Keys);
      "{" + (if keys == [] then "}" + rest else PutMember(fields, keys, rest))
  }

  ghost function PutItems(items: seq<Json>, rest: string): string
    decreases items, 0, 0
  {
    if items == [] then "]" + rest else "," + Put(items[0], PutItems(items[1..], rest))
  }

  ghost function PutMember(fields: Fields, keys: seq<string>, rest: string): string
    requires keys != [] && forall k <- keys :: k in fields
    decreases Obj(fields), 0, |keys|, 0
  {
    "\"" + PutString(keys[0], ":" + Put(fields[keys[0]], PutOthers(fields, keys[1..], rest)))
  }

  ghost function PutOthers(fields: Fields, keys: seq<string>, rest: string): (r: string)
    requires forall k <- keys :: k in fields
    ensures Follows(r)
    decreases Obj(fields), 0, |keys|, 1
  {
    if keys == [] then "}" + rest else "," + PutMember(fields, keys, rest)
  }

  ghost function Marshal(v: Json): string {
    Put(v, "")
  }

  // ---------------------------------------------------------------- unique readability

  lemma {:induction false} StringsAreUnique(a: string, b: string, s: string, t: string)
    requires PutString(a, s) == PutString(b, t)
    ensures a == b && s == t
    decreases |a|
  {
    var x, y := PutString(a, s), PutString(b, t);
    if a == "" || b == "" {
      assert a == "" ==> x[0] == '"' && x[1..] == s;
      assert b == "" ==> y[0] == '"' && y[1..] == t;
    } else {
      var i := if a[0] == '"' || a[0] == '\\' then 2 else 1;
      var j := if b[0] == '"' || b[0] == '\\' then 2 else 1;
      assert x[i - 1] == a[0] && y[j - 1] == b[0];
      assert i == j && a[0] == b[0];
      assert x[i..] == PutString(a[1..], s) && y[j..] == PutString(b[1..], t);
      StringsAreUnique(a[1..], b[1..], s, t);
      assert a == [a[0]] + a[1..] && b == [b[0]] + b[1..];
    }
  }

  /** The first character tells what kind of document a text starts with. */
  lemma FirstChar(v: Json, s: string)
    ensures var x := Put(v, s);
            && x != ""
            && (x[0] == 'n' <==> v.Null?) && (x[0] == 't' <==> v == Bool(true)) && (x[0] == 'f' <==> v == Bool(false))
            && (x[0] == '"' <==> v.Str?) && (x[0] == '[' <==> v.Arr?) && (x[0] == '{' <==> v.Obj?)
            && (x[0] == '-' || '0' <= x[0] <= '9' <==> v.Num?)
            && x[0] != ']' && x[0] != '}' && x[0] != ','
  {
    var x := Put(v, s);
    match v
    case Null => assert x[0] == 'n';
    case Bool(b) => assert x[0] == if b then 't' else 'f';
    case Num(n) => assert x[0] == NumText(n)[0] == IntText(n.digits)[0];
                   assert IntText(n.digits)[0] in IntText(n.digits);
    case Str(_) => assert x[0] == '"';
    case Arr(_) => assert x[0] == '[';
    case Obj(_) => assert x[0] == '{';
  }

  lemma ArrayText(a: seq<Json>, s: string)
    ensures var x := Put(Arr(a), s);
            && |x| > 1 && (x[1] == ']' <==> a == [])
            && (if a == [] then x[2..] == s else x[1..] == Put(a[0], PutItems(a[1..], s)))
  {
    if a != [] {
      FirstChar(a[0], PutItems(a[1..], s));
    }
  }

  lemma {:induction false} ReadsBack(v: Json, w: Json, s: string, t: string)
    requires Put(v, s) == Put(w, t) && Follows(s) && Follows(t)
    ensures v == w && s == t
    decreases v, 1, 0
  {
    FirstChar(v, s);
    FirstChar(w, t);
    var x, y := Put(v, s), Put(w, t);
    match v
    case Null => assert x[4..] == s && y[4..] == t;
    case Bool(b) => assert x[if b then 4 else 5..] == s && y[if b then 4 else 5..] == t;
    case Num(n) =>
      SplitAtStretch(NumberChar, NumText(n), NumText(w.n), s, t);
      NumTextIsUnique(n, w.n);
    case Str(a) =>
      assert x[1..] == PutString(a, s) && y[1..] == PutString(w.s, t);
      StringsAreUnique(a, w.s, s, t);
    case Arr(a) => ArraysReadBack(a, w.items, s, t);
    case Obj(f) => ObjectsReadBack(f, w.fields, s, t);
  }

  lemma {:induction false} ArraysReadBack(a: seq<Json>, b: seq<Json>, s: string, t: string)
    requires Put(Arr(a), s) == Put(Arr(b), t)
    ensures a == b && s == t
    decreases a, 1, 0
  {
    var x, y := Put(Arr(a), s), Put(Arr(b), t);
    ArrayText(a, s);
    ArrayText(b, t);
    assert a == [] <==> b == [];
    if a != [] {
      var p, q := PutItems(a[1..], s), PutItems(b[1..], t);
      assert Put(a[0], p) == x[1..] == y[1..] == Put(b[0], q);
      ReadsBack(a[0], b[0], p, q);
      ItemsReadBack(a[1..], b[1..], s, t);
      assert a == [a[0]] + a[1..] && b == [b[0]] + b[1..];
    }
  }

  lemma {:induction false} ItemsReadBack(a: seq<Json>, b: seq<Json>, s: string, t: string)
    requires PutItems(a, s) == PutItems(b, t)
    ensures a == b && s == t
    decreases a, 0, 0
  {
    var x, y := PutItems(a, s), PutItems(b, t);
    assert x[0] == y[0];
    if a != [] {
      var p, q := PutItems(a[1..], s), PutItems(b[1..], t);
      assert x[1..] == Put(a[0], p) && y[1..] == Put(b[0], q);
      ReadsBack(a[0], b[0], p, q);
      ItemsReadBack(a[1..], b[1..], s, t);
      assert a == [a[0]] + a[1..] && b == [b[0]] + b[1..];
    } else {
      assert x[1..] == s && y[1..] == t;
    }
  }

  lemma {:induction false} ObjectsReadBack(f: Fields, g: Fields, s: string, t: string)
    requires Put(Obj(f), s) == Put(Obj(g), t)
    ensures f == g && s == t
    decreases Obj(f), 0, |f| + 1
  {
    var x, y := Put(Obj(f), s), Put(Obj(g), t);
    var k, l := Sorted(f.Keys), Sorted(g.Keys);
    assert x[1..][0] == y[1..][0];
    if k == [] {
      assert x[2..] == s && y[2..] == t;
      assert f == map[] && g == map[];
    } else {
      assert x[1..] == PutMember(f, k, s) && y[1..] == PutMember(g, l, t);
      SortedLength(f.Keys);
      MembersReadBack(f, g, k, l, s, t);
      assert f.Keys == g.Keys;
      assert f == g;
    }
  }

  lemma {:induction false} SortedLength(keys: set<string>)
    ensures |Sorted(keys)| == |keys|
    decreases |keys|
  {
    if keys != {} { SortedLength(keys - {Least(keys)}); }
  }

  lemma {:induction false} MemberReadsBack(k: string, l: string, v: Json, w: Json, s: string, t: string)
    requires PutString(k, ":" + Put(v, s)) == PutString(l, ":" + Put(w, t)) && Follows(s) && Follows(t)
    ensures k == l && v == w && s == t
    decreases v, 2, 0
  {
    StringsAreUnique(k, l, ":" + Put(v, s), ":" + Put(w, t));
    assert (":" + Put(v, s))[1..] == Put(v, s) && (":" + Put(w, t))[1..] == Put(w, t);
    ReadsBack(v, w, s, t);
  }

  lemma {:induction false} MembersReadBack(f: Fields, g: Fields, k: seq<string>, l: seq<string>, s: string, t: string)
    requires k != [] && l != [] && (forall x <- k :: x in f) && (forall x <- l :: x in g)
    requires PutMember(f, k, s) == PutMember(g, l, t)
    ensures k == l && s == t && forall x <- k :: f[x] == g[x]
    decreases Obj(f), 0, |k|, 0
  {
    var p, q := PutOthers(f, k[1..], s), PutOthers(g, l[1..], t);
    assert PutMember(f, k, s)[1..] == PutString(k[0], ":" + Put(f[k[0]], p));
    assert PutMember(g, l, t)[1..] == PutString(l[0], ":" + Put(g[l[0]], q));
    MemberReadsBack(k[0], l[0], f[k[0]], g[l[0]], p, q);
    OthersReadBack(f, g, k[1..], l[1..], s, t);
    assert k == [k[0]] + k[1..] && l == [l[0]] + l[1..];
  }

  lemma {:induction false} OthersReadBack(f: Fields, g: Fields, k: seq<string>, l: seq<string>, s: string, t: string)
    requires (forall x <- k :: x in f) && (forall x <- l :: x in g)
    requires PutOthers(f, k, s) == PutOthers(g, l, t)
    ensures k == l && s == t && forall x <- k :: f[x] == g[x]
    decreases Obj(f), 0, |k|, 1
  {
    var x, y := PutOthers(f, k, s), PutOthers(g, l, t);
    assert x[0] == y[0];
    if k == [] {
      assert x[1..] == s && y[1..] == t;
    } else {
      assert x[1..] == PutMember(f, k, s) && y[1..] == PutMember(g, l, t);
      MembersReadBack(f, g, k, l, s, t);
    }
  }

  /** Different documents have different texts. */
  lemma MarshalIsInjective(v: Json, w: Json)
    ensures Marshal(v) == Marshal(w) <==> v == w
  {
    if Marshal(v) == Marshal(w) {
      ReadsBack(v, w, "", "");
    }
  }

  ghost function Unmarshal(s: string): Option<Json> {
    if exists v :: Marshal(v) == s then var v :| Marshal(v) == s; Some(v) else None
  }

  lemma UnmarshalReads(v: Json)
    ensures Unmarshal(Marshal(v)) == Some(v)
  {
    var w :| Marshal(w) == Marshal(v) && Unmarshal(Marshal(v)) == Some(w);
    MarshalIsInjective(v, w);
  }

  /** The assumptions that other modules make about encodings and decodings can be met together. */
  lemma EncodingsExist() returns (enc: Encoding, dec: string -> Option<Json>)
    ensures Injective(enc) && forall v :: enc(v) == Marshal(v) && dec(enc(v)) == Some(v)
  {
    enc, dec := v => Marshal(v), s => Unmarshal(s);
    forall v, w | enc(v) == enc(w) ensures v == w {
      MarshalIsInjective(v, w);
    }
    forall v ensures dec(enc(v)) == Some(v) {
      UnmarshalReads(v);
    }
  }

  lemma MarshalDigit(d: nat, rest: string)
    requires 0 < d < 10
    ensures Put(Num(Decimal(d, 0)), rest) == [Digit(d)] + rest
    ensures Marshal(Num(Decimal(d, 0))) == [Digit(d)]
  {
    assert NumText(Decimal(d, 0)) == [Digit(d)];
  }

  /** Two digits in an array are written as expected. */
  lemma MarshalPair(d: nat, e: nat)
    requires 0 < d < 10 && 0 < e < 10
    ensures Marshal(Arr([Num(Decimal(d, 0)), Num(Decimal(e, 0))])) == ['[', Digit(d), ',', Digit(e), ']']
  {
    var x, y: Json := Num(Decimal(d, 0)), Num(Decimal(e, 0));
    assert [x, y][1..] == [y];
    assert [y][1..] == [];
    MarshalDigit(e, "]");
    assert PutItems([y], "") == "," + ([Digit(e)] + "]");
    MarshalDigit(d, PutItems([y], ""));
  }

  lemma MarshalTexts()
    ensures Marshal(Num(Decimal(1, 0))) == "1" && Marshal(Num(Decimal(2, 0))) == "2" && Marshal(Num(Decimal(3, 0))) == "3"
    ensures Marshal(Arr([Num(Decimal(2, 0)), Num(Decimal(1, 0))])) == "[2,1]"
    ensures Marshal(Arr([Num(Decimal(1, 0)), Num(Decimal(3, 0))])) == "[1,3]"
    ensures Marshal(Arr([Num(Decimal(1, 0)), Num(Decimal(2, 0))])) == "[1,2]"
  {
    MarshalDigit(1, "");
    MarshalDigit(2, "");
    MarshalDigit(3, "");
    MarshalPair(2, 1);
    MarshalPair(1, 3);
    MarshalPair(1, 2);
  }

  /** With this encoding the comparison misses a reordering of [[2,1],[1,3]]. */
  lemma MarshalMisses(enc: Encoding)
    requires forall v :: enc(v) == Marshal(v)
    ensures !Complete(enc, Arr([Arr([Num(Decimal(2, 0)), Num(Decimal(1, 0))]), Arr([Num(Decimal(1, 0)), Num(Decimal(3, 0))])]))
  {
    MarshalTexts();
    NestedArraysDiffer(enc);
  }
}
