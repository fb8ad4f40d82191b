/** Credential flattening and the removal of duplicate root keys (pkg/utils/flattenmap.go), for
    every order in which a Go map may be visited. */
module Flatten {
  import opened JsonDoc

  // ---------------------------------------------------------------- keys

  predicate Allowed(c: char) {
    c == '-' || c == '.' || c == '_' || 'a' <= c <= 'z' || 'A' <= c <= 'Z' || '0' <= c <= '9'
  }

  predicate AllAllowed(s: string) {
    forall i | 0 <= i < |s| :: Allowed(s[i])
  }

  /** generateValidKey: every character that is not allowed becomes an underscore. */
  function ValidKey(s: string): (r: string)
    ensures |r| == |s| && AllAllowed(r)
    ensures forall i | 0 <= i < |s| :: r[i] == if Allowed(s[i]) then s[i] else '_'
  {
    seq(|s|, i requires 0 <= i < |s| => if Allowed(s[i]) then s[i] else '_')
  }

  /** The key of a member under a prefix. */
  function Step(prefix: string, key: string): (r: string)
    ensures AllAllowed(r)
  {
    ValidKey(if prefix != "" then prefix + "." + key else key)
  }

  /** The key that a path of member names leads to. */
  function KeyAlong(prefix: string, path: seq<string>): string
    decreases |path|
  {
    if path == [] then prefix else KeyAlong(Step(prefix, path[0]), path[1..])
  }

  lemma {:induction false} KeysAreAllowed(prefix: string, path: seq<string>)
    requires path != [] || AllAllowed(prefix)
    ensures AllAllowed(KeyAlong(prefix, path))
    decreases path
  {
    if path != [] {
      KeysAreAllowed(Step(prefix, path[0]), path[1..]);
    }
  }

  /** The names of a path joined with dots. */
  function Dotted(path: seq<string>): string
    requires path != []
  {
    if |path| == 1 then path[0] else path[0] + "." + Dotted(path[1..])
  }

  lemma ValidKeyJoin(a: string, b: string)
    ensures ValidKey(a + "." + b) == ValidKey(a) + "." + ValidKey(b)
    ensures AllAllowed(a) ==> ValidKey(a) == a
  {
  }

  lemma JoinAssociates(a: string, b: string, c: string)
    ensures a + "." + b + "." + c == a + "." + (b + "." + c)
  {
  }

  lemma {:induction false} KeyUnderPrefix(prefix: string, path: seq<string>)
    requires prefix != "" && AllAllowed(prefix) && path != []
    ensures KeyAlong(prefix, path) == prefix + "." + ValidKey(Dotted(path))
    decreases |path|
  {
    ValidKeyJoin(prefix, path[0]);
    var first := ValidKey(path[0]);
    assert Step(prefix, path[0]) == prefix + "." + first;
    if |path| > 1 {
      KeyUnderPrefix(prefix + "." + first, path[1..]);
      ValidKeyJoin(path[0], Dotted(path[1..]));
      JoinAssociates(prefix, first, ValidKey(Dotted(path[1..])));
    } else {
      assert path[1..] == [];
    }
  }

  lemma KeyAfterName(path: seq<string>)
    requires |path| > 1 && path[0] != ""
    ensures KeyAlong("", path) == ValidKey(Dotted(path))
  {
    var first := Step("", path[0]);
    KeyUnderPrefix(first, path[1..]);
    ValidKeyJoin(path[0], Dotted(path[1..]));
  }

  lemma {:induction false} KeyIsNoLonger(path: seq<string>)
    requires path != []
    ensures |KeyAlong("", path)| <= |Dotted(path)|
    decreases |path|
  {
    if |path| == 1 {
      assert path[1..] == [];
    } else if path[0] == "" {
      assert Step("", "") == "";
      KeyIsNoLonger(path[1..]);
    } else {
      KeyAfterName(path);
    }
  }

  /** Without a prefix the key is the sanitised dotted path, except that empty names in front of
      others are dropped. */
  lemma DottedPathKey(path: seq<string>)
    requires path != []
    ensures KeyAlong("", path) == ValidKey(Dotted(path)) <==> |path| == 1 || path[0] != ""
  {
    if |path| == 1 {
      assert path[1..] == [];
    } else if path[0] == "" {
      assert Step("", "") == "";
      KeyIsNoLonger(path[1..]);
      assert |ValidKey(Dotted(path))| == 1 + |Dotted(path[1..])|;
    } else {
      KeyAfterName(path);
    }
  }

  // ---------------------------------------------------------------- flattening

  /** fmt.Sprint of a leaf. */
  type Render = Json -> string

  /** A path that starts in one of the given members and ends in something other than an object. */
  predicate Leaf(input: Fields, members: set<string>, path: seq<string>) {
    path != [] && path[0] in members && At(Obj(input), path).Some? && !At(Obj(input), path).value.Obj?
  }

  function LeafValue(input: Fields, members: set<string>, path: seq<string>): Json
    requires Leaf(input, members, path)
  {
    At(Obj(input), path).value
  }

  ghost predicate FromLeaf(input: Fields, members: set<string>, prefix: string, render: Render, k: string, v: string) {
    exists path :: Leaf(input, members, path) && KeyAlong(prefix, path) == k && render(LeafValue(input, members, path)) == v
  }

  /** Exactly the keys of the leaves, each with the value of a leaf that has this key. */
  ghost predicate Covers(flat: map<string, string>, input: Fields, members: set<string>, prefix: string, render: Render) {
    && (forall k | k in flat :: FromLeaf(input, members, prefix, render, k, flat[k]))
    && (forall path | Leaf(input, members, path) :: KeyAlong(prefix, path) in flat)
  }

  lemma PathIntoMember(input: Fields, key: string, path: seq<string>)
    requires key in input
    ensures Leaf(input, {key}, [key] + path) <==>
              if input[key].Obj? then Leaf(input[key].fields, input[key].fields.Keys, path) else path == []
    ensures input[key].Obj? && Leaf(input[key].fields, input[key].fields.Keys, path) ==>
              At(Obj(input), [key] + path) == At(input[key], path)
  {
    AtCons(input, key, path);
    if path == [] { assert [key] + path == [key]; }
  }

  lemma KeyStep(prefix: string, key: string, path: seq<string>)
    ensures KeyAlong(prefix, [key] + path) == KeyAlong(Step(prefix, key), path)
  {
    assert ([key] + path)[1..] == path;
  }

  /** One more member that holds a leaf. */
  lemma CoverLeaf(flat: map<string, string>, input: Fields, done: set<string>, prefix: string, render: Render, key: string)
    requires Covers(flat, input, done, prefix, render) && key in input && !input[key].Obj?
    ensures Covers(flat[Step(prefix, key) := render(input[key])], input, done + {key}, prefix, render)
  {
    var now, members := flat[Step(prefix, key) := render(input[key])], done + {key};
    PathIntoMember(input, key, []);
    AtCons(input, key, []);
    KeyStep(prefix, key, []);
    assert [key] + [] == [key];
    forall k | k in now ensures FromLeaf(input, members, prefix, render, k, now[k]) {
      if k == Step(prefix, key) {
        assert Leaf(input, members, [key]);
      } else {
        var path :| Leaf(input, done, path) && KeyAlong(prefix, path) == k && render(LeafValue(input, done, path)) == flat[k];
        assert Leaf(input, members, path);
      }
    }
    forall path | Leaf(input, members, path) ensures KeyAlong(prefix, path) in now {
      if path[0] == key {
        assert path == [key] + path[1..];
        PathIntoMember(input, key, path[1..]);
      } else {
        assert Leaf(input, done, path);
      }
    }
  }

  /** One more member that holds an object, flattened under its own key. */
  lemma CoverNested(flat: map<string, string>, input: Fields, done: set<string>, prefix: string, render: Render, key: string,
                    nested: map<string, string>)
    requires Covers(flat, input, done, prefix, render) && key in input && input[key].Obj?
    requires Covers(nested, input[key].fields, input[key].fields.Keys, Step(prefix, key), render)
    ensures Covers(flat + nested, input, done + {key}, prefix, render)
  {
    var now, members := flat + nested, done + {key};
    var inner := input[key].fields;
    forall k | k in now ensures FromLeaf(input, members, prefix, render, k, now[k]) {
      if k in nested {
        var path :| Leaf(inner, inner.Keys, path) && KeyAlong(Step(prefix, key), path) == k
                    && render(LeafValue(inner, inner.Keys, path)) == nested[k];
        PathIntoMember(input, key, path);
        KeyStep(prefix, key, path);
        assert Leaf(input, members, [key] + path);
      } else {
        var path :| Leaf(input, done, path) && KeyAlong(prefix, path) == k && render(LeafValue(input, done, path)) == flat[k];
        assert Leaf(input, members, path);
      }
    }
    forall path | Leaf(input, members, path) ensures KeyAlong(prefix, path) in now {
      if path[0] == key {
        assert path == [key] + path[1..];
        PathIntoMember(input, key, path[1..]);
        assert Leaf(inner, inner.Keys, path[1..]);
      } else {
        assert Leaf(input, done, path);
      }
    }
  }

  ghost predicate IsOrder(order: seq<string>, keys: set<string>) {
    && (forall i, j | 0 <= i < j < |order| :: order[i] != order[j])
    && (forall k :: k in order <==> k in keys)
  }

  /** The map once the members in the given order have been visited, where every nested map may
      have been visited in an order of its own. */
  ghost predicate After(input: Fields, prefix: string, render: Render, order: seq<string>, flat: map<string, string>)
    decreases Obj(input), 0, |order|
  {
    if order == [] then flat == map[]
    else
      var n := |order| - 1;
      && order[n] in input
      && exists before :: After(input, prefix, render, order[..n], before) && Visited(input, prefix, render, order[n], before, flat)
  }

  /** One visit. */
  ghost predicate Visited(input: Fields, prefix: string, render: Render, key: string,
                          before: map<string, string>, flat: map<string, string>)
    requires key in input
    decreases Obj(input), 0, 0
  {
    if input[key].Obj? then
      exists nested :: Outcome(input[key].fields, Step(prefix, key), render, nested) && flat == before + nested
    else flat == before[Step(prefix, key) := render(input[key])]
  }

  /** What flattening can come to: some order of visits leads to it. */
  ghost predicate Outcome(input: Fields, prefix: string, render: Render, flat: map<string, string>)
    decreases Obj(input), 1
  {
    exists order :: IsOrder(order, input.Keys) && After(input, prefix, render, order, flat)
  }

  lemma VisitNext(input: Fields, prefix: string, render: Render, order: seq<string>, done: set<string>, key: string,
                  before: map<string, string>, flat: map<string, string>)
    requires IsOrder(order, done) && After(input, prefix, render, order, before) && key in input && key !in done
    requires Visited(input, prefix, render, key, before, flat)
    ensures IsOrder(order + [key], done + {key}) && After(input, prefix, render, order + [key], flat)
  {
    var longer := order + [key];
    assert longer[..|longer| - 1] == order;
  }

  function Elements(order: seq<string>): (r: set<string>)
    ensures forall k :: k in r <==> k in order
  {
    set k | k in order
  }

  lemma ElementsOfLonger(order: seq<string>)
    requires order != []
    ensures Elements(order[..|order| - 1]) + {order[|order| - 1]} == Elements(order)
  {
    SplitLast(order);
  }

  lemma ElementsOfOrder(order: seq<string>, keys: set<string>)
    requires IsOrder(order, keys)
    ensures Elements(order) == keys
  {
  }

  /** The keys of every outcome are exactly those of the leaves, each with the value of one of them. */
  lemma {:induction false} OutcomeCovers(input: Fields, prefix: string, render: Render, flat: map<string, string>)
    requires Outcome(input, prefix, render, flat)
    ensures Covers(flat, input, input.Keys, prefix, render)
    decreases Obj(input), 2
  {
    var order :| IsOrder(order, input.Keys) && After(input, prefix, render, order, flat);
    ElementsOfOrder(order, input.Keys);
    AfterCovers(input, prefix, render, order, flat);
  }

  lemma {:induction false} AfterCovers(input: Fields, prefix: string, render: Render, order: seq<string>, flat: map<string, string>)
    requires After(input, prefix, render, order, flat)
    ensures Covers(flat, input, Elements(order), prefix, render)
    decreases Obj(input), 1, |order|
  {
    if order == [] {
      assert Elements(order) == {};
    } else {
      var n := |order| - 1;
      var before :| After(input, prefix, render, order[..n], before) && Visited(input, prefix, render, order[n], before, flat);
      AfterCovers(input, prefix, render, order[..n], before);
      VisitedCovers(input, prefix, render, Elements(order[..n]), order[n], before, flat);
      ElementsOfLonger(order);
    }
  }

  lemma {:induction false} VisitedCovers(input: Fields, prefix: string, render: Render, done: set<string>, key: string,
                                         before: map<string, string>, flat: map<string, string>)
    requires key in input && Covers(before, input, done, prefix, render) && Visited(input, prefix, render, key, before, flat)
    ensures Covers(flat, input, done + {key}, prefix, render)
    decreases Obj(input), 0
  {
    if input[key].Obj? {
      var inner := input[key].fields;
      var nested :| Outcome(inner, Step(prefix, key), render, nested) && flat == before + nested;
      OutcomeCovers(inner, Step(prefix, key), render, nested);
      CoverNested(before, input, done, prefix, render, key, nested);
    } else {
      CoverLeaf(before, input, done, prefix, render, key);
    }
  }

  method FlattenMap(input: Fields, prefix: string, render: Render) returns (flatMap: map<string, string>)
    ensures Outcome(input, prefix, render, flatMap)
    ensures Covers(flatMap, input, input.Keys, prefix, render)
    ensures forall k | k in flatMap :: AllAllowed(k)
    decreases Obj(input)
  {
    flatMap := map[];
    var todo := input.Keys;
    ghost var done, order := {}, [];
    while todo != {}
      invariant forall k :: k in input <==> k in todo || k in done
      invariant forall k | k in todo :: k !in done
      invariant IsOrder(order, done) && After(input, prefix, render, order, flatMap)
      decreases |todo|
    {
      var key :| key in todo;
      todo := todo - {key};
      var value := input[key];
      var newKey := key;
      if prefix != "" {
        newKey := prefix + "." + key;
      }
      newKey := ValidKey(newKey);
      assert newKey == Step(prefix, key);
      ghost var before := flatMap;
      if value.Obj? {
        var nestedMap := FlattenMap(value.fields, newKey, render);
        flatMap := flatMap + nestedMap;
      } else {
        flatMap := flatMap[newKey := render(value)];
      }
      VisitNext(input, prefix, render, order, done, key, before, flatMap);
      done, order := done + {key}, order + [key];
    }
    assert done == input.Keys;
    OutcomeCovers(input, prefix, render, flatMap);
    OutcomeIsAllowed(flatMap, input, prefix, render);
  }

  lemma OutcomeIsAllowed(flat: map<string, string>, input: Fields, prefix: string, render: Render)
    requires Covers(flat, input, input.Keys, prefix, render)
    ensures forall k | k in flat :: AllAllowed(k)
  {
    forall k | k in flat ensures AllAllowed(k) {
      var path :| Leaf(input, input.Keys, path) && KeyAlong(prefix, path) == k && render(LeafValue(input, input.Keys, path)) == flat[k];
      KeysAreAllowed(prefix, path);
    }
  }

  /** The given members can be visited in some order. */
  lemma {:induction false} SomeVisit(input: Fields, prefix: string, render: Render, keys: set<string>)
    returns (order: seq<string>, flat: map<string, string>)
    requires forall k | k in keys :: k in input
    ensures IsOrder(order, keys) && After(input, prefix, render, order, flat)
    decreases Obj(input), 1, |keys|
  {
    if keys == {} {
      order, flat := [], map[];
    } else {
      var key :| key in keys;
      var others := keys - {key};
      assert others + {key} == keys;
      var rest, before := SomeVisit(input, prefix, render, others);
      flat := VisitOne(input, prefix, render, key, before);
      order := rest + [key];
      VisitNext(input, prefix, render, rest, others, key, before, flat);
    }
  }

  lemma {:induction false} VisitOne(input: Fields, prefix: string, render: Render, key: string, before: map<string, string>)
    returns (flat: map<string, string>)
    requires key in input
    ensures Visited(input, prefix, render, key, before, flat)
    decreases Obj(input), 0
  {
    if input[key].Obj? {
      var inner := input[key].fields;
      var order, nested := SomeVisit(inner, Step(prefix, key), render, inner.Keys);
      assert Outcome(inner, Step(prefix, key), render, nested);
      flat := before + nested;
    } else {
      flat := before[Step(prefix, key) := render(input[key])];
    }
  }

  /** Every leaf can be the one that is visited last among those with its key. */
  lemma {:induction false} LeafCanWin(input: Fields, prefix: string, render: Render, path: seq<string>) returns (flat: map<string, string>)
    requires Leaf(input, input.Keys, path)
    ensures Outcome(input, prefix, render, flat)
    ensures KeyAlong(prefix, path) in flat && flat[KeyAlong(prefix, path)] == render(LeafValue(input, input.Keys, path))
    decreases |path|
  {
    var key, rest := path[0], path[1..];
    assert path == [key] + rest;
    PathIntoMember(input, key, rest);
    var order, before := SomeVisit(input, prefix, render, input.Keys - {key});
    if input[key].Obj? {
      var nested := LeafCanWin(input[key].fields, Step(prefix, key), render, rest);
      flat := before + nested;
    } else {
      flat := before[Step(prefix, key) := render(input[key])];
      AtCons(input, key, []);
    }
    VisitNext(input, prefix, render, order, input.Keys - {key}, key, before, flat);
    assert input.Keys - {key} + {key} == input.Keys;
  }

  /** Every leaf with this key looks the same. */
  ghost predicate Uncontested(input: Fields, prefix: string, render: Render, k: string, v: string) {
    forall p | Leaf(input, input.Keys, p) && KeyAlong(prefix, p) == k :: render(LeafValue(input, input.Keys, p)) == v
  }

  /** Leaves that end up under the same key look the same. */
  ghost predicate CollisionsAgree(input: Fields, prefix: string, render: Render) {
    forall p | Leaf(input, input.Keys, p) ::
      Uncontested(input, prefix, render, KeyAlong(prefix, p), render(LeafValue(input, input.Keys, p)))
  }

  /** A leaf's value stands under its key, in whatever order the maps are visited, if and only if
      no other leaf with this key looks different. */
  lemma ValueStandsIffUncontested(input: Fields, prefix: string, render: Render, path: seq<string>)
    requires Leaf(input, input.Keys, path)
    ensures var k := KeyAlong(prefix, path);
            var v := render(LeafValue(input, input.Keys, path));
            (forall flat | Outcome(input, prefix, render, flat) :: k in flat && flat[k] == v)
            <==> Uncontested(input, prefix, render, k, v)
  {
    var k := KeyAlong(prefix, path);
    var v := render(LeafValue(input, input.Keys, path));
    if Uncontested(input, prefix, render, k, v) {
      forall flat | Outcome(input, prefix, render, flat) ensures k in flat && flat[k] == v {
        OutcomeCovers(input, prefix, render, flat);
        assert FromLeaf(input, input.Keys, prefix, render, k, flat[k]);
      }
    } else {
      var p :| Leaf(input, input.Keys, p) && KeyAlong(prefix, p) == k && render(LeafValue(input, input.Keys, p)) != v;
      var flat := LeafCanWin(input, prefix, render, p);
    }
  }

  ghost predicate OnlyOutcome(a: map<string, string>, input: Fields, prefix: string, render: Render) {
    forall b | Outcome(input, prefix, render, b) :: b == a
  }

  lemma OnlyOutcomeUncontested(a: map<string, string>, input: Fields, prefix: string, render: Render, p: seq<string>)
    requires OnlyOutcome(a, input, prefix, render) && Leaf(input, input.Keys, p)
    ensures Uncontested(input, prefix, render, KeyAlong(prefix, p), render(LeafValue(input, input.Keys, p)))
  {
    var one := LeafCanWin(input, prefix, render, p);
    forall q | Leaf(input, input.Keys, q) && KeyAlong(prefix, q) == KeyAlong(prefix, p)
      ensures render(LeafValue(input, input.Keys, q)) == render(LeafValue(input, input.Keys, p))
    {
      var other := LeafCanWin(input, prefix, render, q);
      assert one == a == other;
    }
  }

  /** The visiting order does not show in the result if and only if colliding leaves agree. */
  lemma OneOutcome(a: map<string, string>, input: Fields, prefix: string, render: Render)
    requires Outcome(input, prefix, render, a)
    ensures OnlyOutcome(a, input, prefix, render) <==> CollisionsAgree(input, prefix, render)
  {
    if CollisionsAgree(input, prefix, render) {
      OutcomeCovers(input, prefix, render, a);
      forall b | Outcome(input, prefix, render, b) ensures b == a {
        OutcomeCovers(input, prefix, render, b);
        SameOutcome(a, b, input, prefix, render);
      }
    }
    if OnlyOutcome(a, input, prefix, render) {
      forall p | Leaf(input, input.Keys, p)
        ensures Uncontested(input, prefix, render, KeyAlong(prefix, p), render(LeafValue(input, input.Keys, p)))
      {
        OnlyOutcomeUncontested(a, input, prefix, render, p);
      }
    }
  }

  lemma SameOutcome(a: map<string, string>, b: map<string, string>, input: Fields, prefix: string, render: Render)
    requires Covers(a, input, input.Keys, prefix, render) && Covers(b, input, input.Keys, prefix, render)
    requires CollisionsAgree(input, prefix, render)
    ensures a == b
  {
    forall k | k in a ensures k in b && a[k] == b[k] {
      SameValue(a, b, input, prefix, render, k);
    }
    forall k | k in b ensures k in a {
      SameValue(b, a, input, prefix, render, k);
    }
  }

  lemma SameValue(a: map<string, string>, b: map<string, string>, input: Fields, prefix: string, render: Render, k: string)
    requires Covers(a, input, input.Keys, prefix, render) && Covers(b, input, input.Keys, prefix, render)
    requires CollisionsAgree(input, prefix, render) && k in a
    ensures k in b && a[k] == b[k]
  {
    assert FromLeaf(input, input.Keys, prefix, render, k, a[k]);
    var p :| Leaf(input, input.Keys, p) && KeyAlong(prefix, p) == k && render(LeafValue(input, input.Keys, p)) == a[k];
    assert FromLeaf(input, input.Keys, prefix, render, k, b[k]);
  }

  /** The visiting order can show: {"a.b": x, "a": {"b": y}} comes to either value under a.b. */
  lemma OrderShows(x: Json, y: Json, render: Render) returns (one: map<string, string>, other: map<string, string>)
    requires !x.Obj? && !y.Obj? && render(x) != render(y)
    ensures var input := map["a.b" := x, "a" := Obj(map["b" := y])];
            && Outcome(input, "", render, one) && Outcome(input, "", render, other) && one != other
            && "a.b" in one && one["a.b"] == render(x) && "a.b" in other && other["a.b"] == render(y)
  {
    var input: Fields := map["a.b" := x, "a" := Obj(map["b" := y])];
    AtCons(input, "a.b", []);
    AtCons(input, "a", ["b"]);
    AtCons(map["b" := y], "b", []);
    assert ["a"] + ["b"] == ["a", "b"];
    KeyStep("", "a.b", []);
    KeyStep("", "a", ["b"]);
    KeyStep("a", "b", []);
    assert ["a.b"] + [] == ["a.b"] && ["b"] + [] == ["b"];
    assert Step("", "a.b") == "a.b" && Step("", "a") == "a" && Step("a", "b") == "a.b";
    one := LeafCanWin(input, "", render, ["a.b"]);
    other := LeafCanWin(input, "", render, ["a", "b"]);
  }

  // ---------------------------------------------------------------- duplicate root keys

  /** strings.Split(s, "."); never empty. */
  function Split(s: string): (parts: seq<string>)
    ensures |parts| > 0
  {
    if s == "" then [""]
    else if s[0] == '.' then [""] + Split(s[1..])
    else
      var rest := Split(s[1..]);
      [[s[0]] + rest[0]] + rest[1..]
  }

  function RootOf(key: string): string {
    Split(key)[|Split(key)| - 1]
  }

  predicate EndsIn(key: string, r: string) {
    |r| < |key| && key[|key| - |r| - 1..] == "." + r
  }

  lemma {:induction false} SplitCount(s: string)
    ensures |Split(s)| > 1 <==> '.' in s
    ensures '.' !in s ==> RootOf(s) == s
    ensures '.' !in RootOf(s)
  {
    if s != "" {
      SplitCount(s[1..]);
      assert s == [s[0]] + s[1..];
    }
  }

  /** A character in front does not change the last part if there is more than one. */
  lemma LastPartOfTail(s: string)
    requires '.' in s
    ensures s[0] == '.' || '.' in s[1..]
    ensures RootOf(s) == RootOf(s[1..])
  {
    SplitFirst(s);
    SplitCount(s[1..]);
    var rest := Split(s[1..]);
    if s[0] == '.' {
      assert ([""] + rest)[|rest|] == rest[|rest| - 1];
    } else {
      assert |rest| > 1;
    }
  }

  lemma {:induction false} SplitAtLastDot(s: string) returns (stem: string)
    requires '.' in s
    ensures s == stem + ("." + RootOf(s))
  {
    var t := s[1..];
    SplitFirst(s);
    SplitCount(t);
    LastPartOfTail(s);
    if '.' in t {
      var rest := SplitAtLastDot(t);
      stem := [s[0]] + rest;
      assert s == [s[0]] + (rest + ("." + RootOf(s))) == stem + ("." + RootOf(s));
    } else {
      stem := "";
      assert s == "." + t == stem + ("." + RootOf(s));
    }
  }

  /** There is more than one part exactly if there is a dot, and the last part is what follows the
      last dot. */
  lemma SplitParts(s: string)
    ensures |Split(s)| > 1 <==> '.' in s
    ensures '.' !in RootOf(s)
    ensures if '.' in s then EndsIn(s, RootOf(s)) else RootOf(s) == s
  {
    SplitCount(s);
    if '.' in s {
      var stem := SplitAtLastDot(s);
    }
  }

  predicate Nested(key: string) {
    '.' in key
  }

  /** A root key whose value also stands under a dotted key that ends in it. */
  predicate Shadowed(m: map<string, string>, r: string)
    requires r in m
  {
    exists k <- m :: Nested(k) && RootOf(k) == r && m[k] == m[r]
  }

  function Deduplicated(m: map<string, string>): map<string, string> {
    map r | r in m && !Shadowed(m, r) :: m[r]
  }

  /** Where the loop over m stands: entries are left of it, and the keys in todo are still to come. */
  ghost predicate Sweeping(m: map<string, string>, entries: map<string, string>, todo: set<string>) {
    && (forall k | k in todo :: k in entries)
    && (forall k | k in entries :: k in m && entries[k] == m[k])
    && (forall r | r in m && r !in entries :: Shadowed(m, r))
    && (forall k | k in m && Nested(k) :: k in entries)
    && (forall k | k in m && Nested(k) && k !in todo && RootOf(k) in entries :: m[RootOf(k)] != m[k])
  }

  lemma SweepOne(m: map<string, string>, entries: map<string, string>, todo: set<string>, key: string)
    requires Sweeping(m, entries, todo) && key in todo
    ensures var root := RootOf(key);
            if Nested(key) && root in entries && entries[root] == entries[key]
            then Sweeping(m, entries - {root}, todo - {key} - {root})
            else Sweeping(m, entries, todo - {key})
  {
    var root := RootOf(key);
    SplitParts(key);
    if Nested(key) && root in entries && entries[root] == entries[key] {
      assert m[key] == m[root];
      assert Shadowed(m, root);
    }
  }

  lemma Swept(m: map<string, string>, entries: map<string, string>)
    requires Sweeping(m, entries, {})
    ensures entries == Deduplicated(m)
  {
    forall r | r in m ensures r in entries <==> !Shadowed(m, r) {
    }
  }

  class Credentials {
    var entries: map<string, string>

    constructor (entries: map<string, string>)
      ensures this.entries == entries
    {
      this.entries := entries;
    }

    /** The loop deletes from the map that it ranges over: an entry that is removed before it is
        reached is not visited. The result is the same for every order. */
    method ReplaceRootKeyWithNestedKey()
      modifies this
      ensures entries == Deduplicated(old(entries))
    {
      ghost var m := entries;
      var todo := entries.Keys;
      while todo != {}
        invariant Sweeping(m, entries, todo)
        decreases |todo|
      {
        var key :| key in todo;
        SweepOne(m, entries, todo, key);
        todo := todo - {key};
        var parts := Split(key);
        SplitParts(key);
        if |parts| > 1 {
          var rootKey := parts[|parts| - 1];
          if rootKey in entries && entries[rootKey] == entries[key] {
            entries := entries - {rootKey};
            todo := todo - {rootKey};
          }
        }
      }
      Swept(m, entries);
    }
  }

  /** Only keys without a dot go, the value of each survives under a dotted key that ends in it,
      and nothing else changes. */
  lemma DeletedValuesSurvive(m: map<string, string>, r: string)
    requires r in m
    ensures var d := Deduplicated(m);
            && (r in d ==> d[r] == m[r])
            && (Nested(r) ==> r in d)
            && (r !in d ==> exists k <- d :: Nested(k) && EndsIn(k, r) && d[k] == m[r])
  {
    var d := Deduplicated(m);
    if r !in d {
      var k :| k in m && Nested(k) && RootOf(k) == r && m[k] == m[r];
      SplitParts(k);
      NestedSurvives(m, k);
    }
    if Nested(r) {
      NestedSurvives(m, r);
    }
  }

  lemma NestedSurvives(m: map<string, string>, k: string)
    requires k in m && Nested(k)
    ensures k in Deduplicated(m)
  {
    if Shadowed(m, k) {
      var j :| j in m && Nested(j) && RootOf(j) == k;
      SplitParts(j);
    }
  }

  lemma DeduplicationIsIdempotent(m: map<string, string>)
    ensures Deduplicated(Deduplicated(m)) == Deduplicated(m)
  {
    var d := Deduplicated(m);
    forall r | r in d ensures !Shadowed(d, r) {
      assert !Shadowed(m, r);
    }
  }

  /** A value is found under its key or under a dotted key that ends in it. */
  predicate Published(entries: map<string, string>, key: string, value: string) {
    exists k <- entries :: (k == key || EndsIn(k, key)) && entries[k] == value
  }

  /** Removing duplicates loses no value: what is found under a key, or under a dotted key that
      ends in it, is found so before and after. */
  lemma DeduplicationKeepsPublished(m: map<string, string>, key: string, value: string)
    ensures Published(Deduplicated(m), key, value) <==> Published(m, key, value)
  {
    if Published(m, key, value) {
      var k :| k in m && (k == key || EndsIn(k, key)) && m[k] == value;
      DeletedValuesSurvive(m, k);
      if k != key {
        assert k[|k| - |key| - 1] == '.';
        assert Nested(k);
      }
    }
  }

  // ---------------------------------------------------------------- what is published in every order

  predicate Near(j: string, k: string) {
    j == k || EndsIn(j, k)
  }

  /** The value is found under the key or under a dotted key that ends in it, lost keys aside. */
  ghost predicate Holds(flat: map<string, string>, k: string, v: string, lost: iset<string>) {
    exists j :: j in flat && Near(j, k) && j !in lost && flat[j] == v
  }

  /** The keys of the leaves in the given members. */
  ghost function LeafKeys(input: Fields, members: set<string>, prefix: string): (r: iset<string>)
    ensures forall j :: j in r <==> exists path :: Leaf(input, members, path) && KeyAlong(prefix, path) == j
  {
    iset path | Leaf(input, members, path) :: KeyAlong(prefix, path)
  }

  /** What is lost to the members of a set: the keys that members outside of it can overwrite. */
  ghost function Outside(input: Fields, prefix: string, lost: iset<string>, core: set<string>): iset<string> {
    lost + LeafKeys(input, input.Keys - core, prefix)
  }

  /** The value is certain if some members form a core: each of them certainly holds it under a key
      that no member outside of the core can overwrite. Whichever of them is visited last shows it. */
  ghost predicate Certain(input: Fields, prefix: string, render: Render, k: string, v: string, lost: iset<string>)
    decreases Obj(input), 2
  {
    exists core :: Core(input, prefix, render, k, v, lost, core)
  }

  ghost predicate Core(input: Fields, prefix: string, render: Render, k: string, v: string, lost: iset<string>, core: set<string>)
    decreases Obj(input), 1
  {
    core != {} && forall m | m in core ::
      m in input && CertainMember(input, prefix, render, k, v, Outside(input, prefix, lost, core), m)
  }

  ghost predicate CertainMember(input: Fields, prefix: string, render: Render, k: string, v: string, lost: iset<string>, m: string)
    requires m in input
    decreases Obj(input), 0
  {
    if input[m].Obj? then Certain(input[m].fields, Step(prefix, m), render, k, v, lost)
    else Near(Step(prefix, m), k) && Step(prefix, m) !in lost && render(input[m]) == v
  }

  lemma VisitedKeys(input: Fields, prefix: string, render: Render, m: string, added: map<string, string>)
    requires m in input && Visited(input, prefix, render, m, map[], added)
    ensures forall j :: j in added <==> j in LeafKeys(input, {m}, prefix)
  {
    assert Covers(map[], input, {}, prefix, render);
    VisitedCovers(input, prefix, render, {}, m, map[], added);
    assert {} + {m} == {m};
    forall j ensures j in added <==> j in LeafKeys(input, {m}, prefix) {
      if j in added { assert FromLeaf(input, {m}, prefix, render, j, added[j]); }
    }
  }

  /** A visit adds what it would come to on its own. */
  lemma VisitAdds(input: Fields, prefix: string, render: Render, m: string, before: map<string, string>, flat: map<string, string>)
    returns (added: map<string, string>)
    requires m in input && Visited(input, prefix, render, m, before, flat)
    ensures Visited(input, prefix, render, m, map[], added) && flat == before + added
  {
    if input[m].Obj? {
      added :| Outcome(input[m].fields, Step(prefix, m), render, added) && flat == before + added;
      assert map[] + added == added;
    } else {
      added := map[Step(prefix, m) := render(input[m])];
    }
  }

  lemma VisitOnto(input: Fields, prefix: string, render: Render, m: string, before: map<string, string>, added: map<string, string>)
    requires m in input && Visited(input, prefix, render, m, map[], added)
    ensures Visited(input, prefix, render, m, before, before + added)
  {
    if input[m].Obj? {
      var nested :| Outcome(input[m].fields, Step(prefix, m), render, nested) && added == map[] + nested;
      assert added == nested;
    } else {
      assert added == map[Step(prefix, m) := render(input[m])];
    }
  }

  lemma LeafKeysGrow(input: Fields, few: set<string>, many: set<string>, prefix: string, j: string)
    requires few <= many && j in LeafKeys(input, few, prefix)
    ensures j in LeafKeys(input, many, prefix)
  {
    var path :| Leaf(input, few, path) && KeyAlong(prefix, path) == j;
    assert Leaf(input, many, path);
  }

  lemma LeafKeysSplit(input: Fields, members: set<string>, m: string, prefix: string, j: string)
    requires j in LeafKeys(input, members + {m}, prefix)
    ensures j in LeafKeys(input, members, prefix) || j in LeafKeys(input, {m}, prefix)
  {
    var path :| Leaf(input, members + {m}, path) && KeyAlong(prefix, path) == j;
    assert Leaf(input, members, path) || Leaf(input, {m}, path);
  }

  lemma {:induction false} CertainMeansAlways(input: Fields, prefix: string, render: Render, k: string, v: string, lost: iset<string>,
                                              flat: map<string, string>)
    requires Certain(input, prefix, render, k, v, lost) && Outcome(input, prefix, render, flat)
    ensures Holds(flat, k, v, lost)
    decreases Obj(input), 2
  {
    var core :| Core(input, prefix, render, k, v, lost, core);
    var order :| IsOrder(order, input.Keys) && After(input, prefix, render, order, flat);
    var m :| m in core;
    assert m in order;
    CoreAfter(input, prefix, render, k, v, lost, core, order, flat);
    var j :| j in flat && Near(j, k) && j !in Outside(input, prefix, lost, core) && flat[j] == v;
  }

  /** Once a member of the core has been visited, the value shows. */
  lemma {:induction false} CoreAfter(input: Fields, prefix: string, render: Render, k: string, v: string, lost: iset<string>,
                                     core: set<string>, order: seq<string>, flat: map<string, string>)
    requires Core(input, prefix, render, k, v, lost, core) && After(input, prefix, render, order, flat)
    requires exists m :: m in core && m in order
    ensures Holds(flat, k, v, Outside(input, prefix, lost, core))
    decreases Obj(input), 1, |order|
  {
    var n := |order| - 1;
    var before :| After(input, prefix, render, order[..n], before) && Visited(input, prefix, render, order[n], before, flat);
    var added := VisitAdds(input, prefix, render, order[n], before, flat);
    SplitLast(order);
    if order[n] in core {
      MemberShows(input, prefix, render, k, v, Outside(input, prefix, lost, core), order[n], added);
      ShownBy(before, added, k, v, Outside(input, prefix, lost, core));
    } else {
      var m :| m in core && m in order;
      assert m in order[..n];
      CoreAfter(input, prefix, render, k, v, lost, core, order[..n], before);
      KeptBy(input, prefix, render, k, v, lost, core, order[n], before, added);
    }
  }

  lemma ShownBy(before: map<string, string>, added: map<string, string>, k: string, v: string, lost: iset<string>)
    requires Holds(added, k, v, lost)
    ensures Holds(before + added, k, v, lost)
  {
    var j :| j in added && Near(j, k) && j !in lost && added[j] == v;
    assert (before + added)[j] == v;
  }

  lemma KeptBy(input: Fields, prefix: string, render: Render, k: string, v: string, lost: iset<string>,
               core: set<string>, m: string, before: map<string, string>, added: map<string, string>)
    requires Holds(before, k, v, Outside(input, prefix, lost, core))
    requires m in input && m !in core && Visited(input, prefix, render, m, map[], added)
    ensures Holds(before + added, k, v, Outside(input, prefix, lost, core))
  {
    var j :| j in before && Near(j, k) && j !in Outside(input, prefix, lost, core) && before[j] == v;
    VisitedKeys(input, prefix, render, m, added);
    if j in added {
      LeafKeysGrow(input, {m}, input.Keys - core, prefix, j);
    }
    assert (before + added)[j] == v;
  }

  lemma {:induction false} MemberShows(input: Fields, prefix: string, render: Render, k: string, v: string, lost: iset<string>,
                                       m: string, added: map<string, string>)
    requires m in input && CertainMember(input, prefix, render, k, v, lost, m) && Visited(input, prefix, render, m, map[], added)
    ensures Holds(added, k, v, lost)
    decreases Obj(input), 0
  {
    if input[m].Obj? {
      var nested :| Outcome(input[m].fields, Step(prefix, m), render, nested) && added == map[] + nested;
      assert added == nested;
      CertainMeansAlways(input[m].fields, Step(prefix, m), render, k, v, lost, nested);
    } else {
      assert Step(prefix, m) in added && added[Step(prefix, m)] == v;
    }
  }

  /** Without a core, the given members can be visited so that the value does not show under any key
      that the others cannot overwrite. */
  lemma {:induction false} Dodge(input: Fields, prefix: string, render: Render, k: string, v: string, lost: iset<string>,
                                 members: set<string>) returns (order: seq<string>, flat: map<string, string>)
    requires !Certain(input, prefix, render, k, v, lost) && forall m | m in members :: m in input
    ensures IsOrder(order, members) && After(input, prefix, render, order, flat)
    ensures !Holds(flat, k, v, Outside(input, prefix, lost, members))
    decreases Obj(input), 1, |members|
  {
    if members == {} {
      order, flat := [], map[];
    } else {
      assert !Core(input, prefix, render, k, v, lost, members);
      var m :| m in members && !CertainMember(input, prefix, render, k, v, Outside(input, prefix, lost, members), m);
      var others := members - {m};
      assert others + {m} == members;
      var rest, before := Dodge(input, prefix, render, k, v, lost, others);
      var added := DodgeMember(input, prefix, render, k, v, Outside(input, prefix, lost, members), m);
      flat := before + added;
      order := rest + [m];
      VisitOnto(input, prefix, render, m, before, added);
      VisitNext(input, prefix, render, rest, others, m, before, flat);
      StillDodged(input, prefix, render, k, v, lost, others, m, before, added);
    }
  }

  lemma StillDodged(input: Fields, prefix: string, render: Render, k: string, v: string, lost: iset<string>,
                    others: set<string>, m: string, before: map<string, string>, added: map<string, string>)
    requires m in input && Visited(input, prefix, render, m, map[], added)
    requires !Holds(before, k, v, Outside(input, prefix, lost, others))
    requires !Holds(added, k, v, Outside(input, prefix, lost, others + {m}))
    ensures !Holds(before + added, k, v, Outside(input, prefix, lost, others + {m}))
  {
    var flat, lost1 := before + added, Outside(input, prefix, lost, others + {m});
    forall j | j in flat && Near(j, k) && j !in lost1 ensures flat[j] != v {
      if j in added {
        assert flat[j] == added[j];
      } else if j in LeafKeys(input, input.Keys - others, prefix) {
        VisitedKeys(input, prefix, render, m, added);
        LeafKeysGrow(input, input.Keys - others, input.Keys - (others + {m}) + {m}, prefix, j);
        LeafKeysSplit(input, input.Keys - (others + {m}), m, prefix, j);
      }
    }
  }

  lemma {:induction false} DodgeMember(input: Fields, prefix: string, render: Render, k: string, v: string, lost: iset<string>, m: string)
    returns (added: map<string, string>)
    requires m in input && !CertainMember(input, prefix, render, k, v, lost, m)
    ensures Visited(input, prefix, render, m, map[], added) && !Holds(added, k, v, lost)
    decreases Obj(input), 0
  {
    if input[m].Obj? {
      var inner := input[m].fields;
      var order;
      order, added := Dodge(inner, Step(prefix, m), render, k, v, lost, inner.Keys);
      assert Outcome(inner, Step(prefix, m), render, added);
      assert map[] + added == added;
      NothingOutside(inner, Step(prefix, m), lost);
    } else {
      added := map[Step(prefix, m) := render(input[m])];
    }
  }

  lemma NothingOutside(input: Fields, prefix: string, lost: iset<string>)
    ensures Outside(input, prefix, lost, input.Keys) == lost
  {
    assert input.Keys - input.Keys == {};
    assert forall path :: !Leaf(input, {}, path);
    assert LeafKeys(input, {}, prefix) == iset{};
  }

  /** A value shows in every order of visits if and only if it is certain. */
  lemma AlwaysIffCertain(input: Fields, prefix: string, render: Render, k: string, v: string, lost: iset<string>)
    ensures (forall flat | Outcome(input, prefix, render, flat) :: Holds(flat, k, v, lost))
            <==> Certain(input, prefix, render, k, v, lost)
  {
    if Certain(input, prefix, render, k, v, lost) {
      forall flat | Outcome(input, prefix, render, flat) ensures Holds(flat, k, v, lost) {
        CertainMeansAlways(input, prefix, render, k, v, lost, flat);
      }
    } else {
      var order, flat := Dodge(input, prefix, render, k, v, lost, input.Keys);
      NothingOutside(input, prefix, lost);
      assert Outcome(input, prefix, render, flat);
    }
  }

  /** Exactly when a value is published under a key, in whatever order the maps are visited. */
  lemma PublishedIffCertain(input: Fields, render: Render, k: string, v: string)
    ensures (forall flat | Outcome(input, "", render, flat) :: Published(Deduplicated(flat), k, v))
            <==> Certain(input, "", render, k, v, iset{})
  {
    AlwaysIffCertain(input, "", render, k, v, iset{});
    forall flat ensures Published(Deduplicated(flat), k, v) <==> Holds(flat, k, v, iset{}) {
      DeduplicationKeepsPublished(flat, k, v);
    }
  }

  /** When the value of a single leaf is published in whatever order the maps are visited: exactly if
      it is certain. In particular always if some key that is the leaf's, or ends in it, can hold
      this value only; and if no other leaf's key ends in it, exactly if no other leaf with its key
      looks different. */
  lemma WhenPublished(input: Fields, render: Render, path: seq<string>)
    requires Leaf(input, input.Keys, path)
    ensures var k := KeyAlong("", path);
            var v := render(LeafValue(input, input.Keys, path));
            var always := forall flat | Outcome(input, "", render, flat) :: Published(Deduplicated(flat), k, v);
            && (always <==> Certain(input, "", render, k, v, iset{}))
            && ((exists p :: Leaf(input, input.Keys, p) && (KeyAlong("", p) == k || EndsIn(KeyAlong("", p), k))
                             && render(LeafValue(input, input.Keys, p)) == v
                             && Uncontested(input, "", render, KeyAlong("", p), v)) ==> always)
            && ((forall p | Leaf(input, input.Keys, p) :: !EndsIn(KeyAlong("", p), k)) ==>
                  (always <==> Uncontested(input, "", render, k, v)))
  {
    var k := KeyAlong("", path);
    var v := render(LeafValue(input, input.Keys, path));
    PublishedIffCertain(input, render, k, v);
    if p :| Leaf(input, input.Keys, p) && (KeyAlong("", p) == k || EndsIn(KeyAlong("", p), k))
            && render(LeafValue(input, input.Keys, p)) == v && Uncontested(input, "", render, KeyAlong("", p), v)
    {
      ValueStandsIffUncontested(input, "", render, p);
      forall flat | Outcome(input, "", render, flat) ensures Published(Deduplicated(flat), k, v) {
        assert KeyAlong("", p) in flat;
        DeduplicationKeepsPublished(flat, k, v);
      }
    }
    if (forall p | Leaf(input, input.Keys, p) :: !EndsIn(KeyAlong("", p), k)) && !Uncontested(input, "", render, k, v) {
      var p :| Leaf(input, input.Keys, p) && KeyAlong("", p) == k && render(LeafValue(input, input.Keys, p)) != v;
      var flat := LeafCanWin(input, "", render, p);
      OutcomeCovers(input, "", render, flat);
      DeduplicationKeepsPublished(flat, k, v);
      NoOtherKey(flat, input, render, k, v);
    }
  }

  lemma NoOtherKey(flat: map<string, string>, input: Fields, render: Render, k: string, v: string)
    requires Covers(flat, input, input.Keys, "", render) && k in flat && flat[k] != v
    requires forall p | Leaf(input, input.Keys, p) :: !EndsIn(KeyAlong("", p), k)
    ensures !Published(flat, k, v)
  {
    forall j | j in flat ensures !EndsIn(j, k) {
      assert FromLeaf(input, input.Keys, "", render, j, flat[j]);
    }
  }

  function Inner(x: Json, y: Json): Fields {
    map["b" := x, "a_" := Obj(map["b" := y])]
  }

  /** {"a+": {"b": x, "a_": {"b": y}}, "a@": {"b": y, "a_": {"b": x}}} */
  function Twins(x: Json, y: Json): Fields {
    map["a+" := Obj(Inner(x, y)), "a@" := Obj(Inner(y, x))]
  }

  lemma TwinKeys()
    ensures Step("", "a+") == "a_" && Step("", "a@") == "a_"
    ensures Step("a_", "b") == "a_.b" && Step("a_", "a_") == "a_.a_" && Step("a_.a_", "b") == "a_.a_.b"
    ensures EndsIn("a_.a_.b", "a_.b")
  {
    assert "a_" + "." + "b" == "a_.b" && "a_" + "." + "a_" == "a_.a_" && "a_.a_" + "." + "b" == "a_.a_.b";
    assert "a_.a_.b"[2..] == "." + "a_.b";
  }

  lemma KeyStartsWith(prefix: string, path: seq<string>)
    requires prefix != "" && AllAllowed(prefix)
    ensures |KeyAlong(prefix, path)| >= |prefix| && KeyAlong(prefix, path)[..|prefix|] == prefix
  {
    if path != [] {
      KeyUnderPrefix(prefix, path);
    }
  }

  /** No leaf under a_ has the key a_.b, and none under b the key a_.a_.b. */
  lemma InnerKeys(x: Json, y: Json)
    requires !x.Obj? && !y.Obj?
    ensures "a_.b" !in LeafKeys(Inner(x, y), {"a_"}, "a_") && "a_.a_.b" !in LeafKeys(Inner(x, y), {"b"}, "a_")
  {
    TwinKeys();
    forall path | Leaf(Inner(x, y), {"a_"}, path) ensures KeyAlong("a_", path) != "a_.b" {
      KeyStartsWith("a_.a_", path[1..]);
      assert KeyAlong("a_", path)[3] == 'a' && "a_.b"[3] == 'b';
    }
    forall path | Leaf(Inner(x, y), {"b"}, path) ensures KeyAlong("a_", path) == "a_.b" {
      assert path == ["b"] + path[1..];
      PathIntoMember(Inner(x, y), "b", path[1..]);
    }
  }

  lemma InnerIsCertain(x: Json, y: Json, render: Render)
    requires !x.Obj? && !y.Obj?
    ensures Certain(Inner(x, y), "a_", render, "a_.b", render(x), iset{})
  {
    TwinKeys();
    InnerKeys(x, y);
    assert Inner(x, y).Keys - {"b"} == {"a_"};
    assert Core(Inner(x, y), "a_", render, "a_.b", render(x), iset{}, {"b"});
  }

  lemma OtherIsCertain(x: Json, y: Json, render: Render)
    requires !x.Obj? && !y.Obj?
    ensures Certain(Inner(y, x), "a_", render, "a_.b", render(x), iset{})
  {
    TwinKeys();
    InnerKeys(y, x);
    assert Inner(y, x).Keys - {"a_"} == {"b"};
    var single: Fields := map["b" := x];
    var lost := Outside(Inner(y, x), "a_", iset{}, {"a_"});
    NothingOutside(single, "a_.a_", lost);
    assert single.Keys == {"b"};
    assert Core(single, "a_.a_", render, "a_.b", render(x), lost, {"b"});
    assert Core(Inner(y, x), "a_", render, "a_.b", render(x), iset{}, {"a_"});
  }

  lemma TwinLeaves(x: Json, y: Json)
    requires !x.Obj? && !y.Obj?
    ensures var input := Twins(x, y);
            && Leaf(input, input.Keys, ["a@", "b"]) && LeafValue(input, input.Keys, ["a@", "b"]) == y
            && KeyAlong("", ["a@", "b"]) == "a_.b"
            && Leaf(input, input.Keys, ["a+", "a_", "b"]) && LeafValue(input, input.Keys, ["a+", "a_", "b"]) == y
            && KeyAlong("", ["a+", "a_", "b"]) == "a_.a_.b"
  {
    TwinKeys();
    AtCons(Twins(x, y), "a@", ["b"]);
    AtCons(Inner(y, x), "b", []);
    AtCons(Twins(x, y), "a+", ["a_", "b"]);
    AtCons(Inner(x, y), "a_", ["b"]);
    AtCons(map["b" := y], "b", []);
    assert ["a@"] + ["b"] == ["a@", "b"] && ["a_"] + ["b"] == ["a_", "b"] && ["a+"] + ["a_", "b"] == ["a+", "a_", "b"];
    KeyStep("", "a@", ["b"]);
    KeyStep("", "a+", ["a_", "b"]);
    KeyStep("a_", "a_", ["b"]);
    assert ["b"][1..] == [];
  }

  lemma TwinIsCertain(x: Json, y: Json, render: Render, m: string)
    requires !x.Obj? && !y.Obj? && m in Twins(x, y)
    ensures CertainMember(Twins(x, y), "", render, "a_.b", render(x), iset{}, m)
  {
    TwinKeys();
    if m == "a+" {
      InnerIsCertain(x, y, render);
      assert Twins(x, y)[m] == Obj(Inner(x, y));
    } else {
      OtherIsCertain(x, y, render);
      assert Twins(x, y)[m] == Obj(Inner(y, x));
    }
  }

  /** All members together form a core if each of them is certain. */
  lemma AllFormCore(input: Fields, prefix: string, render: Render, k: string, v: string, lost: iset<string>)
    requires input != map[] && forall m | m in input :: CertainMember(input, prefix, render, k, v, lost, m)
    ensures Certain(input, prefix, render, k, v, lost)
  {
    NothingOutside(input, prefix, lost);
    assert input.Keys != {};
    assert Core(input, prefix, render, k, v, lost, input.Keys);
  }

  lemma TwinsAreCertain(x: Json, y: Json, render: Render)
    requires !x.Obj? && !y.Obj?
    ensures Certain(Twins(x, y), "", render, "a_.b", render(x), iset{})
  {
    forall m | m in Twins(x, y) ensures CertainMember(Twins(x, y), "", render, "a_.b", render(x), iset{}, m) {
      TwinIsCertain(x, y, render, m);
    }
    assert "a+" in Twins(x, y);
    AllFormCore(Twins(x, y), "", render, "a_.b", render(x), iset{});
  }

  /** Winners of different keys depend on each other: in the twins either of the keys a_.b and
      a_.a_.b can hold y, and yet x is published under a_.b in every order. */
  lemma WinnersDepend(x: Json, y: Json, render: Render) returns (one: map<string, string>, other: map<string, string>)
    requires !x.Obj? && !y.Obj?
    ensures Outcome(Twins(x, y), "", render, one) && "a_.b" in one && one["a_.b"] == render(y)
    ensures Outcome(Twins(x, y), "", render, other) && "a_.a_.b" in other && other["a_.a_.b"] == render(y)
    ensures forall flat | Outcome(Twins(x, y), "", render, flat) :: Published(Deduplicated(flat), "a_.b", render(x))
  {
    TwinLeaves(x, y);
    one := LeafCanWin(Twins(x, y), "", render, ["a@", "b"]);
    other := LeafCanWin(Twins(x, y), "", render, ["a+", "a_", "b"]);
    TwinsAreCertain(x, y, render);
    PublishedIffCertain(Twins(x, y), render, "a_.b", render(x));
  }

  /** The credentials that are published: an outcome of flattening without its duplicates. The
      value of every leaf that no other leaf with its key contradicts is found under its key or
      under a dotted key that ends in it. */
  method Publish(input: Fields, render: Render) returns (r: Credentials, ghost flat: map<string, string>)
    ensures fresh(r) && Outcome(input, "", render, flat) && r.entries == Deduplicated(flat)
    ensures forall path | Leaf(input, input.Keys, path)
                          && Uncontested(input, "", render, KeyAlong("", path), render(LeafValue(input, input.Keys, path))) ::
              Published(r.entries, KeyAlong("", path), render(LeafValue(input, input.Keys, path)))
    ensures forall k | k in r.entries :: AllAllowed(k)
  {
    var connDetails := FlattenMap(input, "", render);
    flat := connDetails;
    r := new Credentials(connDetails);
    r.ReplaceRootKeyWithNestedKey();
    forall path | Leaf(input, input.Keys, path)
                  && Uncontested(input, "", render, KeyAlong("", path), render(LeafValue(input, input.Keys, path)))
      ensures Published(r.entries, KeyAlong("", path), render(LeafValue(input, input.Keys, path)))
    {
      ValueStandsIffUncontested(input, "", render, path);
      DeduplicationKeepsPublished(flat, KeyAlong("", path), render(LeafValue(input, input.Keys, path)));
    }
  }
}
