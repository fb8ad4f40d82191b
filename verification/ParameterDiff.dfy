/** Parameters of a service instance: the update sent to the broker, the conversion between
    decoded and raw parameters, and the up-to-date check on raw parameters
    (client/serviceinstance/serviceinstance.go). */
module ParameterDiff {
  import opened JsonDoc
  import opened OrderedCompare
  import opened Reorderings

  // ---------------------------------------------------------------- the update

  predicate AgreeAt(enc: Encoding, observed: Fields, expected: Fields, k: string) {
    k in observed && k in expected && Same(enc, observed[k], expected[k])
  }

  /** Exactly the expected keys, with equal values up to the order of array elements. */
  predicate Agree(enc: Encoding, observed: Fields, expected: Fields) {
    observed.Keys == expected.Keys && forall k <- expected :: Same(enc, observed[k], expected[k])
  }

  function UpdateFields(enc: Encoding, observed: Fields, expected: Fields): Fields {
    map k | k in observed.Keys + expected.Keys && !AgreeAt(enc, observed, expected, k) ::
      if k in expected then expected[k] else Null
  }

  /** None stands for nil. */
  function UpdateFor(enc: Encoding, observed: Fields, expected: Fields): Option<Fields> {
    var update := UpdateFields(enc, observed, expected);
    if update == map[] then None else Some(update)
  }

  /** What the broker makes of an update: null removes a parameter, any other value replaces it. */
  function Applied(observed: Fields, update: Fields): Fields {
    map k | k in observed.Keys + update.Keys && (k in update ==> update[k] != Null) ::
      if k in update then update[k] else observed[k]
  }

  function OrNothing(update: Option<Fields>): Fields {
    if update.Some? then update.value else map[]
  }

  /** No parameter is expected to be null that is not null already. */
  predicate NoNullWanted(observed: Fields, expected: Fields) {
    forall k <- expected :: expected[k] == Null ==> k in observed && observed[k] == Null
  }

  /** Where the loops stand once the expected keys outside todo have been visited. */
  ghost predicate Covered(enc: Encoding, observed: Fields, expected: Fields, update: Fields, todo: set<string>) {
    && (forall k :: k in update <==>
          (if k in expected then k !in todo && !AgreeAt(enc, observed, expected, k) else k in observed))
    && (forall k | k in update :: update[k] == if k in expected then expected[k] else Null)
  }

  lemma CoverOne(enc: Encoding, observed: Fields, expected: Fields, update: Fields, todo: set<string>, key: string)
    requires Covered(enc, observed, expected, update, todo) && key in todo && key in expected
    ensures Covered(enc, observed, expected,
                    if AgreeAt(enc, observed, expected, key) then update else update[key := expected[key]], todo - {key})
  {
  }

  lemma CoverAll(enc: Encoding, observed: Fields, expected: Fields, update: Fields)
    requires Covered(enc, observed, expected, update, {})
    ensures update == UpdateFields(enc, observed, expected)
  {
  }

  method ParameterUpdateForBroker(enc: Encoding, observed: Fields, expected: Fields) returns (r: Option<Fields>)
    ensures r == UpdateFor(enc, observed, expected)
  {
    var update: Fields := map[];
    var keys := observed.Keys;
    while keys != {}
      invariant forall k | k in keys :: k in observed
      invariant forall k :: k in update <==> k in observed && k !in keys && k !in expected
      invariant forall k | k in update :: update[k] == Null
      decreases |keys|
    {
      var key :| key in keys;
      keys := keys - {key};
      if key !in expected {
        update := update[key := Null];
      }
    }
    keys := expected.Keys;
    while keys != {}
      invariant forall k | k in keys :: k in expected
      invariant Covered(enc, observed, expected, update, keys)
      decreases |keys|
    {
      var key :| key in keys;
      CoverOne(enc, observed, expected, update, keys, key);
      keys := keys - {key};
      if key in observed && Same(enc, observed[key], expected[key]) {
        continue;
      }
      update := update[key := expected[key]];
    }
    CoverAll(enc, observed, expected, update);
    r := if |update| == 0 then None else Some(update);
  }

  /** The update is nil exactly when both sides agree already. */
  lemma NilIffAgree(enc: Encoding, observed: Fields, expected: Fields)
    ensures UpdateFor(enc, observed, expected) == None <==> Agree(enc, observed, expected)
  {
    var update := UpdateFields(enc, observed, expected);
    if update == map[] {
      forall k ensures k in observed <==> k in expected
               ensures k in expected ==> AgreeAt(enc, observed, expected, k)
      {
        assert k !in update;
      }
    } else {
      var k :| k in update;
      assert !AgreeAt(enc, observed, expected, k);
    }
  }

  lemma AppliedAgrees(enc: Encoding, observed: Fields, expected: Fields)
    requires NoNullWanted(observed, expected)
    ensures Agree(enc, Applied(observed, UpdateFields(enc, observed, expected)), expected)
  {
    var after := Applied(observed, UpdateFields(enc, observed, expected));
    forall k ensures k in after <==> k in expected
             ensures k in expected ==> Same(enc, after[k], expected[k])
    {
      if k in expected {
        SameIsEquivalence(enc, expected[k], expected[k], expected[k]);
      }
    }
  }

  /** Applying the update gives exactly the expected keys with equal values, and an update that is
      nil when computed again, if and only if no null is wanted where there was none. */
  lemma UpdateIsCorrect(enc: Encoding, observed: Fields, expected: Fields)
    ensures var after := Applied(observed, OrNothing(UpdateFor(enc, observed, expected)));
            && (Agree(enc, after, expected) <==> NoNullWanted(observed, expected))
            && (UpdateFor(enc, after, expected) == None <==> NoNullWanted(observed, expected))
  {
    var update := UpdateFields(enc, observed, expected);
    var after := Applied(observed, update);
    assert OrNothing(UpdateFor(enc, observed, expected)) == update;
    NilIffAgree(enc, after, expected);
    if NoNullWanted(observed, expected) {
      AppliedAgrees(enc, observed, expected);
    } else {
      var k :| k in expected && expected[k] == Null && !(k in observed && observed[k] == Null);
      assert k in update && k !in after;
    }
  }

  lemma UntouchedAgrees(enc: Encoding, observed: Fields, expected: Fields, other: Fields, k: string)
    requires Agree(enc, Applied(observed, other), expected) && k !in other
    ensures AgreeAt(enc, observed, expected, k) || (k !in observed && k !in expected)
  {
    var after := Applied(observed, other);
    assert k in after <==> k in observed;
    assert k in after ==> after[k] == observed[k];
  }

  /** The update touches no agreeing key, and every update that does the job touches its keys. */
  lemma UpdateIsMinimal(enc: Encoding, observed: Fields, expected: Fields, other: Fields)
    requires Agree(enc, Applied(observed, other), expected)
    ensures forall k | AgreeAt(enc, observed, expected, k) :: k !in OrNothing(UpdateFor(enc, observed, expected))
    ensures OrNothing(UpdateFor(enc, observed, expected)).Keys <= other.Keys
  {
    var update := UpdateFields(enc, observed, expected);
    assert OrNothing(UpdateFor(enc, observed, expected)) == update;
    forall k | k in update ensures k in other {
      if k !in other {
        UntouchedAgrees(enc, observed, expected, other, k);
      }
    }
  }

  // ---------------------------------------------------------------- raw parameters

  /** json.Decoder.Decode of one value. */
  type Decoding = string -> Option<Json>

  type RawParams = map<string, string>

  datatype Converted<T> = Ok(value: Option<T>) | Invalid

  function Encoded(enc: Encoding, params: Fields): RawParams {
    map k | k in params :: enc(params[k])
  }

  predicate Decodes(dec: Decoding, raw: RawParams) {
    forall k <- raw :: dec(raw[k]).Some?
  }

  function Decoded(dec: Decoding, raw: RawParams): Fields
    requires Decodes(dec, raw)
  {
    map k | k in raw :: dec(raw[k]).value
  }

  function ToBroker(dec: Decoding, params: Option<RawParams>): Converted<Fields> {
    if params == None then Ok(None)
    else if Decodes(dec, params.value) then Ok(Some(Decoded(dec, params.value)))
    else Invalid
  }

  /** Marshalling decoded JSON does not fail. */
  method ServiceBrokerParamsToKubernetes(enc: Encoding, params: Option<Fields>) returns (r: Option<RawParams>)
    ensures params == None ==> r == None
    ensures params.Some? ==> r == Some(Encoded(enc, params.value))
  {
    if params == None {
      return None;
    }
    var result: RawParams := map[];
    var keys := params.value.Keys;
    while keys != {}
      invariant keys <= params.value.Keys
      invariant forall k :: k in result <==> k in params.value && k !in keys
      invariant forall k | k in result :: result[k] == enc(params.value[k])
      decreases |keys|
    {
      var key :| key in keys;
      keys := keys - {key};
      result := result[key := enc(params.value[key])];
    }
    assert result == Encoded(enc, params.value);
    return Some(result);
  }

  method KubernetesParamsToServiceBroker(dec: Decoding, params: Option<RawParams>) returns (r: Converted<Fields>)
    ensures r == ToBroker(dec, params)
  {
    if params == None {
      return Ok(None);
    }
    var result: Fields := map[];
    var keys := params.value.Keys;
    while keys != {}
      invariant keys <= params.value.Keys
      invariant forall k :: k in result <==> k in params.value && k !in keys
      invariant forall k | k in result :: dec(params.value[k]) == Some(result[k])
      decreases |keys|
    {
      var key :| key in keys;
      keys := keys - {key};
      var v := dec(params.value[key]);
      if v == None {
        return Invalid;
      }
      result := result[key := v.value];
    }
    assert result == Decoded(dec, params.value);
    return Ok(Some(result));
  }

  /** The conversions are inverse where decoding is inverse to encoding. */
  lemma ParamsRoundTrip(enc: Encoding, dec: Decoding, params: Fields)
    requires forall v :: dec(enc(v)) == Some(v)
    ensures ToBroker(dec, Some(Encoded(enc, params))) == Ok(Some(params))
  {
    var raw := Encoded(enc, params);
    assert forall k <- raw :: dec(raw[k]) == Some(params[k]);
    assert Decoded(dec, raw) == params;
  }

  // ---------------------------------------------------------------- the up-to-date check

  datatype Identity = Identity(platform: Option<string>, value: Option<string>)

  /** ServiceInstanceParameters; None stands for nil. */
  datatype Spec = Spec(acceptsIncomplete: Option<bool>, organization: Option<string>, space: Option<string>,
                       serviceName: Option<string>, planName: Option<string>, parameters: Option<RawParams>,
                       context: Option<map<string, string>>, identity: Option<Identity>)

  class SpecObject {
    var value: Spec

    constructor (value: Spec)
      ensures this.value == value
    {
      this.value := value;
    }
  }

  function LateInitializeString(s: Option<string>, from: string): Option<string> {
    if s.Some? || from == "" then s else Some(from)
  }

  function LateInitializeJsonMap(s: Option<RawParams>, from: Option<RawParams>): Option<RawParams> {
    if OrEmpty(s) != map[] || OrEmpty(from) == map[] then s else from
  }

  function OrEmpty(p: Option<RawParams>): RawParams {
    if p.Some? then p.value else map[]
  }

  /** A field that is set stays and an unset one takes the given value unless that is empty;
      parameters that hold something stay. Operations are always asynchronous. */
  method LateInitialize(spec: SpecObject, organization: string, space: string, params: Option<RawParams>)
    modifies spec
    ensures spec.value.acceptsIncomplete == Some(true)
    ensures spec.value.serviceName == old(spec.value.serviceName) && spec.value.planName == old(spec.value.planName)
    ensures spec.value.context == old(spec.value.context) && spec.value.identity == old(spec.value.identity)
    ensures old(spec.value.organization).Some? ==> spec.value.organization == old(spec.value.organization)
    ensures old(spec.value.organization).None? ==>
              (if organization == "" then spec.value.organization == None else spec.value.organization == Some(organization))
    ensures old(spec.value.space).Some? ==> spec.value.space == old(spec.value.space)
    ensures old(spec.value.space).None? ==>
              (if space == "" then spec.value.space == None else spec.value.space == Some(space))
    ensures OrEmpty(old(spec.value.parameters)) != map[] ==> spec.value.parameters == old(spec.value.parameters)
    ensures OrEmpty(old(spec.value.parameters)) == map[] ==>
              (spec.value.parameters == if OrEmpty(params) == map[] then old(spec.value.parameters) else params)
  {
    spec.value := spec.value.(acceptsIncomplete := Some(true));
    spec.value := spec.value.(organization := LateInitializeString(spec.value.organization, organization));
    spec.value := spec.value.(space := LateInitializeString(spec.value.space, space));
    spec.value := spec.value.(parameters := LateInitializeJsonMap(spec.value.parameters, params));
  }

  /** What SpecMatchesObservedState comes to: an empty identifier in the response stands for an
      unset one, nil and empty parameters are the same, and raw parameters are compared as bytes. The
      response never fills context and identity, so a spec that sets either, were it to an empty
      context, never matches. */
  predicate Matches(spec: Spec, organization: string, space: string, params: Option<RawParams>) {
    && spec.acceptsIncomplete == Some(true)
    && spec.organization == (if organization == "" then None else Some(organization))
    && spec.space == (if space == "" then None else Some(space))
    && OrEmpty(spec.parameters) == OrEmpty(params)
    && spec.context == None && spec.identity == None
  }

  method SpecMatchesObservedState(spec: Spec, organization: string, space: string, params: Option<RawParams>)
    returns (matches: bool)
    ensures matches <==> Matches(spec, organization, space, params)
  {
    var observed := new SpecObject(Spec(None, None, None, spec.serviceName, spec.planName, None, None, None));
    LateInitialize(observed, organization, space, params);
    if spec.parameters.Some? && observed.value.parameters.None? {
      observed.value := observed.value.(parameters := Some(map[]));
    }
    matches := observed.value == spec;
  }

  function Broker(c: Converted<Fields>): Fields {
    if c.Ok? && c.value.Some? then c.value.value else map[]
  }

  /** Parameters that match as bytes need no update. */
  lemma MatchMeansNoUpdate(enc: Encoding, dec: Decoding, spec: Spec, organization: string, space: string, params: Option<RawParams>)
    requires Matches(spec, organization, space, params)
    ensures ToBroker(dec, params).Ok? <==> ToBroker(dec, spec.parameters).Ok?
    ensures UpdateFor(enc, Broker(ToBroker(dec, params)), Broker(ToBroker(dec, spec.parameters))) == None
  {
    var a, b := Broker(ToBroker(dec, params)), Broker(ToBroker(dec, spec.parameters));
    assert a == b;
    forall k | k in a ensures Same(enc, a[k], b[k]) {
      SameIsEquivalence(enc, a[k], a[k], a[k]);
    }
    NilIffAgree(enc, a, b);
  }

  /** Every raw parameter is written as the encoder writes it. */
  predicate Canonical(enc: Encoding, dec: Decoding, raw: RawParams)
    requires Decodes(dec, raw)
  {
    forall k <- raw :: enc(dec(raw[k]).value) == raw[k]
  }

  predicate RigidParams(dec: Decoding, raw: RawParams)
    requires Decodes(dec, raw)
  {
    forall k <- raw :: Rigid(dec(raw[k]).value)
  }

  lemma RigidAgreement(enc: Encoding, dec: Decoding, raw: RawParams, observed: Fields)
    requires Decodes(dec, raw) && Canonical(enc, dec, raw) && RigidParams(dec, raw)
    requires Agree(enc, observed, Decoded(dec, raw))
    ensures Encoded(enc, observed) == raw
  {
    var expected := Decoded(dec, raw);
    assert observed.Keys == expected.Keys == raw.Keys;
    forall k | k in raw ensures enc(observed[k]) == raw[k] {
      SameIsEquivalence(enc, observed[k], expected[k], Null);
      SameIsSound(enc, expected[k], observed[k]);
      RigidPermEq(expected[k], observed[k]);
    }
    assert forall k | k in raw :: Encoded(enc, observed)[k] == raw[k];
  }

  /** A parameter can be given another equal value, if it has one. */
  lemma OtherAgreement(enc: Encoding, dec: Decoding, raw: RawParams, k: string) returns (observed: Fields)
    requires Injective(enc) && Decodes(dec, raw) && k in raw && !Rigid(dec(raw[k]).value)
    ensures Agree(enc, observed, Decoded(dec, raw))
    ensures k in observed && enc(observed[k]) != enc(dec(raw[k]).value)
  {
    var expected := Decoded(dec, raw);
    var other := SomeOther(enc, expected[k]);
    observed := expected[k := other];
    assert observed.Keys == expected.Keys;
    forall l | l in expected ensures Same(enc, observed[l], expected[l]) {
      SameIsEquivalence(enc, expected[l], observed[l], Null);
      SameIsEquivalence(enc, expected[l], expected[l], Null);
    }
  }

  lemma AgreesWithItself(enc: Encoding, params: Fields)
    ensures Agree(enc, params, params)
  {
    forall k | k in params ensures Same(enc, params[k], params[k]) {
      SameIsEquivalence(enc, params[k], params[k], Null);
    }
  }

  /** The raw parameters equal the encoded ones wherever no update is needed, whatever was observed,
      exactly if they are written as the encoder writes them and every array in them repeats one
      element. */
  lemma NilMeansEqualBytes(enc: Encoding, dec: Decoding, raw: RawParams)
    requires Injective(enc) && Decodes(dec, raw)
    ensures (forall o: Fields | UpdateFor(enc, o, Decoded(dec, raw)) == None :: Encoded(enc, o) == raw)
            <==> Canonical(enc, dec, raw) && RigidParams(dec, raw)
  {
    var expected := Decoded(dec, raw);
    if Canonical(enc, dec, raw) && RigidParams(dec, raw) {
      forall o: Fields | UpdateFor(enc, o, expected) == None ensures Encoded(enc, o) == raw {
        NilIffAgree(enc, o, expected);
        RigidAgreement(enc, dec, raw, o);
      }
    } else {
      var o := NeedlessUpdate(enc, dec, raw);
      assert UpdateFor(enc, o, expected) == None;
    }
  }

  lemma NeedlessUpdate(enc: Encoding, dec: Decoding, raw: RawParams) returns (o: Fields)
    requires Injective(enc) && Decodes(dec, raw) && !(Canonical(enc, dec, raw) && RigidParams(dec, raw))
    ensures UpdateFor(enc, o, Decoded(dec, raw)) == None && Encoded(enc, o) != raw
  {
    o := Decoded(dec, raw);
    AgreesWithItself(enc, o);
    if Canonical(enc, dec, raw) {
      var k :| k in raw && !Rigid(dec(raw[k]).value);
      o := OtherAgreement(enc, dec, raw, k);
      assert Encoded(enc, o)[k] != raw[k];
    } else {
      var k :| k in raw && enc(dec(raw[k]).value) != raw[k];
      assert Encoded(enc, o)[k] != raw[k];
    }
    NilIffAgree(enc, o, Decoded(dec, raw));
  }

  /** The up-to-date check asks for no needless update, whatever the broker holds, exactly if the
      spec is settled but for its parameters and these are written as the encoder writes them and
      every array in them repeats one element. */
  lemma NilMeansMatch(enc: Encoding, dec: Decoding, spec: Spec, organization: string, space: string)
    requires Injective(enc) && Decodes(dec, OrEmpty(spec.parameters))
    ensures var raw := OrEmpty(spec.parameters);
            (forall o: Fields | UpdateFor(enc, o, Decoded(dec, raw)) == None :: Matches(spec, organization, space, Some(Encoded(enc, o))))
            <==> Matches(spec, organization, space, spec.parameters) && Canonical(enc, dec, raw) && RigidParams(dec, raw)
  {
    var raw := OrEmpty(spec.parameters);
    var expected := Decoded(dec, raw);
    NilMeansEqualBytes(enc, dec, raw);
    AgreesWithItself(enc, expected);
    NilIffAgree(enc, expected, expected);
    var settled := Matches(spec, organization, space, spec.parameters);
    forall o: Fields
      ensures Matches(spec, organization, space, Some(Encoded(enc, o))) <==> settled && Encoded(enc, o) == raw
    {
    }
  }

  /** One of the cases in which the check asks for updates that change nothing. */
  lemma MismatchWithoutUpdate(enc: Encoding, dec: Decoding)
    requires enc(Num(Decimal(1, 0))) == "1" && enc(Num(Decimal(2, 0))) == "2"
    requires dec("[1,2]") == Some(Arr([Num(Decimal(1, 0)), Num(Decimal(2, 0))]))
    requires dec("[2,1]") == Some(Arr([Num(Decimal(2, 0)), Num(Decimal(1, 0))]))
    ensures var spec := Spec(Some(true), None, None, None, None, Some(map["p" := "[1,2]"]), None, None);
            var params := Some(map["p" := "[2,1]"]);
            && !Matches(spec, "", "", params)
            && UpdateFor(enc, Broker(ToBroker(dec, params)), Broker(ToBroker(dec, spec.parameters))) == None
  {
    var raw, wanted := map["p" := "[2,1]"], map["p" := "[1,2]"];
    assert raw["p"][1] != wanted["p"][1];
    SwappedPairSame(enc, Num(Decimal(1, 0)), Num(Decimal(2, 0)));
    assert Decoded(dec, raw) == map["p" := Arr([Num(Decimal(2, 0)), Num(Decimal(1, 0))])];
    assert Decoded(dec, wanted) == map["p" := Arr([Num(Decimal(1, 0)), Num(Decimal(2, 0))])];
    NilIffAgree(enc, Decoded(dec, raw), Decoded(dec, wanted));
  }

  lemma SwappedPairSame(enc: Encoding, one: Json, two: Json)
    requires enc(one) == "1" && enc(two) == "2"
    ensures Same(enc, Arr([two, one]), Arr([one, two]))
  {
    FirstDifference("1", "2", 0);
    SortPair(enc, one, two);
    SortPair(enc, two, one);
    SameIsEquivalence(enc, one, one, one);
    SameIsEquivalence(enc, two, two, two);
    SameBy(enc, [two, one], [one, two]);
  }
}
