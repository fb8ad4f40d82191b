/** Convergence of the service bindings of one AppClusterBinding
    (appclusterbinding_reconcile.go, ensureServiceBindings and newServiceBinding). */
module ServiceBindings {
  import opened JsonDoc
  import opened Templates

  datatype SecretRef = SecretRef(namespace: string, name: string, key: string)

  datatype ServiceBinding = ServiceBinding(labels: map<string, string>, secretRef: SecretRef, claims: Json)

  type Bindings = map<Name, ServiceBinding>

  /** A created service binding carries no permission claims. */
  const NO_CLAIMS := Null

  /** The AppClusterBinding as far as this pass reads it. labels are the two that select its
      service bindings; secretRef already points into the root namespace. */
  datatype Owner = Owner(apiExports: seq<GroupResource>, labels: map<string, string>, secretRef: SecretRef)

  datatype Fate = Delivered | Lost | ReplyLost

  datatype Reply = Ok | NotFound | AlreadyExists | Failed

  /** The service bindings of the root namespace: the labelled ones by name, and the names
      taken by unlabelled ones. Nobody else writes. */
  class Store {
    var bindings: Bindings
    const foreign: set<Name>
    const fates: nat -> Fate
    var calls: nat
    /** Calls that failed, whether they took effect or not. */
    var faults: nat
    /** Write calls issued, and creates and deletes that took effect. */
    var writes: nat
    ghost var applied: nat

    ghost predicate Valid() reads this {
      bindings.Keys !! foreign
    }

    constructor (bindings: Bindings, foreign: set<Name>, fates: nat -> Fate)
      requires bindings.Keys !! foreign
      ensures Valid() && this.bindings == bindings && this.foreign == foreign && this.fates == fates
      ensures calls == faults == writes == 0 && applied == 0
    {
      this.bindings, this.foreign, this.fates := bindings, foreign, fates;
      calls, faults, writes, applied := 0, 0, 0, 0;
    }

    method Draw() returns (fate: Fate)
      modifies this`calls, this`faults
      ensures calls == old(calls) + 1
      ensures faults == old(faults) + if fate == Delivered then 0 else 1
    {
      fate := fates(calls);
      calls := calls + 1;
      if fate != Delivered { faults := faults + 1; }
    }

    method List() returns (r: Option<Bindings>)
      modifies this`calls, this`faults
      ensures calls == old(calls) + 1
      ensures r.Some? ==> r.value == bindings && faults == old(faults)
      ensures r.None? ==> faults == old(faults) + 1
    {
      var fate := Draw();
      r := if fate == Delivered then Some(bindings) else None;
    }

    method Delete(name: Name) returns (r: Reply)
      requires Valid()
      modifies this
      ensures Valid() && calls == old(calls) + 1 && writes == old(writes) + 1
      ensures bindings == (if applied == old(applied) then old(bindings) else old(bindings) - {name})
      ensures applied == old(applied) || (applied == old(applied) + 1 && name in old(bindings))
      ensures r != Failed ==> (applied > old(applied) <==> name in old(bindings))
      ensures r == (if faults > old(faults) then Failed else if name in old(bindings) then Ok else NotFound)
      ensures faults >= old(faults)
    {
      var fate := Draw();
      writes := writes + 1;
      r := if fate != Delivered then Failed else if name in bindings then Ok else NotFound;
      if name in bindings && fate != Lost {
        bindings, applied := bindings - {name}, applied + 1;
      }
    }

    method Update(name: Name, sb: ServiceBinding) returns (r: Reply)
      requires Valid()
      modifies this
      ensures Valid() && calls == old(calls) + 1 && writes == old(writes) + 1 && applied == old(applied)
      ensures bindings == old(bindings) || (name in old(bindings) && bindings == old(bindings)[name := sb])
      ensures r == Ok ==> name in bindings && bindings[name] == sb
      ensures r == (if faults > old(faults) then Failed else if name in old(bindings) then Ok else NotFound)
      ensures faults >= old(faults)
    {
      var fate := Draw();
      writes := writes + 1;
      r := if fate != Delivered then Failed else if name in bindings then Ok else NotFound;
      if name in bindings && fate != Lost {
        bindings := bindings[name := sb];
      }
    }

    method Create(name: Name, sb: ServiceBinding) returns (r: Reply)
      requires Valid()
      modifies this
      ensures Valid() && calls == old(calls) + 1 && writes == old(writes) + 1
      ensures bindings == (if applied == old(applied) then old(bindings) else old(bindings)[name := sb])
      ensures applied == old(applied) || (applied == old(applied) + 1 && name !in old(bindings) && name !in foreign)
      ensures r != Failed ==> (applied > old(applied) <==> name !in old(bindings) && name !in foreign)
      ensures r == (if faults > old(faults) then Failed
                    else if name in old(bindings) || name in foreign then AlreadyExists else Ok)
      ensures faults >= old(faults)
    {
      var fate := Draw();
      writes := writes + 1;
      var taken := name in bindings || name in foreign;
      r := if fate != Delivered then Failed else if taken then AlreadyExists else Ok;
      if !taken && fate != Lost {
        bindings, applied := bindings[name := sb], applied + 1;
      }
    }
  }

  /** What still separates the labelled names from the desired ones. */
  function Gap(labelled: set<Name>, desired: set<Name>): set<Name> {
    (labelled - desired) + (desired - labelled)
  }

  predicate UpToDate(o: Owner, sb: ServiceBinding) {
    sb.labels == o.labels && sb.secretRef == o.secretRef
  }

  function NewServiceBinding(o: Owner): ServiceBinding {
    ServiceBinding(o.labels, o.secretRef, NO_CLAIMS)
  }

  /** The desired map, built template by template; None when a template cannot be resolved. */
  method BuildDesired(c: Catalogue, o: Owner) returns (desired: Option<Bindings>)
    ensures desired.Some? <==> NoneMissing(c, o.apiExports)
    ensures desired.Some? ==> forall n :: n in desired.value <==> n in Desired(c, o.apiExports)
    ensures desired.Some? ==> forall n | n in desired.value :: desired.value[n] == NewServiceBinding(o)
  {
    var built: Bindings := map[];
    for i := 0 to |o.apiExports|
      invariant NoneMissing(c, o.apiExports[..i])
      invariant forall n :: n in built <==> n in Desired(c, o.apiExports[..i])
      invariant forall n | n in built :: built[n] == NewServiceBinding(o)
    {
      PrefixStep(c, o.apiExports, i);
      var r := Resolve(c, o.apiExports[i]);
      if r == Unresolved {
        return None;
      }
      if r == Skip {
        continue;
      }
      var name := ExportName(r.template);
      if name == NO_NAME {
        continue;
      }
      built := built[name := NewServiceBinding(o)];
    }
    assert o.apiExports[..|o.apiExports|] == o.apiExports;
    return Some(built);
  }

  /** Where the loop over the listed bindings stands once the names in done have been visited and
      those in gone were deleted; clean says that no call has failed. */
  ghost predicate Pruned(o: Owner, listed: Bindings, wanted: Bindings, now: Bindings,
                         done: set<Name>, gone: set<Name>, clean: bool) {
    && (forall n | n in gone :: n in done && n !in wanted)
    && (forall n | n in done :: n in listed)
    && (forall n :: n in now <==> n in listed && n !in gone)
    && (forall n | n in now :: now[n].claims == listed[n].claims && (n !in done ==> now[n] == listed[n]))
    && (clean ==> forall n | n in done :: if n in wanted then UpToDate(o, now[n]) else n in gone)
  }

  lemma PrunedUndesired(o: Owner, listed: Bindings, wanted: Bindings, now: Bindings, next: Bindings,
                        done: set<Name>, gone: set<Name>, clean: bool, ok: bool, name: Name)
    requires Pruned(o, listed, wanted, now, done, gone, clean) && name in listed && name !in done && name !in wanted
    requires next == now || next == now - {name}
    requires ok ==> next == now - {name}
    ensures Pruned(o, listed, wanted, next, done + {name}, if name in next then gone else gone + {name}, clean && ok)
  {
  }

  lemma PrunedDesired(o: Owner, listed: Bindings, wanted: Bindings, now: Bindings, next: Bindings,
                      done: set<Name>, gone: set<Name>, clean: bool, ok: bool, name: Name, sb: ServiceBinding)
    requires Pruned(o, listed, wanted, now, done, gone, clean) && name in listed && name !in done && name in wanted
    requires sb.claims == listed[name].claims && UpToDate(o, sb)
    requires next == now || next == now[name := sb]
    requires ok ==> UpToDate(o, next[name])
    ensures Pruned(o, listed, wanted, next, done + {name}, gone, clean && ok)
  {
  }

  /** Nothing has been written so far exactly if every visited name is desired and up to date. */
  ghost predicate Quiet(o: Owner, listed: Bindings, wanted: Bindings, now: Bindings, done: set<Name>, writes: int) {
    && writes >= 0
    && (writes == 0 <==> forall n | n in done :: n in wanted && n in listed && UpToDate(o, listed[n]))
    && (writes == 0 ==> now == listed)
  }

  /** The body of the loop for a name that is not desired. */
  method DeleteUndesired(s: Store, name: Name, o: Owner, listed: Bindings, wanted: Bindings,
                         ghost done: set<Name>, ghost gone: set<Name>, ghost clean: bool, ghost start: int)
    returns (ok: bool, ghost goneNow: set<Name>)
    requires s.Valid() && name in listed && name !in done && name !in wanted
    requires Pruned(o, listed, wanted, s.bindings, done, gone, clean)
    requires Quiet(o, listed, wanted, s.bindings, done, s.writes - start)
    modifies s
    ensures s.Valid() && s.faults >= old(s.faults) && (ok <==> s.faults == old(s.faults))
    ensures Pruned(o, listed, wanted, s.bindings, done + {name}, goneNow, clean && ok)
    ensures Quiet(o, listed, wanted, s.bindings, done + {name}, s.writes - start)
    ensures s.applied == old(s.applied) + |goneNow| - |gone|
  {
    ghost var now := s.bindings;
    var r := s.Delete(name);
    ok := r in {Ok, NotFound};
    goneNow := if name in s.bindings then gone else gone + {name};
    PrunedUndesired(o, listed, wanted, now, s.bindings, done, gone, clean, ok, name);
    assert name in done + {name};
  }

  /** The body of the loop for a desired name. */
  method KeepDesired(s: Store, name: Name, desired: ServiceBinding, o: Owner, listed: Bindings, wanted: Bindings,
                     ghost done: set<Name>, ghost gone: set<Name>, ghost clean: bool, ghost start: int)
    returns (ok: bool)
    requires s.Valid() && name in listed && name !in done && name in wanted && UpToDate(o, desired)
    requires Pruned(o, listed, wanted, s.bindings, done, gone, clean)
    requires Quiet(o, listed, wanted, s.bindings, done, s.writes - start)
    modifies s
    ensures s.Valid() && s.faults >= old(s.faults) && (ok <==> s.faults == old(s.faults))
    ensures Pruned(o, listed, wanted, s.bindings, done + {name}, gone, clean && ok)
    ensures Quiet(o, listed, wanted, s.bindings, done + {name}, s.writes - start)
    ensures s.applied == old(s.applied)
  {
    ghost var now := s.bindings;
    ok := UpdateDesired(s, name, listed[name], desired);
    PrunedDesired(o, listed, wanted, now, s.bindings, done, gone, clean, ok, name, desired.(claims := listed[name].claims));
    QuietDesired(o, listed, wanted, now, s.bindings, done, old(s.writes) - start, s.writes - start, name, desired);
  }

  lemma QuietDesired(o: Owner, listed: Bindings, wanted: Bindings, now: Bindings, next: Bindings,
                     done: set<Name>, before: int, after: int, name: Name, desired: ServiceBinding)
    requires Quiet(o, listed, wanted, now, done, before) && name in listed && name in wanted && UpToDate(o, desired)
    requires after == before + if listed[name] == desired.(claims := listed[name].claims) then 0 else 1
    requires after == before ==> next == now
    ensures Quiet(o, listed, wanted, next, done + {name}, after)
  {
    assert after == before <==> UpToDate(o, listed[name]);
    assert forall n :: n in done + {name} <==> n in done || n == name;
  }

  /** Labels and secret are set, claims are kept. */
  method UpdateDesired(s: Store, name: Name, existing: ServiceBinding, desired: ServiceBinding) returns (ok: bool)
    requires s.Valid() && name in s.bindings && s.bindings[name] == existing
    modifies s
    ensures s.Valid() && s.applied == old(s.applied)
    ensures s.faults >= old(s.faults) && (ok <==> s.faults == old(s.faults))
    ensures var updated := desired.(claims := existing.claims);
            && (s.bindings == old(s.bindings) || s.bindings == old(s.bindings)[name := updated])
            && (ok ==> s.bindings[name] == updated)
            && s.writes == old(s.writes) + (if existing == updated then 0 else 1)
            && (existing == updated ==> s.bindings == old(s.bindings))
  {
    ok := true;
    var updated := ServiceBinding(desired.labels, desired.secretRef, existing.claims);
    if existing.secretRef != updated.secretRef || existing.claims != updated.claims || existing.labels != updated.labels {
      var r := s.Update(name, updated);
      ok := r == Ok;
    }
  }

  /** The loop over the listed bindings: undesired ones are deleted, stale ones updated, and what
      is left of the desired map is what does not exist yet. */
  method Prune(s: Store, o: Owner, listed: Bindings, wanted: Bindings)
    returns (missing: Bindings, err: bool, ghost gone: set<Name>)
    requires s.Valid() && listed == s.bindings && forall n <- wanted :: UpToDate(o, wanted[n])
    modifies s
    ensures s.Valid() && s.faults >= old(s.faults)
    ensures forall n :: n in missing <==> n in wanted && n !in listed
    ensures forall n | n in missing :: missing[n] == wanted[n]
    ensures Pruned(o, listed, wanted, s.bindings, listed.Keys, gone, !err)
    ensures s.applied == old(s.applied) + |gone|
    ensures err <==> s.faults > old(s.faults)
    ensures s.writes >= old(s.writes)
    ensures s.writes == old(s.writes) <==> forall n | n in listed :: n in wanted && UpToDate(o, listed[n])
    ensures s.writes == old(s.writes) ==> s.bindings == listed
  {
    missing, err, gone := wanted, false, {};
    var todo := listed.Keys;
    ghost var done := {};
    while todo != {}
      invariant s.Valid() && s.faults >= old(s.faults)
      invariant forall n :: n in todo <==> n in listed && n !in done
      invariant forall n :: n in missing <==> n in wanted && n !in done
      invariant forall n | n in missing :: missing[n] == wanted[n]
      invariant Pruned(o, listed, wanted, s.bindings, done, gone, !err)
      invariant s.applied == old(s.applied) + |gone|
      invariant err <==> s.faults > old(s.faults)
      invariant Quiet(o, listed, wanted, s.bindings, done, s.writes - old(s.writes))
      decreases |todo|
    {
      var name :| name in todo;
      var ok;
      if name !in missing {
        ok, gone := DeleteUndesired(s, name, o, listed, wanted, done, gone, !err, old(s.writes));
      } else {
        var desiredBinding := missing[name];
        missing := missing - {name};
        ok := KeepDesired(s, name, desiredBinding, o, listed, wanted, done, gone, !err, old(s.writes));
      }
      err := err || !ok;
      todo, done := todo - {name}, done + {name};
    }
    assert forall n :: n in done <==> n in listed;
    assert done == listed.Keys;
  }

  /** The loop over the desired bindings that do not exist; a name that is taken is passed over. */
  method CreateMissing(s: Store, missing: Bindings) returns (err: bool, ghost made: set<Name>)
    requires s.Valid() && forall n | n in missing :: n !in s.bindings
    modifies s
    ensures s.Valid() && s.faults >= old(s.faults)
    ensures Added(old(s.bindings), s.bindings, missing, made, s.foreign, !err)
    ensures s.applied == old(s.applied) + |made|
    ensures err <==> s.faults > old(s.faults)
    ensures s.writes >= old(s.writes) && (s.writes == old(s.writes) <==> missing == map[])
  {
    err, made := false, {};
    var todo := missing.Keys;
    while todo != {}
      invariant s.Valid() && s.faults >= old(s.faults)
      invariant forall n | n in todo :: n in missing && n !in made
      invariant forall n | n in made :: n in missing && n !in s.foreign
      invariant forall n :: n in s.bindings <==> n in old(s.bindings) || n in made
      invariant forall n | n in s.bindings :: s.bindings[n] == if n in old(s.bindings) then old(s.bindings)[n] else missing[n]
      invariant s.applied == old(s.applied) + |made|
      invariant err <==> s.faults > old(s.faults)
      invariant !err ==> forall n | n in missing && n !in s.foreign && n !in todo :: n in made
      invariant s.writes >= old(s.writes) && (s.writes == old(s.writes) <==> todo == missing.Keys)
      decreases |todo|
    {
      var name :| name in todo;
      todo := todo - {name};
      var r := s.Create(name, missing[name]);
      if r !in {Ok, AlreadyExists} { err := true; }
      if name in s.bindings { made := made + {name}; }
    }
  }

  lemma GapShrinks(labelled: set<Name>, desired: set<Name>, now: set<Name>, gone: set<Name>, made: set<Name>)
    requires gone <= labelled && gone !! desired && made <= desired && made !! labelled
    requires forall n :: n in now <==> (n in labelled && n !in gone) || n in made
    ensures Gap(now, desired) <= Gap(labelled, desired)
    ensures |Gap(now, desired)| + |gone| + |made| == |Gap(labelled, desired)|
  {
    var g, g0 := Gap(now, desired), Gap(labelled, desired);
    assert g0 == g + gone + made;
    assert |g0| == |g + gone| + |made|;
  }

  /** The gap is closed and every binding is as desired. */
  predicate Settled(o: Owner, wanted: set<Name>, bindings: Bindings) {
    && (forall n | n in wanted :: n in bindings)
    && (forall n | n in bindings :: n in wanted && UpToDate(o, bindings[n]))
  }

  /** What creating adds to the bindings that are there. */
  ghost predicate Added(before: Bindings, now: Bindings, missing: Bindings, made: set<Name>, foreign: set<Name>, clean: bool) {
    && (forall n | n in made :: n in missing && n !in foreign)
    && (forall n :: n in now <==> n in before || n in made)
    && (forall n | n in now :: now[n] == if n in before then before[n] else missing[n])
    && (clean ==> forall n | n in missing && n !in foreign :: n in made)
  }

  /** What a pass that lists the bindings and knows the wanted ones ends with. */
  ghost predicate Converged(o: Owner, listed: Bindings, wanted: Bindings, now: Bindings, foreign: set<Name>, clean: bool) {
    && (forall n | n in now :: now[n].claims == if n in listed then listed[n].claims else NO_CLAIMS)
    && (clean ==> forall n :: n in now <==> n in wanted && n !in foreign)
    && (clean ==> forall n | n in now :: UpToDate(o, now[n]))
  }

  lemma PruneThenAdd(o: Owner, listed: Bindings, wanted: Bindings, mid: Bindings, now: Bindings, missing: Bindings,
                     gone: set<Name>, made: set<Name>, foreign: set<Name>, clean1: bool, clean2: bool)
    requires forall n | n in wanted :: wanted[n] == NewServiceBinding(o)
    requires forall n | n in listed :: n !in foreign
    requires forall n :: n in missing <==> n in wanted && n !in listed
    requires forall n | n in missing :: missing[n] == wanted[n]
    requires Pruned(o, listed, wanted, mid, listed.Keys, gone, clean1)
    requires Added(mid, now, missing, made, foreign, clean2)
    ensures Converged(o, listed, wanted, now, foreign, clean1 && clean2)
    ensures missing == map[] ==> now == mid
  {
    if missing == map[] {
      assert now == mid;
    }
  }

  lemma GapAfter(listed: Bindings, wanted: Bindings, now: Bindings, missing: Bindings, gone: set<Name>, made: set<Name>)
    requires forall n | n in gone :: n in listed && n !in wanted
    requires forall n | n in made :: n in wanted && n !in listed
    requires forall n :: n in now <==> (n in listed && n !in gone) || n in made
    ensures Gap(now.Keys, wanted.Keys) <= Gap(listed.Keys, wanted.Keys)
    ensures |Gap(now.Keys, wanted.Keys)| + |gone| + |made| == |Gap(listed.Keys, wanted.Keys)|
  {
    GapShrinks(listed.Keys, wanted.Keys, now.Keys, gone, made);
  }

  /** The two loops. */
  method Converge(s: Store, o: Owner, listed: Bindings, wanted: Bindings) returns (err: bool)
    requires s.Valid() && listed == s.bindings && forall n | n in wanted :: wanted[n] == NewServiceBinding(o)
    modifies s
    ensures s.Valid() && s.applied >= old(s.applied) && s.faults >= old(s.faults)
    ensures Converged(o, listed, wanted, s.bindings, s.foreign, !err)
    ensures Gap(s.bindings.Keys, wanted.Keys) <= Gap(listed.Keys, wanted.Keys)
    ensures |Gap(s.bindings.Keys, wanted.Keys)| + (s.applied - old(s.applied)) == |Gap(listed.Keys, wanted.Keys)|
    ensures err <==> s.faults > old(s.faults)
    ensures s.writes >= old(s.writes) && (s.writes == old(s.writes) <==> Settled(o, wanted.Keys, listed))
    ensures s.writes == old(s.writes) ==> s.bindings == listed
  {
    var missing, err1, gone := Prune(s, o, listed, wanted);
    ghost var mid := s.bindings;
    NothingMissing(o, listed, wanted, missing);
    var err2, made := CreateMissing(s, missing);
    err := err1 || err2;
    PruneThenAdd(o, listed, wanted, mid, s.bindings, missing, gone, made, s.foreign, !err1, !err2);
    GapAfter(listed, wanted, s.bindings, missing, gone, made);
  }

  lemma NothingMissing(o: Owner, listed: Bindings, wanted: Bindings, missing: Bindings)
    requires forall n :: n in missing <==> n in wanted && n !in listed
    ensures Settled(o, wanted.Keys, listed) <==> missing == map[] && forall n | n in listed :: n in wanted && UpToDate(o, listed[n])
  {
    if forall n | n in wanted :: n in listed {
      assert missing.Keys == {};
    }
  }

  /** Every wanted name that no unlabelled object has is there, with the labels and the secret of the
      owner and the claims it had, and nothing else is. */
  ghost predicate AsWanted(c: Catalogue, o: Owner, before: Bindings, now: Bindings, foreign: set<Name>) {
    && (forall n :: n in now <==> Wanted(c, o.apiExports, n) && n !in foreign)
    && (forall n | n in now :: now[n] == ServiceBinding(o.labels, o.secretRef, if n in before then before[n].claims else NO_CLAIMS))
  }

  /** ensureServiceBindings, for the names the resolved templates ask for.
      - An unresolved template means no call at all.
      - Under any failures the gap between labelled and desired names never grows and shrinks by
        one for every create or delete that takes effect; permission claims are never altered.
      - The pass reports an error exactly when one of its calls failed. Without one it ends with
        every desired name but those taken by an unlabelled object, so it closes the gap if and
        only if no desired name is taken.
      - Once the gap is closed and everything is up to date, and only then, a pass writes nothing. */
  method EnsureServiceBindings(s: Store, c: Catalogue, o: Owner) returns (err: bool)
    requires s.Valid()
    modifies s
    ensures s.Valid()
    ensures !NoneMissing(c, o.apiExports) ==> err && s.calls == old(s.calls) && s.bindings == old(s.bindings) && s.applied == old(s.applied)
    ensures var wanted := Desired(c, o.apiExports).Keys;
            && Gap(s.bindings.Keys, wanted) <= Gap(old(s.bindings).Keys, wanted)
            && s.applied >= old(s.applied)
            && |Gap(s.bindings.Keys, wanted)| + (s.applied - old(s.applied)) == |Gap(old(s.bindings).Keys, wanted)|
    ensures forall n | n in s.bindings ::
              s.bindings[n].claims == (if n in old(s.bindings) then old(s.bindings)[n].claims else NO_CLAIMS)
    ensures NoneMissing(c, o.apiExports) ==> (err <==> s.faults > old(s.faults))
    ensures !err ==> forall n :: n in s.bindings <==> n in Desired(c, o.apiExports) && n !in s.foreign
    ensures !err ==> AsWanted(c, o, old(s.bindings), s.bindings, s.foreign)
    ensures !err ==> (s.writes == old(s.writes) <==> Settled(o, Desired(c, o.apiExports).Keys, old(s.bindings)))
    ensures s.writes == old(s.writes) ==> s.bindings == old(s.bindings)
  {
    var built := BuildDesired(c, o);
    if built == None {
      return true;
    }
    var wanted := built.value;
    var existingList := s.List();
    if existingList == None {
      return true;
    }
    assert wanted.Keys == Desired(c, o.apiExports).Keys;
    err := Converge(s, o, existingList.value, wanted);
    if !err { BindingsAsWanted(c, o, existingList.value, wanted, s.bindings, s.foreign); }
  }

  lemma BindingsAsWanted(c: Catalogue, o: Owner, listed: Bindings, wanted: Bindings, now: Bindings, foreign: set<Name>)
    requires wanted.Keys == Desired(c, o.apiExports).Keys && Converged(o, listed, wanted, now, foreign, true)
    ensures AsWanted(c, o, listed, now, foreign)
  {
    forall n ensures n in now <==> Wanted(c, o.apiExports, n) && n !in foreign {
      DesiredIffWanted(c, o.apiExports, n);
      assert n in wanted <==> n in Desired(c, o.apiExports).Keys;
    }
  }
}
