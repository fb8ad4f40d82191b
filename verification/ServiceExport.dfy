/** The hash-guarded copy of the CRD spec into an export (serviceexport_reconcile.go), committed
    through the committer while the request controller creates and anybody deletes exports. */
module ServiceExport {
  import opened JsonDoc
  import opened MergePatch
  import opened Templates
  import opened Exports
  import opened Committer
  import ExportRequest
  import JsonText

  /** The deep copy of an APIServiceExport that a pass works on. */
  class ExportObject {
    const name: Name
    const stored: Export
    var annotations: map<string, string>
    var crdSpec: Json
    var inSync: Condition

    function Value(): Export reads this {
      stored.(annotations := annotations, crdSpec := crdSpec, inSync := inSync)
    }

    constructor (name: Name, e: Export)
      ensures this.name == name && stored == e && Value() == e
    {
      this.name, stored := name, e;
      annotations, crdSpec, inSync := e.annotations, e.crdSpec, e.inSync;
    }
  }

  /** The answer of the CRD lister. */
  datatype Lookup = Found(crd: Json) | NotFound | LookupFailed

  datatype Change = Nothing | SpecAndHash | Sync

  /** What a pass is to change, given the CRD it sees. */
  function Due(cfg: Config, e: Export, seen: Lookup): Change {
    if !seen.Found? then Nothing
    else match cfg.convert(seen.crd)
      case None => Sync
      case Some(spec) => if HashAnnotation(e) != cfg.hash(spec) then SpecAndHash else Sync
  }

  /** The value that one pass gives an export. */
  function Ensured(cfg: Config, name: Name, e: Export, seen: Lookup): Export {
    match Due(cfg, e, seen)
    case Nothing => e
    case SpecAndHash =>
      var spec := cfg.convert(seen.crd).value;
      e.(crdSpec := spec, annotations := e.annotations[SOURCE_SPEC_HASH := cfg.hash(spec)])
    case Sync =>
      e.(inSync := if cfg.convert(seen.crd).Some? then Holds else Fails("CustomResourceDefinitionUpdateFailed", name))
  }

  /** What a pass over a CRD that is there leaves of an export.
      - If the CRD cannot be converted, the export is marked out of sync, and nothing else changes.
      - If its hash is not the recorded one, spec and hash are overwritten and the mark stays.
      - Otherwise the export is marked in sync, and nothing else changes. */
  predicate Follows(cfg: Config, name: Name, before: Export, crd: Json, after: Export) {
    match cfg.convert(crd)
    case None => after == before.(inSync := Fails("CustomResourceDefinitionUpdateFailed", name))
    case Some(spec) =>
      if (if SOURCE_SPEC_HASH in before.annotations then before.annotations[SOURCE_SPEC_HASH] else "") == cfg.hash(spec)
      then after == before.(inSync := Holds)
      else && after == before.(crdSpec := after.crdSpec, annotations := after.annotations)
           && after.crdSpec == spec && after.annotations == before.annotations[SOURCE_SPEC_HASH := cfg.hash(spec)]
  }

  /** Exactly when an export is marked in sync after a pass: the CRD converts, and either the hashes
      agreed or the mark was there and the spec was overwritten. */
  lemma InSyncExactly(cfg: Config, name: Name, e: Export, crd: Json)
    ensures var n := Ensured(cfg, name, e, Found(crd));
            && Follows(cfg, name, e, crd, n)
            && (n.inSync == Holds <==>
                  cfg.convert(crd).Some? && (HashAnnotation(e) == cfg.hash(cfg.convert(crd).value) || e.inSync == Holds))
            && (cfg.convert(crd) == None ==> n.inSync == Fails("CustomResourceDefinitionUpdateFailed", name)
                                             && n.crdSpec == e.crdSpec && n.annotations == e.annotations)
  {
  }

  /** ensureSchema. asked tells whether the deletion of the export was asked for. */
  method EnsureSchema(cfg: Config, e: ExportObject, seen: Lookup, deleteOk: bool)
    returns (specChanged: bool, err: bool, asked: bool)
    modifies e
    ensures e.Value() == Ensured(cfg, e.name, old(e.Value()), seen)
    ensures if seen.Found? then Follows(cfg, e.name, old(e.Value()), seen.crd, e.Value()) else e.Value() == old(e.Value())
    ensures specChanged <==> Due(cfg, old(e.Value()), seen) == SpecAndHash
    ensures err <==> seen == LookupFailed || (seen == NotFound && !deleteOk)
    ensures asked <==> seen == NotFound
  {
    specChanged, err, asked := false, seen == LookupFailed, seen == NotFound;
    if seen == LookupFailed {
      return;
    }
    if seen == NotFound {
      err := !deleteOk;
      return;
    }
    var expected := cfg.convert(seen.crd);
    if expected == None {
      e.inSync := Fails("CustomResourceDefinitionUpdateFailed", e.name);
      return;
    }
    var hash := cfg.hash(expected.value);
    if (if SOURCE_SPEC_HASH in e.annotations then e.annotations[SOURCE_SPEC_HASH] else "") != hash {
      e.crdSpec := expected.value;
      e.annotations := e.annotations[SOURCE_SPEC_HASH := hash];
      specChanged := true;
      return;
    }
    e.inSync := Holds;
  }

  /** One pass keeps the agreement of spec and hash, and changes spec and metadata or status,
      never both. */
  lemma PassKeepsAgreement(cfg: Config, name: Name, e: Export, seen: Lookup)
    requires HashAgrees(cfg, e)
    ensures var n := Ensured(cfg, name, e, seen);
            && HashAgrees(cfg, n)
            && (n.inSync == e.inSync || n == e.(inSync := n.inSync))
            && n == e.(annotations := n.annotations, crdSpec := n.crdSpec, inSync := n.inSync)
  {
  }

  /** A pass that marks the export in sync leaves a spec that equals the converted CRD it saw, if
      the hash is collision-free. */
  lemma InSyncMeansEqual(cfg: Config, name: Name, e: Export, crd: Json)
    requires CollisionFree(cfg) && HashAgrees(cfg, e) && cfg.convert(crd).Some?
    ensures Due(cfg, e, Found(crd)) == Sync <==> e.crdSpec == cfg.convert(crd).value
    ensures var n := Ensured(cfg, name, e, Found(crd));
            n.crdSpec == cfg.convert(crd).value && (e.inSync != Holds ==> (n.inSync == Holds <==> n.crdSpec == e.crdSpec))
  {
  }

  /** An export that the request controller has just created carries the spec and the hash of the CRD
      it was created from, so that the first pass over that CRD marks it in sync and changes nothing
      else. */
  lemma CreatedInStep(cfg: Config, name: Name, c: Catalogue, crds: map<Name, Json>, res: GroupResource, e: Export)
    requires ExportRequest.BuiltFor(cfg, c, crds, res, e)
    ensures var crd := crds[ExportRequest.CrdName(res)];
            && Due(cfg, e, Found(crd)) == Sync && HashAgrees(cfg, e)
            && cfg.convert(crd) == Some(e.crdSpec) && e.inSync == Unset
            && Follows(cfg, name, e, crd, e.(inSync := Holds))
  {
  }

  /** Collision-free configurations exist: the text of the document itself can be the hash. */
  lemma TextIsCollisionFree(cfg: Config)
    ensures CollisionFree(cfg.(hash := v => JsonText.Marshal(v)))
  {
    var text := cfg.(hash := v => JsonText.Marshal(v));
    forall a, b | text.hash(a) == text.hash(b) ensures a == b {
      JsonText.MarshalIsInjective(a, b);
    }
  }

  /** Exactly when the mark can be trusted for a CRD, whatever export is marked: no other spec has
      the hash of the converted one. */
  lemma MarkIsTrustedIffNoCollision(cfg: Config, spec: Json, crd: Json)
    requires cfg.convert(crd) == Some(spec)
    ensures (forall e | HashAgrees(cfg, e) && Due(cfg, e, Found(crd)) == Sync :: e.crdSpec == spec)
            <==> (forall other: Json :: cfg.hash(other) == cfg.hash(spec) ==> other == spec)
  {
    if exists other: Json :: cfg.hash(other) == cfg.hash(spec) && other != spec {
      var other: Json :| cfg.hash(other) == cfg.hash(spec) && other != spec;
      var e := Export(map[SOURCE_SPEC_HASH := cfg.hash(other)], other, "", "", Null, Unset);
      assert HashAgrees(cfg, e) && Due(cfg, e, Found(crd)) == Sync;
    }
  }

  /** Two passes over an unchanged CRD reach the state in which spec and CRD agree and the export
      is marked in sync, unless old and new spec collide; a third pass changes nothing. */
  lemma TwoPassesSync(cfg: Config, name: Name, e: Export, crd: Json)
    requires HashAgrees(cfg, e) && cfg.convert(crd).Some?
    ensures var spec := cfg.convert(crd).value;
            var once := Ensured(cfg, name, e, Found(crd));
            var twice := Ensured(cfg, name, once, Found(crd));
            && twice.inSync == Holds
            && (twice.crdSpec == spec <==> !(cfg.hash(e.crdSpec) == cfg.hash(spec) && e.crdSpec != spec))
            && (CollisionFree(cfg) ==> twice.crdSpec == spec)
            && Ensured(cfg, name, twice, Found(crd)) == twice
  {
    PassKeepsAgreement(cfg, name, e, Found(crd));
  }

  /** reconcile: a changed spec is requeued, so that the next pass deals with the status. */
  method Reconcile(cfg: Config, e: ExportObject, seen: Lookup, deleteOk: bool)
    returns (requeued: bool, err: bool, asked: bool)
    modifies e
    ensures e.Value() == Ensured(cfg, e.name, old(e.Value()), seen)
    ensures if seen.Found? then Follows(cfg, e.name, old(e.Value()), seen.crd, e.Value()) else e.Value() == old(e.Value())
    ensures requeued <==> Due(cfg, old(e.Value()), seen) == SpecAndHash
    ensures err <==> seen == LookupFailed || (seen == NotFound && !deleteOk)
    ensures asked <==> seen == NotFound
  {
    requeued, err, asked := EnsureSchema(cfg, e, seen, deleteOk);
  }

  // ---------------------------------------------------------------- through the committer

  function AnnotationsDoc(annotations: map<string, string>): Fields {
    map k | k in annotations :: Str(annotations[k])
  }

  function ConditionDoc(c: Condition): Fields {
    match c
    case Unset => map[]
    case Holds => map["status" := Str("True")]
    case Fails(reason, about) => map["status" := Str("False"), "reason" := Str(reason), "message" := Str(about.text)]
  }

  function SpecDoc(e: Export): Fields {
    map["crd" := e.crdSpec, "informerScope" := Str(e.informerScope),
        "clusterScopedIsolation" := Str(e.isolation), "permissionClaims" := e.claims]
  }

  /** An export as the committer sees it. */
  function AsResource(e: Export, uid: string, rv: string): Resource {
    Resource(uid, rv, map["annotations" := Obj(AnnotationsDoc(e.annotations))], Obj(SpecDoc(e)),
             Obj(map["providerInSync" := Obj(ConditionDoc(e.inSync))]))
  }

  ghost predicate NullFreeConversion(cfg: Config) {
    forall crd :: cfg.convert(crd).Some? ==> NullFree(cfg.convert(crd).value)
  }

  lemma {:induction false} SameAddsNone(a: Fields)
    ensures NoNewNulls(a, a)
    decreases Obj(a)
  {
    forall k | k in a && a[k].Obj? ensures NoNewNulls(a[k].fields, a[k].fields) {
      SameAddsNone(a[k].fields);
    }
  }

  lemma SpecAddsNoNull(cfg: Config, e: Export, n: Export)
    requires n == e.(annotations := n.annotations, crdSpec := n.crdSpec, inSync := n.inSync)
    requires n.crdSpec == e.crdSpec || NullFree(n.crdSpec)
    ensures NoNewNulls(SpecDoc(e), SpecDoc(n))
  {
    if e.claims.Obj? { SameAddsNone(e.claims.fields); }
    if e.crdSpec.Obj? && n.crdSpec.Obj? {
      if n.crdSpec == e.crdSpec {
        SameAddsNone(e.crdSpec.fields);
      } else {
        NullFreeAddsNone(e.crdSpec.fields, n.crdSpec.fields);
      }
    }
  }

  lemma StatusAddsNoNull(e: Export, n: Export)
    ensures forall uid, rv :: HalfWithoutNewNulls(AsResource(e, uid, rv), AsResource(n, uid, rv), Status)
  {
    var a, b := ConditionDoc(e.inSync), ConditionDoc(n.inSync);
    NullFreeAddsNone(map["providerInSync" := Obj(a)], map["providerInSync" := Obj(b)]);
  }

  lemma MetaAddsNoNull(e: Export, n: Export)
    ensures NoNewNulls(map["annotations" := Obj(AnnotationsDoc(e.annotations))],
                       map["annotations" := Obj(AnnotationsDoc(n.annotations))])
  {
    NullFreeAddsNone(map["annotations" := Obj(AnnotationsDoc(e.annotations))],
                     map["annotations" := Obj(AnnotationsDoc(n.annotations))]);
  }

  /** Whatever a pass changes brings in no new null, so that the committed half arrives whole. */
  lemma PassAddsNoNull(cfg: Config, name: Name, e: Export, seen: Lookup, uid: string, rv: string, half: Half)
    requires NullFreeConversion(cfg)
    ensures HalfWithoutNewNulls(AsResource(e, uid, rv), AsResource(Ensured(cfg, name, e, seen), uid, rv), half)
  {
    var n := Ensured(cfg, name, e, seen);
    if half == Status {
      StatusAddsNoNull(e, n);
    } else {
      MetaAddsNoNull(e, n);
      SpecAddsNoNull(cfg, e, n);
    }
  }

  /** What the server stores after an accepted commit of a pass. */
  lemma CommitStores(cfg: Config, name: Name, e: Export, seen: Lookup, uid: string, rv: string, newRv: string, half: Half)
    requires NullFreeConversion(cfg) && HashAgrees(cfg, e) && uid != "" && rv != ""
    requires var base := AsResource(e, uid, rv);
             var obj := AsResource(Ensured(cfg, name, e, seen), uid, rv);
             base != obj && half == if StatusChanged(base, obj) then Status else SpecAndMeta
    ensures var base := AsResource(e, uid, rv);
            var n := Ensured(cfg, name, e, seen);
            var obj := AsResource(n, uid, rv);
            Patched(base, PatchFor(base, obj, half), half, newRv) == Some(AsResource(n, uid, newRv))
  {
    var n := Ensured(cfg, name, e, seen);
    PassAddsNoNull(cfg, name, e, seen, uid, rv, half);
    PassKeepsAgreement(cfg, name, e, seen);
    CommitRoundTrip(AsResource(e, uid, rv), AsResource(n, uid, rv), half, newRv);
  }

  /** A version of the export, as a watch delivers it. */
  datatype Version = Version(value: Export, resourceVersion: string)

  predicate Stores(r: Resource, uid: string, v: Version) {
    r == AsResource(v.value, uid, v.resourceVersion)
  }

  /** The served versions are the history that the API server kept. */
  ghost predicate Mirrors(history: seq<Resource>, uid: string, versions: seq<Version>) {
    && |history| == |versions| > 0
    && forall i | 0 <= i < |versions| :: Stores(history[i], uid, versions[i])
  }

  ghost predicate AllAgree(cfg: Config, versions: seq<Version>) {
    forall i | 0 <= i < |versions| :: HashAgrees(cfg, versions[i].value)
  }

  /** The encoding loses nothing that a pass can change. */
  lemma SameResource(a: Export, b: Export, uid: string, rv: string)
    requires AsResource(a, uid, rv) == AsResource(b, uid, rv)
    requires b == a.(annotations := b.annotations, crdSpec := b.crdSpec, inSync := b.inSync)
    ensures a == b
  {
    var x, y := AsResource(a, uid, rv), AsResource(b, uid, rv);
    assert x.spec.fields["crd"] == y.spec.fields["crd"];
    assert AnnotationsDoc(a.annotations) == AnnotationsDoc(b.annotations) by {
      assert x.meta["annotations"] == y.meta["annotations"];
    }
    forall k ensures k in a.annotations <==> k in b.annotations
             ensures k in a.annotations ==> a.annotations[k] == b.annotations[k]
    {
      assert k in AnnotationsDoc(a.annotations) <==> k in AnnotationsDoc(b.annotations);
      assert k in a.annotations ==> AnnotationsDoc(a.annotations)[k] == AnnotationsDoc(b.annotations)[k];
    }
    assert ConditionDoc(a.inSync) == ConditionDoc(b.inSync) by {
      assert x.status.fields["providerInSync"] == y.status.fields["providerInSync"];
    }
    SameCondition(a.inSync, b.inSync);
  }

  lemma SameCondition(a: Condition, b: Condition)
    requires ConditionDoc(a) == ConditionDoc(b)
    ensures a == b
  {
    var x, y := ConditionDoc(a), ConditionDoc(b);
    assert "status" in x ==> x["status"] == y["status"];
    assert "reason" in x ==> x["reason"] == y["reason"] && x["message"] == y["message"];
    assert Str("True") != Str("False");
  }

  /** An accepted commit appends the version that the pass made, and it was made from the last one. */
  lemma CommitMirrored(cfg: Config, name: Name, versions: seq<Version>, at: nat, seen: Lookup, uid: string,
                       history: seq<Resource>, log: seq<Write>, half: Half)
    requires NullFreeConversion(cfg) && AllAgree(cfg, versions) && at < |versions|
    requires Chain(history, log) && |history| > 1 && history[0].uid == uid
    requires Mirrors(history[..|history| - 1], uid, versions)
    requires var v := versions[at];
             var base := AsResource(v.value, uid, v.resourceVersion);
             var obj := AsResource(Ensured(cfg, name, v.value, seen), uid, v.resourceVersion);
             && base != obj && half == (if StatusChanged(base, obj) then Status else SpecAndMeta)
             && log[|log| - 1] == Write(base, obj, half)
    ensures at == |versions| - 1
    ensures var n := Ensured(cfg, name, versions[at].value, seen);
            var next := Version(n, history[|history| - 1].resourceVersion);
            && Mirrors(history, uid, versions + [next]) && HashAgrees(cfg, n)
            && next.resourceVersion != versions[at].resourceVersion
  {
    var last := |history| - 1;
    var v := versions[at];
    assert Stores(history[..last][at], uid, v);
    WrittenLast(history, log, at);
    CommitStores(cfg, name, v.value, seen, uid, v.resourceVersion, history[last].resourceVersion, half);
    PassKeepsAgreement(cfg, name, v.value, seen);
    MirrorsExtend(history, uid, versions, Version(Ensured(cfg, name, v.value, seen), history[last].resourceVersion));
  }

  /** The last write was computed from the last version before it. */
  lemma WrittenLast(history: seq<Resource>, log: seq<Write>, at: nat)
    requires Chain(history, log) && |history| > 1 && at < |history| - 1
    requires log[|log| - 1].base == history[..|history| - 1][at]
    ensures at == |history| - 2 && Accepted(history[at], log[|log| - 1], history[at + 1])
    ensures history[at].resourceVersion != history[at + 1].resourceVersion
  {
    var i := |log| - 1;
    assert Accepted(history[i], log[i], history[i + 1]);
    assert history[..|history| - 1][at] == history[at];
    assert history[at].resourceVersion == history[i].resourceVersion;
  }

  lemma MirrorsExtend(history: seq<Resource>, uid: string, versions: seq<Version>, next: Version)
    requires |history| > 1 && Mirrors(history[..|history| - 1], uid, versions) && Stores(history[|history| - 1], uid, next)
    ensures Mirrors(history, uid, versions + [next])
  {
    var v := versions + [next];
    forall i | 0 <= i < |v| ensures Stores(history[i], uid, v[i]) {
      if i < |versions| {
        assert Stores(history[..|history| - 1][i], uid, versions[i]);
      }
    }
  }

  /** What a pass hands to the committer: never both halves changed. */
  lemma PassResources(cfg: Config, name: Name, v: Version, seen: Lookup, uid: string)
    requires HashAgrees(cfg, v.value)
    ensures var n := Ensured(cfg, name, v.value, seen);
            var base := AsResource(v.value, uid, v.resourceVersion);
            var obj := AsResource(n, uid, v.resourceVersion);
            && obj.WellFormed() && (base == obj <==> v.value == n)
            && !(SpecOrMetaChanged(base, obj) && StatusChanged(base, obj))
  {
    var n := Ensured(cfg, name, v.value, seen);
    PassKeepsAgreement(cfg, name, v.value, seen);
    if AsResource(v.value, uid, v.resourceVersion) == AsResource(n, uid, v.resourceVersion) {
      SameResource(v.value, n, uid, v.resourceVersion);
    }
  }

  /** A commit of a copy with at most one changed half; accepted tells whether the server took it. */
  method Send(s: ApiServer, base: Resource, obj: Resource, net: Network) returns (outcome: Outcome, accepted: bool)
    requires s.Valid() && base in s.history && obj.WellFormed()
    requires !(SpecOrMetaChanged(base, obj) && StatusChanged(base, obj))
    modifies s
    ensures s.Valid() && outcome != Panicked && s.stored.uid == old(s.stored.uid)
    ensures outcome == Unchanged <==> base == obj
    ensures (outcome == Done ==> accepted) && (accepted ==> outcome == Done || outcome == Failed)
    ensures accepted ==> base != obj && base == old(s.stored) && s.history == old(s.history) + [s.stored]
    ensures accepted ==> s.log == old(s.log) + [Write(base, obj, if StatusChanged(base, obj) then Status else SpecAndMeta)]
    ensures !accepted ==> s.stored == old(s.stored) && s.history == old(s.history) && s.log == old(s.log)
    ensures base == old(s.stored) && net == Delivered ==> accepted || base == obj
  {
    var before := s.stored.resourceVersion;
    ghost var h := s.history;
    outcome := Commit(s, base, obj, net);
    accepted := s.stored.resourceVersion != before;
    if |s.history| > |h| {
      assert s.history[|h| - 1] == h[|h| - 1];
      assert s.history[|h| - 1].resourceVersion != s.history[|h|].resourceVersion;
    }
  }

  /** The commit of what a pass made of the cached version; accepted tells whether it became the
      next version, which happens to the last version only. */
  method CommitExport(s: ApiServer, cfg: Config, name: Name, versions: seq<Version>, at: nat, value: Export,
                      ghost seen: Lookup, net: Network) returns (outcome: Outcome, accepted: bool)
    requires NullFreeConversion(cfg) && AllAgree(cfg, versions)
    requires s.Valid() && Mirrors(s.history, s.stored.uid, versions)
    requires at < |versions| && value == Ensured(cfg, name, versions[at].value, seen)
    modifies s
    ensures s.Valid() && outcome != Panicked && HashAgrees(cfg, value)
    ensures accepted ==> at == |versions| - 1 && (outcome == Done || outcome == Failed)
    ensures Mirrors(s.history, s.stored.uid, versions + if accepted then [Version(value, s.stored.resourceVersion)] else [])
    ensures at == |versions| - 1 && net == Delivered ==> accepted || outcome == Unchanged
    ensures outcome == Unchanged <==> value == versions[at].value
  {
    var cached := versions[at];
    var base := AsResource(cached.value, s.stored.uid, cached.resourceVersion);
    var obj := AsResource(value, s.stored.uid, cached.resourceVersion);
    PassResources(cfg, name, cached, seen, s.stored.uid);
    PassKeepsAgreement(cfg, name, cached.value, seen);
    assert Stores(s.history[at], s.stored.uid, cached);
    ghost var before := s.history;
    outcome, accepted := Send(s, base, obj, net);
    if accepted {
      assert s.history[..|s.history| - 1] == before;
      CommitMirrored(cfg, name, versions, at, seen, s.stored.uid, s.history, s.log,
                     if StatusChanged(base, obj) then Status else SpecAndMeta);
    } else {
      assert versions + [] == versions;
    }
  }

  /** What a pass over one of the versions makes of them: none or one is appended, to the last one
      only, with the value that follows from the CRD that was seen; a commit that arrives for the last
      version leaves this value. */
  ghost predicate Stepped(cfg: Config, name: Name, before: seq<Version>, at: nat, seen: Lookup, net: Network, after: seq<Version>)
    requires at < |before|
  {
    var value := Ensured(cfg, name, before[at].value, seen);
    && (seen.Found? ==> Follows(cfg, name, before[at].value, seen.crd, value))
    && (after == before
        || (at == |before| - 1 && |after| == at + 2 && after[..at + 1] == before && after[at + 1].value == value))
    && (at == |before| - 1 && net == Delivered ==> after != [] && after[|after| - 1].value == value)
  }

  lemma EnsuredFollows(cfg: Config, name: Name, e: Export, seen: Lookup)
    ensures seen.Found? ==> Follows(cfg, name, e, seen.crd, Ensured(cfg, name, e, seen))
  {
    if seen.Found? { InSyncExactly(cfg, name, e, seen.crd); }
  }

  /** One export name on the provider cluster. A cache may hold any version of the export. */
  class World {
    const cfg: Config
    const name: Name
    var server: ApiServer?
    var versions: seq<Version>

    /** In every version that was ever served, the hash annotation is the hash of the spec. */
    ghost predicate Valid() reads this, server {
      && NullFreeConversion(cfg)
      && (server == null <==> versions == [])
      && (server != null ==> server.Valid() && Mirrors(server.history, server.stored.uid, versions))
      && AllAgree(cfg, versions)
    }

    constructor (cfg: Config, name: Name)
      requires NullFreeConversion(cfg)
      ensures Valid() && this.cfg == cfg && this.name == name && versions == []
    {
      this.cfg, this.name, server, versions := cfg, name, null, [];
    }

    /** The request controller creates the export from the CRD it sees. */
    method Create(spec: Json, t: Template, uid: string)
      requires Valid() && versions == [] && uid != ""
      modifies this
      ensures Valid() && fresh(server) && |versions| == 1 && versions[0].value == ExportRequest.NewExport(cfg, spec, t)
    {
      var e := ExportRequest.NewExport(cfg, spec, t);
      var r := AsResource(e, uid, "1");
      server := new ApiServer(uid, r.meta, r.spec, r.status);
      versions := [Version(e, server.stored.resourceVersion)];
    }

    method Delete()
      requires Valid()
      modifies this
      ensures Valid() && versions == []
    {
      server, versions := null, [];
    }

    /** The commit of what a pass made of the cached version. */
    method Store(at: nat, value: Export, ghost seen: Lookup, net: Network) returns (outcome: Outcome)
      requires Valid() && at < |versions| && value == Ensured(cfg, name, versions[at].value, seen)
      modifies this`versions, server
      ensures Valid() && outcome != Panicked
      ensures versions == old(versions)
              || (at == |old(versions)| - 1 && |versions| == at + 2 && versions[..at + 1] == old(versions) && versions[at + 1].value == value)
      ensures at == |old(versions)| - 1 && net == Delivered ==> versions[|versions| - 1].value == value
      ensures outcome == Unchanged <==> value == old(versions)[at].value
    {
      var accepted;
      outcome, accepted := CommitExport(server, cfg, name, versions, at, value, seen, net);
      if accepted {
        versions := versions + [Version(value, server.stored.resourceVersion)];
      } else {
        assert versions + [] == versions;
      }
    }

    /** process: one pass over the cached version, and the commit of what it changed. */
    method Pass(at: nat, seen: Lookup, deleteOk: bool, net: Network) returns (outcome: Outcome, err: bool)
      requires Valid() && at < |versions|
      modifies this, server
      ensures Valid() && outcome != Panicked
      ensures server == if seen == NotFound && deleteOk then null else old(server)
      ensures server != null ==> Stepped(cfg, name, old(versions), at, seen, net, versions)
      ensures server != null ==> (outcome == Unchanged <==> Ensured(cfg, name, old(versions)[at].value, seen) == old(versions)[at].value)
      ensures err <==> seen == LookupFailed || (seen == NotFound && !deleteOk) || outcome == Refused || outcome == Failed
    {
      var cached := versions[at];
      var obj := new ExportObject(name, cached.value);
      EnsuredFollows(cfg, name, cached.value, seen);
      var requeued, asked;
      requeued, err, asked := Reconcile(cfg, obj, seen, deleteOk);
      outcome := Store(at, obj.Value(), seen, net);
      if outcome == Refused || outcome == Failed {
        err := true;
      }
      if asked && deleteOk {
        server, versions := null, [];
      }
    }
  }

  /** Two passes that see the last version and an unchanged convertible CRD, and whose commits
      arrive, leave an export that agrees with the CRD and says so, unless the old and the new
      spec collide under the hash; a third pass sends nothing. */
  method Settle(w: World, crd: Json) returns (third: Outcome)
    requires w.Valid() && w.versions != [] && w.cfg.convert(crd).Some?
    modifies w, w.server
    ensures w.Valid() && w.versions != []
    ensures var before, now := old(w.versions[|w.versions| - 1].value), w.versions[|w.versions| - 1].value;
            var spec := w.cfg.convert(crd).value;
            && now.inSync == Holds
            && (now.crdSpec == spec <==> !(w.cfg.hash(before.crdSpec) == w.cfg.hash(spec) && before.crdSpec != spec))
    ensures third == Unchanged
  {
    TwoPassesSync(w.cfg, w.name, w.versions[|w.versions| - 1].value, crd);
    var outcome, err := w.Pass(|w.versions| - 1, Found(crd), true, Delivered);
    outcome, err := w.Pass(|w.versions| - 1, Found(crd), true, Delivered);
    third, err := w.Pass(|w.versions| - 1, Found(crd), true, Delivered);
  }

  /** Passes may see any version that was served and any CRD, current or not. */
  datatype Event = PassOver(at: nat, seen: Lookup, deleteOk: bool, net: Network) | Requested(spec: Json, t: Template, uid: string) | Gone

  /** A step of a run, seen from the versions before and after. A version is appended to the last
      one only, with the value that the pass makes of it; a pass over the last version whose commit
      arrives leaves that value, out of sync if the CRD does not convert, and one that sees no CRD
      deletes the export. */
  ghost predicate Legal(cfg: Config, name: Name, before: seq<Version>, e: Event, after: seq<Version>) {
    match e
    case PassOver(at, seen, deleteOk, net) =>
      if at >= |before| then after == before
      else if seen == NotFound && deleteOk then after == []
      else
        Stepped(cfg, name, before, at, seen, net, after)
    case Requested(spec, t, uid) =>
      if before == [] && uid != "" then |after| == 1 && after[0].value == ExportRequest.NewExport(cfg, spec, t) else after == before
    case Gone => after == []
  }

  method Happen(w: World, e: Event) returns (outcome: Option<Outcome>)
    requires w.Valid()
    modifies w, w.server
    ensures w.Valid() && outcome != Some(Panicked)
    ensures w.server == old(w.server) || w.server == null || fresh(w.server)
    ensures Legal(w.cfg, w.name, old(w.versions), e, w.versions)
    ensures outcome.Some? <==> e.PassOver? && e.at < |old(w.versions)|
  {
    outcome := None;
    match e {
      case PassOver(at, seen, deleteOk, net) =>
        if at < |w.versions| {
          var o, err := w.Pass(at, seen, deleteOk, net);
          outcome := Some(o);
        }
      case Requested(spec, t, uid) =>
        if w.versions == [] && uid != "" {
          w.Create(spec, t, uid);
        }
      case Gone => w.Delete();
    }
  }

  /** Any run of both controllers and of anybody who deletes exports takes legal steps: the hash
      annotation always speaks of the stored spec, and no commit panics. trace holds the versions
      before and after every event. */
  method Run(w: World, events: seq<Event>) returns (outcomes: seq<Option<Outcome>>, ghost trace: seq<seq<Version>>)
    requires w.Valid()
    modifies w, w.server
    ensures w.Valid()
    ensures |outcomes| == |events| && |trace| == |events| + 1 && trace[0] == old(w.versions) && trace[|events|] == w.versions
    ensures forall i | 0 <= i < |events| :: Legal(w.cfg, w.name, trace[i], events[i], trace[i + 1])
    ensures forall i | 0 <= i < |trace| :: AllAgree(w.cfg, trace[i])
    ensures Some(Panicked) !in outcomes
  {
    outcomes, trace := [], [w.versions];
    for k := 0 to |events|
      invariant w.Valid() && Some(Panicked) !in outcomes
      invariant w.server == old(w.server) || w.server == null || fresh(w.server)
      invariant |outcomes| == k && |trace| == k + 1 && trace[0] == old(w.versions) && trace[k] == w.versions
      invariant forall i | 0 <= i < k :: Legal(w.cfg, w.name, trace[i], events[i], trace[i + 1])
      invariant forall i | 0 <= i < |trace| :: AllAgree(w.cfg, trace[i])
    {
      var outcome := Happen(w, events[k]);
      outcomes, trace := outcomes + [outcome], trace + [w.versions];
    }
  }
}
