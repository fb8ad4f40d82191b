/** The export-request phase machine
    (serviceexportrequest_reconcile.go, reconcile and ensureExports). */
module ExportRequest {
  import opened JsonDoc
  import opened Templates
  import opened Exports
  import Committer
  import MergePatch

  datatype Phase = Pending | Succeeded | Failed | Unknown

  /** The name under which the request controller looks up and creates an export. */
  function CrdName(res: GroupResource): Name {
    Name(res.resource + "." + res.group)
  }

  /** What happens to an export in the namespace, in order. */
  datatype Event = Created(name: Name) | Deleted(name: Name)

  function Live(log: seq<Event>): set<Name> {
    if log == [] then {}
    else
      var before := Live(log[..|log| - 1]);
      match log[|log| - 1]
      case Created(n) => before + {n}
      case Deleted(n) => before - {n}
  }

  /** No export is created while it exists. */
  ghost predicate NeverTwice(log: seq<Event>) {
    forall i | 0 <= i < |log| && log[i].Created? :: log[i].name !in Live(log[..i])
  }

  lemma LogOneMore(log: seq<Event>, e: Event)
    requires NeverTwice(log) && (e.Created? ==> e.name !in Live(log))
    ensures NeverTwice(log + [e])
    ensures Live(log + [e]) == if e.Created? then Live(log) + {e.name} else Live(log) - {e.name}
  {
    var l := log + [e];
    assert l[..|l| - 1] == log;
    forall i | 0 <= i < |l| && l[i].Created? ensures l[i].name !in Live(l[..i]) {
      if i < |log| { assert l[..i] == log[..i]; } else { assert l[..i] == log; }
    }
  }

  /** The provider cluster as one request sees it: CRDs, and the exports of its namespace. Each
      call may fail; a create may fail and yet take effect. */
  class Provider {
    const cfg: Config
    const catalogue: Catalogue
    const fates: nat -> (bool, bool)
    var crds: map<Name, Json>
    var exports: map<Name, Export>
    var calls: nat
    var faults: nat
    ghost var log: seq<Event>

    ghost predicate Valid() reads this {
      && NeverTwice(log)
      && (forall n :: n in exports <==> n in Live(log))
      && (forall n | n in exports :: HashAgrees(cfg, exports[n]))
      && Counted()
    }

    /** Every call arrives and is answered. */
    ghost predicate Reliable() {
      forall i: nat :: fates(i).0
    }

    ghost predicate Counted() reads this`faults {
      Reliable() ==> faults == 0
    }

    constructor (cfg: Config, catalogue: Catalogue, fates: nat -> (bool, bool), crds: map<Name, Json>)
      ensures Valid() && this.cfg == cfg && this.catalogue == catalogue && this.fates == fates
      ensures this.crds == crds && exports == map[] && faults == calls == 0 && log == []
    {
      this.cfg, this.catalogue, this.fates, this.crds := cfg, catalogue, fates, crds;
      exports, calls, faults, log := map[], 0, 0, [];
    }

    /** Draws the fate of a call: whether it succeeds, and whether a failed one took effect. */
    method Draw() returns (ok: bool, applied: bool)
      requires Counted()
      modifies this`calls, this`faults
      ensures Counted() && faults == old(faults) + (if ok then 0 else 1) && (ok ==> applied)
    {
      var fate := fates(calls);
      ok, applied := fate.0, fate.0 || fate.1;
      calls := calls + 1;
      if !ok { faults := faults + 1; }
    }

    method Add(name: Name, e: Export)
      requires Valid() && name !in exports && HashAgrees(cfg, e)
      modifies this`exports, this`log
      ensures Valid() && exports == old(exports)[name := e] && log == old(log) + [Created(name)]
    {
      LogOneMore(log, Created(name));
      exports, log := exports[name := e], log + [Created(name)];
    }

    /** createServiceExport. The caller has just seen that the export does not exist. */
    method Create(name: Name, e: Export) returns (ok: bool)
      requires Valid() && name !in exports && HashAgrees(cfg, e)
      modifies this`exports, this`calls, this`faults, this`log
      ensures Valid() && faults == old(faults) + if ok then 0 else 1
      ensures exports == old(exports) || exports == old(exports)[name := e]
      ensures ok ==> name in exports
      ensures log == old(log) + if name in exports then [Created(name)] else []
    {
      var applied;
      ok, applied := Draw();
      if applied {
        Add(name, e);
      } else {
        assert log + [] == log;
      }
    }

    /** Somebody deletes an export. */
    method Delete(name: Name)
      requires Valid()
      modifies this`exports, this`log
      ensures Valid() && exports == old(exports) - {name}
    {
      LogOneMore(log, Deleted(name));
      exports, log := exports - {name}, log + [Deleted(name)];
    }
  }

  /** An APIServiceExportRequest; the deep copy that a pass works on. */
  class Request {
    var resources: seq<GroupResource>
    const creation: int
    var phase: Phase
    var exportsReady: Condition
    var summary: Condition
    var terminal: Option<Condition>

    constructor (resources: seq<GroupResource>, creation: int)
      ensures this.resources == resources && this.creation == creation && phase == Pending
    {
      this.resources, this.creation := resources, creation;
      phase, exportsReady, summary, terminal := Pending, Unset, Unset, None;
    }
  }

  /** Why a resource cannot get an export: its CRD is missing, or there is no export yet and the
      CRD cannot be converted. */
  function Obstacle(cfg: Config, crds: map<Name, Json>, exports: map<Name, Export>, res: GroupResource): Option<Condition> {
    var name := CrdName(res);
    if name !in crds then Some(Fails("CRDNotFound", name))
    else if name !in exports && cfg.convert(crds[name]).None? then Some(Fails("CRDInvalid", name))
    else None
  }

  /** The export that a request creates for a CRD. */
  function NewExport(cfg: Config, spec: Json, t: Template): Export {
    Export(map[SOURCE_SPEC_HASH := cfg.hash(spec)], spec, cfg.informerScope,
           if cfg.clusterScoped(spec) then cfg.isolation else "", t.claims, Unset)
  }

  /** An export that a listed resource accounts for: it is what the request creates from the CRD. */
  ghost predicate Accounted(cfg: Config, c: Catalogue, crds: map<Name, Json>, resources: seq<GroupResource>, n: Name, e: Export) {
    exists i | 0 <= i < |resources| :: CrdName(resources[i]) == n && BuiltFor(cfg, c, crds, resources[i], e)
  }

  predicate BuiltFor(cfg: Config, c: Catalogue, crds: map<Name, Json>, res: GroupResource, e: Export) {
    var n := CrdName(res);
    && n in crds && cfg.convert(crds[n]).Some? && TemplateFor(c, res).Some?
    && e == NewExport(cfg, cfg.convert(crds[n]).value, TemplateFor(c, res).value)
  }

  /** The exports only grow, and only by what the listed resources account for. */
  ghost predicate OnlyListedAdded(cfg: Config, c: Catalogue, crds: map<Name, Json>, resources: seq<GroupResource>,
                                  before: map<Name, Export>, now: map<Name, Export>) {
    && (forall n | n in before :: n in now && now[n] == before[n])
    && (forall n | n in now && n !in before :: Accounted(cfg, c, crds, resources, n, now[n]))
  }

  /** One listed resource adds at most the export that its CRD gives, under its name. */
  ghost predicate AddsAtMost(cfg: Config, c: Catalogue, crds: map<Name, Json>, res: GroupResource,
                             before: map<Name, Export>, now: map<Name, Export>) {
    || now == before
    || (&& CrdName(res) !in before && CrdName(res) in now
        && now == before[CrdName(res) := now[CrdName(res)]]
        && BuiltFor(cfg, c, crds, res, now[CrdName(res)]))
  }

  /** Exports that the pass itself has added do not change what stands in the way. */
  lemma ObstacleStable(cfg: Config, c: Catalogue, crds: map<Name, Json>, resources: seq<GroupResource>,
                       before: map<Name, Export>, now: map<Name, Export>, res: GroupResource)
    requires OnlyListedAdded(cfg, c, crds, resources, before, now)
    ensures Obstacle(cfg, crds, now, res) == Obstacle(cfg, crds, before, res)
  {
    var n := CrdName(res);
    if n in now && n !in before {
      assert Accounted(cfg, c, crds, resources, n, now[n]);
    }
  }

  /** The export of a listed resource is a copy of its CRD, with the claims of its template. */
  ghost predicate Copied(cfg: Config, c: Catalogue, crds: map<Name, Json>, res: GroupResource, exports: map<Name, Export>) {
    var n := Name(res.resource + "." + res.group);
    && n in crds && n in exports && Some(exports[n].crdSpec) == cfg.convert(crds[n])
    && exports[n].annotations == map[SOURCE_SPEC_HASH := cfg.hash(exports[n].crdSpec)] && exports[n].inSync == Unset
    && exports[n].informerScope == cfg.informerScope
    && exports[n].isolation == (if cfg.clusterScoped(exports[n].crdSpec) then cfg.isolation else "")
    && exists t <- c.templates :: t.selector == res && exports[n].claims == t.claims
  }

  const MINUTE := 60

  datatype Verdict = Exported | Obstructed | Errored

  /** The body of the loop: one listed resource. */
  method EnsureExport(p: Provider, req: Request, res: GroupResource) returns (verdict: Verdict)
    requires p.Valid()
    modifies p`exports, p`calls, p`faults, p`log, req`exportsReady
    ensures p.Valid() && p.faults >= old(p.faults)
    ensures AddsAtMost(p.cfg, p.catalogue, p.crds, res, old(p.exports), p.exports)
    ensures verdict == Exported ==> CrdName(res) in p.exports && Obstacle(p.cfg, p.crds, old(p.exports), res) == None
    ensures verdict == Obstructed ==> Obstacle(p.cfg, p.crds, old(p.exports), res) == Some(req.exportsReady)
    ensures verdict != Obstructed ==> req.exportsReady == old(req.exportsReady)
    ensures verdict == Obstructed ==> p.exports == old(p.exports)
    ensures verdict == Errored && p.faults == old(p.faults) ==>
              (p.exports == old(p.exports) && CrdName(res) !in p.exports && TemplateFor(p.catalogue, res) == None)
    ensures p.faults == old(p.faults) ==>
              (verdict == Obstructed <==>
                 || CrdName(res) !in p.crds
                 || (CrdName(res) !in old(p.exports) && TemplateFor(p.catalogue, res).Some? && p.cfg.convert(p.crds[CrdName(res)]).None?))
    ensures verdict == Obstructed ==>
              (req.exportsReady == Fails(if CrdName(res) in p.crds then "CRDInvalid" else "CRDNotFound", CrdName(res)))
    ensures p.exports != old(p.exports) ==> Copied(p.cfg, p.catalogue, p.crds, res, p.exports)
  {
    var name := CrdName(res);
    var ok, applied := p.Draw();
    if !ok { return Errored; }
    if name !in p.crds {
      req.exportsReady := Fails("CRDNotFound", name);
      return Obstructed;
    }
    var crd := p.crds[name];

    ok, applied := p.Draw();
    if !ok { return Errored; }
    if name in p.exports {
      return Exported;
    }

    var template := TemplateFor(p.catalogue, res);
    if template == None { return Errored; }

    var exportSpec := p.cfg.convert(crd);
    if exportSpec == None {
      req.exportsReady := Fails("CRDInvalid", name);
      return Obstructed;
    }
    verdict := CreateFor(p, res, name, exportSpec.value, template.value);
  }

  /** The last step for a resource whose CRD converts and has a template. */
  method CreateFor(p: Provider, res: GroupResource, name: Name, spec: Json, template: Template) returns (verdict: Verdict)
    requires p.Valid() && name == CrdName(res) && name in p.crds && name !in p.exports
    requires p.cfg.convert(p.crds[name]) == Some(spec) && TemplateFor(p.catalogue, res) == Some(template)
    modifies p`exports, p`calls, p`faults, p`log
    ensures p.Valid() && AddsAtMost(p.cfg, p.catalogue, p.crds, res, old(p.exports), p.exports)
    ensures verdict == Exported ==> name in p.exports && p.faults == old(p.faults)
    ensures verdict != Exported ==> verdict == Errored && p.faults > old(p.faults)
    ensures p.exports != old(p.exports) ==> Copied(p.cfg, p.catalogue, p.crds, res, p.exports)
  {
    FirstMatchWins(p.catalogue, res);
    var newExport := Export(map[SOURCE_SPEC_HASH := p.cfg.hash(spec)], spec, p.cfg.informerScope, "", template.claims, Unset);
    if p.cfg.clusterScoped(spec) {
      newExport := newExport.(isolation := p.cfg.isolation);
    }
    assert newExport == NewExport(p.cfg, spec, template);
    var ok := p.Create(name, newExport);
    verdict := if ok then Exported else Errored;
  }

  /** The listed resources have exports. */
  predicate AllListed(resources: seq<GroupResource>, live: set<Name>) {
    forall j | 0 <= j < |resources| :: CrdName(resources[j]) in live
  }

  /** Nothing stands in the way of the listed resources. */
  predicate AllClear(cfg: Config, crds: map<Name, Json>, exports: map<Name, Export>, resources: seq<GroupResource>) {
    forall j | 0 <= j < |resources| :: Obstacle(cfg, crds, exports, resources[j]) == None
  }

  /** The loop has gone through the first k resources, each of which ended up with an export. */
  ghost predicate Through(cfg: Config, c: Catalogue, crds: map<Name, Json>, resources: seq<GroupResource>, k: nat,
                          before: map<Name, Export>, now: map<Name, Export>) {
    && k <= |resources|
    && OnlyListedAdded(cfg, c, crds, resources[..k], before, now)
    && AllListed(resources[..k], now.Keys) && AllClear(cfg, crds, before, resources[..k])
  }

  /** What the loop does if no call fails: it goes through the first at resources and stops at an
      obstacle or at a resource that has neither an export nor a template. */
  ghost predicate Passed(cfg: Config, c: Catalogue, crds: map<Name, Json>, resources: seq<GroupResource>,
                         before: map<Name, Export>, now: map<Name, Export>, at: nat) {
    && Through(cfg, c, crds, resources, at, before, now)
    && (at < |resources| ==>
          || Obstacle(cfg, crds, before, resources[at]) != None
          || (TemplateFor(c, resources[at]) == None && CrdName(resources[at]) !in now))
  }

  /** Where and why the loop stopped before its end; faulty tells whether a call failed. */
  ghost predicate Stopped(cfg: Config, c: Catalogue, crds: map<Name, Json>, resources: seq<GroupResource>,
                          before: map<Name, Export>, now: map<Name, Export>, at: nat,
                          verdict: Verdict, ready: Condition, faulty: bool) {
    && at < |resources|
    && OnlyListedAdded(cfg, c, crds, resources, before, now)
    && AllClear(cfg, crds, before, resources[..at])
    && (verdict == Obstructed ==> Obstacle(cfg, crds, before, resources[at]) == Some(ready))
    && (verdict == Errored ==> faulty || TemplateFor(c, resources[at]) == None)
    && (!faulty ==> Passed(cfg, c, crds, resources, before, now, at))
  }

  lemma OneMoreThrough(cfg: Config, c: Catalogue, crds: map<Name, Json>, resources: seq<GroupResource>, k: nat,
                       before: map<Name, Export>, now: map<Name, Export>, next: map<Name, Export>)
    requires k < |resources| && Through(cfg, c, crds, resources, k, before, now)
    requires AddsAtMost(cfg, c, crds, resources[k], now, next)
    ensures OnlyListedAdded(cfg, c, crds, resources[..k + 1], before, next)
    ensures CrdName(resources[k]) in next && Obstacle(cfg, crds, before, resources[k]) == None ==>
              Through(cfg, c, crds, resources, k + 1, before, next)
  {
    OneMoreAccounted(cfg, c, crds, resources, before, now, next, k);
    var longer := resources[..k + 1];
    if CrdName(resources[k]) in next && Obstacle(cfg, crds, before, resources[k]) == None {
      forall j | 0 <= j < |longer|
        ensures CrdName(longer[j]) in next && Obstacle(cfg, crds, before, longer[j]) == None
      {
        if j < k { assert longer[j] == resources[..k][j]; } else { assert longer[j] == resources[k]; }
      }
    }
  }

  /** The body of the loop, seen from before the loop. */
  method EnsureNext(p: Provider, req: Request, k: nat, ghost before: map<Name, Export>) returns (verdict: Verdict)
    requires p.Valid() && k < |req.resources|
    requires Through(p.cfg, p.catalogue, p.crds, req.resources, k, before, p.exports)
    modifies p`exports, p`calls, p`faults, p`log, req`exportsReady
    ensures p.Valid() && p.faults >= old(p.faults)
    ensures verdict == Exported ==> Through(p.cfg, p.catalogue, p.crds, req.resources, k + 1, before, p.exports)
    ensures verdict != Obstructed ==> req.exportsReady == old(req.exportsReady)
    ensures verdict != Exported ==>
              Stopped(p.cfg, p.catalogue, p.crds, req.resources, before, p.exports, k, verdict, req.exportsReady, p.faults > old(p.faults))
  {
    ghost var now := p.exports;
    ObstacleStable(p.cfg, p.catalogue, p.crds, req.resources[..k], before, now, req.resources[k]);
    verdict := EnsureExport(p, req, req.resources[k]);
    OneMoreThrough(p.cfg, p.catalogue, p.crds, req.resources, k, before, now, p.exports);
    PrefixAdded(p.cfg, p.catalogue, p.crds, req.resources, k + 1, before, p.exports);
  }

  /** The loop of ensureExports over the listed resources; at is where it stopped. */
  method CreateExports(p: Provider, req: Request) returns (verdict: Verdict, ghost at: nat)
    requires p.Valid()
    modifies p`exports, p`calls, p`faults, p`log, req`exportsReady
    ensures p.Valid() && p.faults >= old(p.faults)
    ensures verdict == Exported ==>
              at == |req.resources| && Through(p.cfg, p.catalogue, p.crds, req.resources, at, old(p.exports), p.exports)
    ensures verdict != Exported ==>
              Stopped(p.cfg, p.catalogue, p.crds, req.resources, old(p.exports), p.exports, at, verdict, req.exportsReady,
                      p.faults > old(p.faults))
    ensures verdict != Obstructed ==> req.exportsReady == old(req.exportsReady)
  {
    ghost var before := p.exports;
    at := 0;
    for k := 0 to |req.resources|
      invariant p.Valid() && p.faults >= old(p.faults)
      invariant Through(p.cfg, p.catalogue, p.crds, req.resources, k, before, p.exports)
      invariant at == k && req.exportsReady == old(req.exportsReady)
    {
      verdict := EnsureNext(p, req, k, before);
      if verdict != Exported {
        return verdict, at;
      }
      at := at + 1;
    }
    return Exported, at;
  }

  lemma PrefixAdded(cfg: Config, c: Catalogue, crds: map<Name, Json>, resources: seq<GroupResource>, k: nat,
                    before: map<Name, Export>, now: map<Name, Export>)
    requires k <= |resources| && OnlyListedAdded(cfg, c, crds, resources[..k], before, now)
    ensures OnlyListedAdded(cfg, c, crds, resources, before, now)
  {
    forall n | n in now && n !in before ensures Accounted(cfg, c, crds, resources, n, now[n]) {
      var i :| 0 <= i < k && CrdName(resources[..k][i]) == n && BuiltFor(cfg, c, crds, resources[..k][i], now[n]);
      assert resources[i] == resources[..k][i];
    }
  }

  lemma OneMoreAccounted(cfg: Config, c: Catalogue, crds: map<Name, Json>, resources: seq<GroupResource>,
                         before: map<Name, Export>, now: map<Name, Export>, next: map<Name, Export>, k: nat)
    requires k < |resources| && OnlyListedAdded(cfg, c, crds, resources[..k], before, now)
    requires AddsAtMost(cfg, c, crds, resources[k], now, next)
    ensures OnlyListedAdded(cfg, c, crds, resources[..k + 1], before, next)
  {
    var longer := resources[..k + 1];
    forall n | n in next && n !in before ensures Accounted(cfg, c, crds, longer, n, next[n]) {
      if n in now {
        var i :| 0 <= i < k && CrdName(resources[..k][i]) == n && BuiltFor(cfg, c, crds, resources[..k][i], now[n]);
        assert longer[i] == resources[..k][i] && next[n] == now[n];
      } else {
        assert longer[k] == resources[k];
      }
    }
  }

  /** ensureExports followed by the summary: one pass over a request at the given time.
      deletion tells whether the deletion of the request was asked for, gone whether that took effect. */
  method Reconcile(p: Provider, req: Request, now: int) returns (err: bool, deletion: bool, gone: bool, ghost at: nat)
    requires p.Valid()
    modifies p`exports, p`calls, p`faults, p`log, req
    ensures p.Valid() && req.resources == old(req.resources) && p.faults >= old(p.faults)
    ensures OnlyListedAdded(p.cfg, p.catalogue, p.crds, req.resources, old(p.exports), p.exports)
    ensures old(req.phase) != Pending ==> p.exports == old(p.exports) && req.phase == old(req.phase)
    ensures old(req.phase) != Pending ==> req.exportsReady == old(req.exportsReady) && req.terminal == old(req.terminal)
    ensures old(req.phase) != Pending ==> (deletion <==> now - req.creation > 10 * MINUTE)
    ensures (gone ==> deletion) && (deletion && p.faults == old(p.faults) ==> gone)
    ensures old(req.phase) != Pending ==> (err <==> p.faults > old(p.faults))
    ensures old(req.phase) == Pending && p.faults == old(p.faults) ==>
              Passed(p.cfg, p.catalogue, p.crds, req.resources, old(p.exports), p.exports, at)
    ensures old(req.phase) == Pending ==> !deletion && at <= |req.resources|
    ensures old(req.phase) == Pending ==> AllClear(p.cfg, p.crds, old(p.exports), req.resources[..at])
    ensures old(req.phase) == Pending ==> (req.phase == Succeeded <==> !err && at == |req.resources|)
    ensures old(req.phase) == Pending && req.phase == Succeeded ==> AllListed(req.resources, p.exports.Keys)
    ensures old(req.phase) == Pending && req.phase == Succeeded ==> req.exportsReady == Holds
    ensures old(req.phase) == Pending && !err && at < |req.resources| ==>
              (Obstacle(p.cfg, p.crds, old(p.exports), req.resources[at]) == Some(req.exportsReady))
    ensures old(req.phase) == Pending && !err && at < |req.resources| ==>
              (req.phase == if now - req.creation > MINUTE then Failed else Pending)
    ensures old(req.phase) == Pending && req.phase == Failed ==> !err && req.terminal == Some(req.exportsReady)
    ensures old(req.phase) == Pending && err ==> req.phase == Pending && req.exportsReady == old(req.exportsReady)
    ensures old(req.phase) == Pending && err ==>
              (at < |req.resources| && (p.faults > old(p.faults) || TemplateFor(p.catalogue, req.resources[at]) == None))
    ensures req.summary == req.exportsReady
  {
    err, deletion, gone, at := false, false, false, 0;
    if req.phase == Pending {
      var verdict;
      verdict, at := CreateExports(p, req);
      assert req.resources[..|req.resources|] == req.resources;
      match verdict {
        case Errored => err := true;
        case Exported =>
          req.exportsReady := Holds;
          req.phase := Succeeded;
        case Obstructed =>
          if now - req.creation > MINUTE {
            req.phase := Failed;
            req.terminal := Some(req.exportsReady);
          }
      }
    } else if now - req.creation > 10 * MINUTE {
      deletion := true;
      var ok;
      ok, gone := p.Draw();
      err := !ok;
    }
    req.summary := req.exportsReady;
  }

  // ---------------------------------------------------------------- passes over many requests

  /** Nothing stops the loop at a resource: no obstacle, and an export or a template. */
  predicate Cleared(cfg: Config, c: Catalogue, crds: map<Name, Json>, exports: map<Name, Export>, res: GroupResource) {
    Obstacle(cfg, crds, exports, res) == None && (CrdName(res) in exports || TemplateFor(c, res).Some?)
  }

  /** A list of resources names an export, and nothing stops the loop up to there. */
  ghost predicate Reaches(cfg: Config, c: Catalogue, crds: map<Name, Json>, exports: map<Name, Export>,
                          resources: seq<GroupResource>, n: Name) {
    exists i | 0 <= i < |resources| ::
      CrdName(resources[i]) == n && forall j | 0 <= j <= i :: Cleared(cfg, c, crds, exports, resources[j])
  }

  /** The exports have grown by what resources of the pool account for. */
  ghost predicate Grown(cfg: Config, c: Catalogue, crds: map<Name, Json>, pool: set<GroupResource>,
                        before: map<Name, Export>, now: map<Name, Export>) {
    && (forall n | n in before :: n in now && now[n] == before[n])
    && (forall n | n in now && n !in before :: exists res | res in pool :: CrdName(res) == n && BuiltFor(cfg, c, crds, res, now[n]))
  }

  /** A resource at which a list goes on has a template if any resource of the pool with its name
      has one. This holds of every list of at most one resource. */
  ghost predicate Unambiguous(c: Catalogue, pool: set<GroupResource>, resources: seq<GroupResource>) {
    forall i, res | 0 <= i && i + 1 < |resources| && res in pool ::
      CrdName(res) == CrdName(resources[i]) && TemplateFor(c, res).Some? ==> TemplateFor(c, resources[i]).Some?
  }

  /** The name of a CRD determines group and resource if the resource holds no dot. */
  lemma NameIdentifies(a: GroupResource, b: GroupResource)
    requires '.' !in a.resource && '.' !in b.resource && CrdName(a) == CrdName(b)
    ensures a == b
  {
    var x, y := CrdName(a).text, CrdName(b).text;
    assert x[|a.resource|] == '.' && y[|b.resource|] == '.';
    assert |a.resource| == |b.resource|;
    assert a.resource == x[..|a.resource|] == b.resource;
    assert a.group == x[|a.resource| + 1..] == b.group;
  }

  lemma DotFreeIsUnambiguous(c: Catalogue, pool: set<GroupResource>, resources: seq<GroupResource>)
    requires forall res | res in pool :: '.' !in res.resource
    requires forall res | res in resources :: res in pool
    ensures Unambiguous(c, pool, resources)
  {
    forall i, res | 0 <= i && i + 1 < |resources| && res in pool && CrdName(res) == CrdName(resources[i])
      ensures TemplateFor(c, res).Some? ==> TemplateFor(c, resources[i]).Some?
    {
      NameIdentifies(res, resources[i]);
    }
  }

  /** Exports that other requests have added stop nothing. */
  lemma ClearedStays(cfg: Config, c: Catalogue, crds: map<Name, Json>, pool: set<GroupResource>,
                     before: map<Name, Export>, now: map<Name, Export>, res: GroupResource)
    requires Grown(cfg, c, crds, pool, before, now)
    ensures Obstacle(cfg, crds, now, res) == Obstacle(cfg, crds, before, res)
    ensures Cleared(cfg, c, crds, before, res) ==> Cleared(cfg, c, crds, now, res)
  {
    var n := CrdName(res);
    if n in now && n !in before {
      var other :| other in pool && CrdName(other) == n && BuiltFor(cfg, c, crds, other, now[n]);
    }
  }

  lemma PassGrows(cfg: Config, c: Catalogue, crds: map<Name, Json>, pool: set<GroupResource>, resources: seq<GroupResource>,
                  before: map<Name, Export>, now: map<Name, Export>, next: map<Name, Export>)
    requires Grown(cfg, c, crds, pool, before, now) && OnlyListedAdded(cfg, c, crds, resources, now, next)
    requires forall res | res in resources :: res in pool
    ensures Grown(cfg, c, crds, pool, before, next)
  {
    forall n | n in next && n !in before
      ensures exists res | res in pool :: CrdName(res) == n && BuiltFor(cfg, c, crds, res, next[n])
    {
      if n in now {
        assert next[n] == now[n];
      } else {
        var i :| 0 <= i < |resources| && CrdName(resources[i]) == n && BuiltFor(cfg, c, crds, resources[i], next[n]);
        assert resources[i] in pool;
      }
    }
  }

  /** The loop goes through everything that is cleared, seen from before any pass. */
  lemma ClearedIsPassed(cfg: Config, c: Catalogue, crds: map<Name, Json>, pool: set<GroupResource>, resources: seq<GroupResource>,
                        before: map<Name, Export>, now: map<Name, Export>, next: map<Name, Export>, at: nat, k: nat)
    requires Grown(cfg, c, crds, pool, before, now) && Passed(cfg, c, crds, resources, now, next, at)
    requires k <= |resources| && forall j | 0 <= j < k :: Cleared(cfg, c, crds, before, resources[j])
    ensures at >= k
  {
    if at < k {
      ClearedStays(cfg, c, crds, pool, before, now, resources[at]);
    }
  }

  lemma ReachedIsAdded(cfg: Config, c: Catalogue, crds: map<Name, Json>, pool: set<GroupResource>, resources: seq<GroupResource>,
                       before: map<Name, Export>, now: map<Name, Export>, next: map<Name, Export>, at: nat, n: Name)
    requires Grown(cfg, c, crds, pool, before, now) && Passed(cfg, c, crds, resources, now, next, at)
    requires Reaches(cfg, c, crds, before, resources, n)
    ensures n in next
  {
    var i :| 0 <= i < |resources| && CrdName(resources[i]) == n && forall j | 0 <= j <= i :: Cleared(cfg, c, crds, before, resources[j]);
    ClearedIsPassed(cfg, c, crds, pool, resources, before, now, next, at, i + 1);
    assert resources[..at][i] == resources[i];
  }

  lemma AddedIsReached(cfg: Config, c: Catalogue, crds: map<Name, Json>, pool: set<GroupResource>, resources: seq<GroupResource>,
                       before: map<Name, Export>, now: map<Name, Export>, next: map<Name, Export>, at: nat, n: Name)
    requires Grown(cfg, c, crds, pool, before, now) && Passed(cfg, c, crds, resources, now, next, at)
    requires (forall res | res in resources :: res in pool) && Unambiguous(c, pool, resources)
    requires n in next && n !in now
    ensures Reaches(cfg, c, crds, before, resources, n)
  {
    var i := AddedBy(cfg, c, crds, resources, now, next, at, n);
    PrefixAdded(cfg, c, crds, resources, at, now, next);
    PassGrows(cfg, c, crds, pool, resources, before, now, next);
    forall j | 0 <= j <= i ensures Cleared(cfg, c, crds, before, resources[j]) {
      PassedAt(cfg, c, crds, resources, now, next, at, j);
      PassedWasCleared(cfg, c, crds, pool, resources, before, now, next, i, j);
    }
  }

  lemma AddedBy(cfg: Config, c: Catalogue, crds: map<Name, Json>, resources: seq<GroupResource>,
                now: map<Name, Export>, next: map<Name, Export>, at: nat, n: Name) returns (i: nat)
    requires Passed(cfg, c, crds, resources, now, next, at) && n in next && n !in now
    ensures i < at && i < |resources| && CrdName(resources[i]) == n && BuiltFor(cfg, c, crds, resources[i], next[n])
  {
    var front := resources[..at];
    i :| 0 <= i < at && CrdName(front[i]) == n && BuiltFor(cfg, c, crds, front[i], next[n]);
    assert resources[i] == front[i];
  }

  lemma PassedAt(cfg: Config, c: Catalogue, crds: map<Name, Json>, resources: seq<GroupResource>,
                 now: map<Name, Export>, next: map<Name, Export>, at: nat, j: nat)
    requires Passed(cfg, c, crds, resources, now, next, at) && j < at
    ensures j < |resources| && Obstacle(cfg, crds, now, resources[j]) == None && CrdName(resources[j]) in next
  {
    assert resources[..at][j] == resources[j];
  }

  /** What a pass goes through was cleared before any pass. */
  lemma PassedWasCleared(cfg: Config, c: Catalogue, crds: map<Name, Json>, pool: set<GroupResource>, resources: seq<GroupResource>,
                         before: map<Name, Export>, now: map<Name, Export>, next: map<Name, Export>, i: nat, j: nat)
    requires Grown(cfg, c, crds, pool, before, now) && Grown(cfg, c, crds, pool, before, next)
    requires j <= i < |resources| && Obstacle(cfg, crds, now, resources[j]) == None && CrdName(resources[j]) in next
    requires Unambiguous(c, pool, resources) && TemplateFor(c, resources[i]).Some?
    ensures Cleared(cfg, c, crds, before, resources[j])
  {
    ClearedStays(cfg, c, crds, pool, before, now, resources[j]);
    var m := CrdName(resources[j]);
    if j < i && m !in before {
      var res :| res in pool && CrdName(res) == m && BuiltFor(cfg, c, crds, res, next[m]);
      assert TemplateFor(c, res).Some?;
    }
  }

  function ConditionDoc(c: Condition): Json {
    match c
    case Unset => Obj(map[])
    case Holds => Obj(map["status" := Str("True")])
    case Fails(reason, about) => Obj(map["status" := Str("False"), "reason" := Str(reason), "message" := Str(about.text)])
  }

  function PhaseDoc(phase: Phase): Json {
    Str(match phase case Pending => "Pending" case Succeeded => "Succeeded" case Failed => "Failed" case Unknown => "")
  }

  function SpecDoc(resources: seq<GroupResource>): Json {
    Arr(seq(|resources|, i requires 0 <= i < |resources| =>
      Obj(map["group" := Str(resources[i].group), "resource" := Str(resources[i].resource)])))
  }

  function StatusDoc(phase: Phase, exportsReady: Condition, summary: Condition, terminal: Option<Condition>): Fields {
    map["phase" := PhaseDoc(phase), "exportsReady" := ConditionDoc(exportsReady), "summary" := ConditionDoc(summary),
        "terminalMessage" := if terminal.Some? then ConditionDoc(terminal.value) else Str("")]
  }

  /** A request as the committer sees it. */
  function AsResource(req: Request, uid: string, rv: string): Committer.Resource
    reads req
  {
    Committer.Resource(uid, rv, map[], SpecDoc(req.resources), Obj(StatusDoc(req.phase, req.exportsReady, req.summary, req.terminal)))
  }

  /** Two stored statuses tell their phases and conditions apart. */
  lemma StatusTells(p1: Phase, e1: Condition, s1: Condition, t1: Option<Condition>, p2: Phase, e2: Condition, s2: Condition, t2: Option<Condition>)
    requires StatusDoc(p1, e1, s1, t1) == StatusDoc(p2, e2, s2, t2)
    ensures p1 == p2 && e1 == e2 && s1 == s2 && t1 == t2
  {
    var a, b := StatusDoc(p1, e1, s1, t1), StatusDoc(p2, e2, s2, t2);
    assert a["phase"] == b["phase"] && a["exportsReady"] == b["exportsReady"] && a["summary"] == b["summary"];
    assert a["terminalMessage"] == b["terminalMessage"];
    PhasesDiffer(p1, p2);
    ConditionsDiffer(e1, e2);
    ConditionsDiffer(s1, s2);
    if t1.Some? && t2.Some? {
      ConditionsDiffer(t1.value, t2.value);
    }
  }

  lemma PhasesDiffer(a: Phase, b: Phase)
    requires PhaseDoc(a) == PhaseDoc(b)
    ensures a == b
  {
    assert |PhaseDoc(Pending).s| == 7 && |PhaseDoc(Succeeded).s| == 9 && |PhaseDoc(Failed).s| == 6 && |PhaseDoc(Unknown).s| == 0;
  }

  lemma ConditionsDiffer(a: Condition, b: Condition)
    requires ConditionDoc(a) == ConditionDoc(b)
    ensures a == b
  {
    var x, y := ConditionDoc(a).fields, ConditionDoc(b).fields;
    assert ("status" in x) == ("status" in y) && ("reason" in x) == ("reason" in y);
    if a.Fails? && b.Fails? {
      assert x["reason"] == y["reason"] && x["message"] == y["message"];
    }
  }

  lemma ConditionWithoutNulls(c: Condition)
    ensures NullFree(ConditionDoc(c))
  {
  }

  /** What the server stores after an accepted commit of a pass is what the pass made of the request. */
  lemma CommitStores(base: Committer.Resource, obj: Committer.Resource, phase: Phase, exportsReady: Condition, summary: Condition,
                     terminal: Option<Condition>, newRv: string)
    requires base.Identified() && obj.WellFormed() && obj == base.(status := obj.status) && base.status.Obj?
    requires obj.status == Obj(StatusDoc(phase, exportsReady, summary, terminal))
    ensures Committer.Patched(base, Committer.PatchFor(base, obj, Committer.Status), Committer.Status, newRv)
            == Some(obj.(resourceVersion := newRv))
  {
    var doc := StatusDoc(phase, exportsReady, summary, terminal);
    ConditionWithoutNulls(exportsReady);
    ConditionWithoutNulls(summary);
    if terminal.Some? { ConditionWithoutNulls(terminal.value); }
    forall k | k in doc ensures NullFree(doc[k]) {
      assert k == "phase" || k == "exportsReady" || k == "summary" || k == "terminalMessage";
    }
    MergePatch.NullFreeAddsNone(base.status.fields, doc);
    Committer.CommitRoundTrip(base, obj, Committer.Status, newRv);
  }

  /** process: a pass and the commit of what it made of the request that was read. A commit that
      arrives at the version that was read stores phase and conditions as the pass left them. */
  method Process(p: Provider, server: Committer.ApiServer, req: Request, uid: string, rv: string, now: int, net: Committer.Network)
    returns (outcome: Committer.Outcome, err: bool)
    requires p.Valid() && server.Valid() && AsResource(req, uid, rv) in server.history
    modifies p`exports, p`calls, p`faults, p`log, req, server
    ensures p.Valid() && server.Valid() && outcome != Committer.Panicked
    ensures old(req.phase) != Pending && req.phase == old(req.phase) ==> p.exports == old(p.exports)
    ensures outcome == Committer.Refused || outcome == Committer.Failed ==> err
    ensures old(req.phase) == Pending && req.phase != Pending && (outcome == Committer.Done || outcome == Committer.Unchanged) ==> !err
    ensures outcome == Committer.Unchanged ==> server.stored == old(server.stored)
    ensures outcome == Committer.Unchanged <==> AsResource(req, uid, rv) == old(AsResource(req, uid, rv))
    ensures outcome == Committer.Done ==> server.stored == AsResource(req, uid, server.stored.resourceVersion)
    ensures old(AsResource(req, uid, rv)) == old(server.stored) && net == Committer.Delivered ==>
              outcome == Committer.Done || outcome == Committer.Unchanged
  {
    var base := AsResource(req, uid, rv);
    var deletion, gone;
    ghost var at;
    err, deletion, gone, at := Reconcile(p, req, now);
    var obj := AsResource(req, uid, rv);
    outcome := Committer.Commit(server, base, obj, net);
    if outcome == Committer.Done {
      StoredByLast(server, base, obj);
      CommitStores(base, obj, req.phase, req.exportsReady, req.summary, req.terminal, server.stored.resourceVersion);
    }
    err := err || outcome == Committer.Refused || outcome == Committer.Failed;
  }

  /** The stored version is the accepted patch of the last write. */
  lemma StoredByLast(server: Committer.ApiServer, base: Committer.Resource, obj: Committer.Resource)
    requires server.Valid() && server.log != [] && server.log[|server.log| - 1] == Committer.Write(base, obj, Committer.Status)
    ensures base.Identified() && Committer.Patched(base, Committer.PatchFor(base, obj, Committer.Status), Committer.Status, server.stored.resourceVersion)
                                 == Some(server.stored)
  {
    var i := |server.log| - 1;
    assert Committer.Accepted(server.history[i], server.log[i], server.history[i + 1]);
  }

  /** What happens: passes, whose commit may be lost or refused so that the status stays as it was,
      and between them CRDs that come, change and go, and exports that are deleted. */
  datatype Happening = Pass(now: int, stored: bool) | CrdSet(name: Name, crd: Json) | CrdGone(name: Name) | ExportGone(name: Name)

  /** A moment of a run; deletion tells whether the pass before it asked for the deletion of the
      request. */
  datatype Moment = Moment(phase: Phase, live: set<Name>, deletion: bool)

  /** A step of the phase machine. Succeeded is entered only when every listed resource has an
      export, Failed only past one minute of age, both by a stored pass and from Pending; a deletion
      is asked for exactly by a pass past ten minutes that finds another phase than Pending. Exports
      come only by passes over a Pending request and go only when somebody deletes them. */
  predicate Legal(resources: seq<GroupResource>, creation: int, m: Moment, h: Happening, n: Moment) {
    && (n.deletion <==> h.Pass? && m.phase != Pending && h.now - creation > 10 * MINUTE)
    && (n.phase != m.phase ==>
          && h.Pass? && h.stored && m.phase == Pending
          && (n.phase == Succeeded || n.phase == Failed)
          && (n.phase == Succeeded ==> AllListed(resources, n.live))
          && (n.phase == Failed ==> h.now - creation > MINUTE))
    && (match h
        case Pass(_, _) => m.live <= n.live && (m.phase != Pending ==> n.live == m.live)
        case ExportGone(name) => n.live == m.live - {name}
        case _ => n.live == m.live)
  }

  /** Any run over one request takes legal steps only, and no export is created while it exists. */
  method Run(p: Provider, req: Request, happenings: seq<Happening>) returns (ghost trace: seq<Moment>)
    requires p.Valid()
    modifies p, req
    ensures p.Valid() && req.resources == old(req.resources)
    ensures |trace| == |happenings| + 1
    ensures trace[0] == Moment(old(req.phase), old(p.exports.Keys), false)
    ensures trace[|happenings|].phase == req.phase && trace[|happenings|].live == p.exports.Keys
    ensures forall i | 0 <= i < |happenings| :: Legal(req.resources, req.creation, trace[i], happenings[i], trace[i + 1])
    ensures forall i, j | 0 <= i <= j < |trace| && trace[i].phase != Pending :: trace[j].phase == trace[i].phase
    ensures NeverTwice(p.log)
  {
    trace := [Moment(req.phase, p.exports.Keys, false)];
    for k := 0 to |happenings|
      invariant p.Valid() && req.resources == old(req.resources)
      invariant |trace| == k + 1 && trace[0] == Moment(old(req.phase), old(p.exports.Keys), false)
      invariant trace[k].phase == req.phase && trace[k].live == p.exports.Keys
      invariant forall i | 0 <= i < k :: Legal(req.resources, req.creation, trace[i], happenings[i], trace[i + 1])
    {
      var next := Happen(p, req, happenings[k], trace[k]);
      trace := trace + [next];
    }
    forall i, j | 0 <= i <= j < |trace| && trace[i].phase != Pending ensures trace[j].phase == trace[i].phase {
      PhaseIsFinal(req.resources, req.creation, happenings, trace, i, j);
    }
  }

  /** A pass, and the loss of what it made of the status if that is not stored. */
  method PassOnce(p: Provider, req: Request, now: int, stored: bool) returns (deletion: bool)
    requires p.Valid()
    modifies p`exports, p`calls, p`faults, p`log, req
    ensures p.Valid() && req.resources == old(req.resources)
    ensures Legal(req.resources, req.creation, Moment(old(req.phase), old(p.exports.Keys), false), Pass(now, stored),
                  Moment(req.phase, p.exports.Keys, deletion))
  {
    var phase, exportsReady, summary, terminal := req.phase, req.exportsReady, req.summary, req.terminal;
    var err, gone;
    ghost var at;
    err, deletion, gone, at := Reconcile(p, req, now);
    if !stored {
      req.phase, req.exportsReady, req.summary, req.terminal := phase, exportsReady, summary, terminal;
    }
  }

  /** One step of a run. */
  method Happen(p: Provider, req: Request, h: Happening, ghost before: Moment) returns (ghost after: Moment)
    requires p.Valid() && before.phase == req.phase && before.live == p.exports.Keys
    modifies p, req
    ensures p.Valid() && req.resources == old(req.resources)
    ensures after.phase == req.phase && after.live == p.exports.Keys && Legal(req.resources, req.creation, before, h, after)
  {
    var deletion := false;
    match h {
      case Pass(now, stored) => deletion := PassOnce(p, req, now, stored);
      case CrdSet(name, crd) => p.crds := p.crds[name := crd];
      case CrdGone(name) => p.crds := p.crds - {name};
      case ExportGone(name) => p.Delete(name);
    }
    after := Moment(req.phase, p.exports.Keys, deletion);
  }

  /** Succeeded and Failed are final. */
  lemma {:induction false} PhaseIsFinal(resources: seq<GroupResource>, creation: int, happenings: seq<Happening>,
                                        trace: seq<Moment>, i: nat, j: nat)
    requires |trace| == |happenings| + 1 && i <= j < |trace| && trace[i].phase != Pending
    requires forall k | 0 <= k < |happenings| :: Legal(resources, creation, trace[k], happenings[k], trace[k + 1])
    ensures trace[j].phase == trace[i].phase
    decreases j
  {
    if i < j {
      PhaseIsFinal(resources, creation, happenings, trace, i, j - 1);
      assert Legal(resources, creation, trace[j - 1], happenings[j - 1], trace[j - 1 + 1]);
    }
  }
}
