/** Exports and export requests of one AppClusterBinding
    (appclusterbinding_reconcile.go, ensureServiceExportRequests), and their convergence with
    the request controller. */
module AppExports {
  import opened JsonDoc
  import opened Templates
  import ExportRequest
  import Exports
  import Names

  /** A stored request: what it lists, when it was created, the phase it has reached, and whether it
      carries the labels of this binding. */
  datatype RequestObject = RequestObject(resources: seq<GroupResource>, creation: int, phase: ExportRequest.Phase, labelled: bool)

  type Requests = map<Name, RequestObject>

  /** The export a request is taken to ask for: it has to be labelled, and its first resource decides. */
  function AsksFor(r: RequestObject): Option<Name> {
    if r.resources == [] || !r.labelled then None
    else
      var res := r.resources[0];
      Some(if res.group != "" then Name(res.resource + "." + res.group) else Name(res.resource))
  }

  predicate Asked(requests: Requests, n: Name) {
    exists k <- requests :: AsksFor(requests[k]) == Some(n)
  }

  /** newAPIServiceExportRequest as the server stores it at the given time; None stands for nil. */
  function NewRequest(t: Template, now: int): Option<RequestObject> {
    var ref := Trimmed(t.selector);
    if ref.resource == "" then None else Some(RequestObject([ref], now, ExportRequest.Pending, true))
  }

  /** A request asks for the export that is named after its template; the request controller
      uses the same name if and only if the group is not empty. */
  lemma NewRequestAsksForExport(t: Template, now: int)
    requires ExportName(t) != NO_NAME
    ensures NewRequest(t, now).Some? && AsksFor(NewRequest(t, now).value) == Some(ExportName(t))
    ensures ExportRequest.CrdName(NewRequest(t, now).value.resources[0]) == ExportName(t) <==> Trimmed(t.selector).group != ""
  {
    var ref := Trimmed(t.selector);
    if ref.group == "" {
      assert |ExportRequest.CrdName(ref).text| == |ref.resource| + 1;
    }
  }

  /** The root namespace of one binding, with all requests in it, labelled or not. nameOf is
      apiServiceExportRequestName for this binding. Exports live in p, and every call draws its fate
      there. */
  class Namespace {
    const p: ExportRequest.Provider
    const nameOf: Template -> Name
    var requests: Requests

    ghost predicate Valid() reads this, p {
      p.Valid()
    }

    constructor (p: ExportRequest.Provider, nameOf: Template -> Name)
      requires p.Valid()
      ensures Valid() && this.p == p && this.nameOf == nameOf && requests == map[]
    {
      this.p, this.nameOf, this.requests := p, nameOf, map[];
    }

    method DeleteExport(name: Name) returns (ok: bool)
      requires Valid()
      modifies p`exports, p`calls, p`faults, p`log
      ensures Valid() && p.faults == old(p.faults) + if ok then 0 else 1
      ensures p.exports == old(p.exports) || p.exports == old(p.exports) - {name}
      ensures ok ==> name !in p.exports
    {
      var applied;
      ok, applied := p.Draw();
      if applied { p.Delete(name); }
    }

    method DeleteRequest(name: Name) returns (ok: bool)
      requires Valid()
      modifies this`requests, p`calls, p`faults
      ensures Valid() && p.faults == old(p.faults) + if ok then 0 else 1
      ensures requests == old(requests) || requests == old(requests) - {name}
      ensures ok ==> name !in requests
    {
      var applied;
      ok, applied := p.Draw();
      if applied { requests := requests - {name}; }
    }

    /** A name that is taken already counts as success. */
    method CreateRequest(name: Name, r: RequestObject) returns (ok: bool)
      requires Valid()
      modifies this`requests, p`calls, p`faults
      ensures Valid() && p.faults == old(p.faults) + if ok then 0 else 1
      ensures requests == old(requests) || (name !in old(requests) && requests == old(requests)[name := r])
      ensures ok ==> name in requests
    {
      var applied;
      ok, applied := p.Draw();
      if applied && name !in requests {
        requests := requests[name := r];
      }
    }
  }

  /** The desired exports. A template that cannot be resolved is recorded as an error and skipped. */
  method BuildDesired(c: Catalogue, apiExports: seq<GroupResource>) returns (desired: map<Name, Template>, err: bool)
    ensures desired == Desired(c, apiExports) && (err <==> !NoneMissing(c, apiExports))
  {
    desired, err := map[], false;
    for i := 0 to |apiExports|
      invariant desired == Desired(c, apiExports[..i]) && (err <==> !NoneMissing(c, apiExports[..i]))
    {
      PrefixStep(c, apiExports, i);
      var r := Resolve(c, apiExports[i]);
      if r == Unresolved {
        err := true;
        continue;
      }
      if r == Skip {
        continue;
      }
      var exportName := ExportName(r.template);
      if exportName == NO_NAME {
        continue;
      }
      desired := desired[exportName := r.template];
    }
    assert apiExports[..|apiExports|] == apiExports;
  }

  /** The loop over the listed exports. */
  method PruneExports(ns: Namespace, desired: map<Name, Template>) returns (satisfied: set<Name>, err: bool)
    requires ns.Valid()
    modifies ns.p`exports, ns.p`calls, ns.p`faults, ns.p`log
    ensures ns.Valid() && ns.p.faults >= old(ns.p.faults) && (err <==> ns.p.faults > old(ns.p.faults))
    ensures forall n :: n in satisfied <==> n in old(ns.p.exports) && n in desired
    ensures forall n | n in ns.p.exports :: n in old(ns.p.exports) && ns.p.exports[n] == old(ns.p.exports)[n]
    ensures forall n | n in satisfied :: n in ns.p.exports
    ensures !err ==> forall n | n in ns.p.exports :: n in desired
  {
    satisfied, err := {}, false;
    var listed := ns.p.exports.Keys;
    var todo := listed;
    while todo != {}
      invariant ns.Valid() && ns.p.faults >= old(ns.p.faults) && (err <==> ns.p.faults > old(ns.p.faults))
      invariant forall n | n in todo :: n in listed
      invariant forall n :: n in satisfied <==> n in listed && n !in todo && n in desired
      invariant forall n | n in ns.p.exports :: n in listed && ns.p.exports[n] == old(ns.p.exports)[n]
      invariant forall n | n in listed && n in desired :: n in ns.p.exports
      invariant !err ==> forall n | n in ns.p.exports :: n in todo || n in desired
      decreases |todo|
    {
      var name :| name in todo;
      todo := todo - {name};
      if name in desired {
        satisfied := satisfied + {name};
      } else {
        var ok := ns.DeleteExport(name);
        err := err || !ok;
      }
    }
  }

  /** What a list by the labels of the binding gives. */
  function Labelled(requests: Requests): (r: Requests)
    ensures forall n :: Asked(r, n) <==> Asked(requests, n)
  {
    var r := map k | k in requests && requests[k].labelled :: requests[k];
    assert forall k | k in requests && AsksFor(requests[k]).Some? :: k in r && r[k] == requests[k];
    r
  }

  /** Each listed request under the export it asks for; of several, the last one listed stays. */
  method MapRequests(listed: Requests) returns (pending: map<Name, Name>)
    requires forall k | k in listed :: listed[k].labelled
    ensures forall n :: n in pending <==> Asked(listed, n)
    ensures forall n | n in pending :: pending[n] in listed && AsksFor(listed[pending[n]]) == Some(n)
  {
    pending := map[];
    var todo := listed.Keys;
    while todo != {}
      invariant forall k | k in todo :: k in listed
      invariant forall k | k in listed && k !in todo && AsksFor(listed[k]).Some? :: AsksFor(listed[k]).value in pending
      invariant forall n | n in pending :: pending[n] in listed && AsksFor(listed[pending[n]]) == Some(n)
      decreases |todo|
    {
      var k :| k in todo;
      todo := todo - {k};
      if |listed[k].resources| > 0 {
        var res := listed[k].resources[0];
        var name := Name(res.resource);
        if res.group != "" {
          name := Name(res.resource + "." + res.group);
        }
        assert AsksFor(listed[k]) == Some(name);
        pending := pending[name := k];
      }
    }
  }

  /** The loop over the pending requests: those for exports that are not desired are deleted. */
  method PruneRequests(ns: Namespace, desired: map<Name, Template>, pending: map<Name, Name>) returns (err: bool)
    requires ns.Valid() && forall n | n in pending :: pending[n] in ns.requests && AsksFor(ns.requests[pending[n]]) == Some(n)
    modifies ns`requests, ns.p`calls, ns.p`faults
    ensures ns.Valid() && ns.p.faults >= old(ns.p.faults) && (err <==> ns.p.faults > old(ns.p.faults))
    ensures forall k | k in ns.requests :: k in old(ns.requests) && ns.requests[k] == old(ns.requests)[k]
    ensures forall k | k in old(ns.requests) && k !in ns.requests ::
              AsksFor(old(ns.requests)[k]).Some? && AsksFor(old(ns.requests)[k]).value !in desired
    ensures !err ==> forall n | n in pending && n !in desired :: pending[n] !in ns.requests
  {
    err := false;
    var todo := pending.Keys;
    while todo != {}
      invariant ns.Valid() && ns.p.faults >= old(ns.p.faults) && (err <==> ns.p.faults > old(ns.p.faults))
      invariant forall n | n in todo :: n in pending
      invariant forall k | k in ns.requests :: k in old(ns.requests) && ns.requests[k] == old(ns.requests)[k]
      invariant forall k | k in old(ns.requests) && k !in ns.requests ::
                  AsksFor(old(ns.requests)[k]).Some? && AsksFor(old(ns.requests)[k]).value !in desired
      invariant !err ==> forall n | n in pending && n !in desired && n !in todo :: pending[n] !in ns.requests
      decreases |todo|
    {
      var exportName :| exportName in todo;
      todo := todo - {exportName};
      if exportName !in desired {
        var ok := ns.DeleteRequest(pending[exportName]);
        err := err || !ok;
      }
    }
  }

  /** A request that the pass has just made: for a desired export that neither existed nor was
      asked for. */
  ghost predicate MadeFor(ns: Namespace, desired: map<Name, Template>, open: set<Name>, now: int, k: Name, r: RequestObject) {
    exists n | n in open && n in desired :: ns.nameOf(desired[n]) == k && NewRequest(desired[n], now) == Some(r)
  }

  /** No two open exports share a request name. */
  ghost predicate NamesApart(ns: Namespace, desired: map<Name, Template>, open: set<Name>) {
    forall a, b | a in open && b in open && a in desired && b in desired && a != b :: ns.nameOf(desired[a]) != ns.nameOf(desired[b])
  }

  /** Where the loop over the desired exports stands; todo are the ones still to come. */
  ghost predicate Making(ns: Namespace, desired: map<Name, Template>, open: set<Name>, now: int,
                         before: Requests, next: Requests, todo: set<Name>, clean: bool) {
    && (forall k | k in before :: k in next && next[k] == before[k])
    && (forall k | k in next && k !in before :: MadeFor(ns, desired, open, now, k, next[k]))
    && (clean ==> forall n | n in open && n !in todo :: n in desired && ns.nameOf(desired[n]) in next)
  }

  lemma MakeOne(ns: Namespace, desired: map<Name, Template>, open: set<Name>, now: int,
                before: Requests, mid: Requests, next: Requests, todo: set<Name>, clean: bool, ok: bool, n: Name)
    requires Making(ns, desired, open, now, before, mid, todo + {n}, clean) && n in open && n in desired && NewRequest(desired[n], now).Some?
    requires var k := ns.nameOf(desired[n]);
             && (next == mid || (k !in mid && next == mid[k := NewRequest(desired[n], now).value]))
             && (ok ==> k in next)
    ensures Making(ns, desired, open, now, before, next, todo, clean && ok)
  {
    forall k | k in next && k !in before ensures MadeFor(ns, desired, open, now, k, next[k]) {
      if k in mid {
        assert next[k] == mid[k];
      } else {
        assert ns.nameOf(desired[n]) == k;
      }
    }
  }

  /** The loop over the desired exports. */
  method CreateRequests(ns: Namespace, desired: map<Name, Template>, satisfied: set<Name>, pending: map<Name, Name>,
                        now: int, ghost open: set<Name>) returns (err: bool)
    requires ns.Valid() && forall n :: n in open <==> n in desired && n !in satisfied && n !in pending
    requires forall n | n in desired :: NewRequest(desired[n], now).Some?
    modifies ns`requests, ns.p`calls, ns.p`faults
    ensures ns.Valid() && ns.p.faults >= old(ns.p.faults) && (err <==> ns.p.faults > old(ns.p.faults))
    ensures forall k | k in old(ns.requests) :: k in ns.requests && ns.requests[k] == old(ns.requests)[k]
    ensures forall k | k in ns.requests && k !in old(ns.requests) :: MadeFor(ns, desired, open, now, k, ns.requests[k])
    ensures !err ==> forall n | n in open :: ns.nameOf(desired[n]) in ns.requests
  {
    err := false;
    var todo := desired.Keys;
    while todo != {}
      invariant ns.Valid() && ns.p.faults >= old(ns.p.faults) && (err <==> ns.p.faults > old(ns.p.faults))
      invariant forall n | n in todo :: n in desired
      invariant Making(ns, desired, open, now, old(ns.requests), ns.requests, todo, !err)
      decreases |todo|
    {
      var exportName :| exportName in todo;
      todo := todo - {exportName};
      if exportName in satisfied || exportName in pending {
        continue;
      }
      var template := desired[exportName];
      var req := NewRequest(template, now);
      if req == None {
        continue;
      }
      ghost var mid := ns.requests;
      var ok := ns.CreateRequest(ns.nameOf(template), req.value);
      MakeOne(ns, desired, open, now, old(ns.requests), mid, ns.requests, todo, !err, ok, exportName);
      err := err || !ok;
    }
  }

  /** Every desired name is the export name of its template, which makes a request for it. */
  lemma DesiredTemplates(c: Catalogue, apiExports: seq<GroupResource>, now: int)
    ensures forall n | n in Desired(c, apiExports) ::
              var t := Desired(c, apiExports)[n];
              n != NO_NAME && ExportName(t) == n && NewRequest(t, now).Some? && AsksFor(NewRequest(t, now).value) == Some(n)
  {
    forall n | n in Desired(c, apiExports)
      ensures var t := Desired(c, apiExports)[n];
              n != NO_NAME && ExportName(t) == n && NewRequest(t, now).Some? && AsksFor(NewRequest(t, now).value) == Some(n)
    {
      var i := DesiredMember(c, apiExports, n);
      NewRequestAsksForExport(Desired(c, apiExports)[n], now);
    }
  }

  /** A request of this binding for an export that is not desired. */
  predicate Leftover(desired: map<Name, Template>, r: RequestObject) {
    AsksFor(r).Some? && AsksFor(r).value !in desired
  }

  function Surviving(desired: map<Name, Template>, requests: Requests): Requests {
    map k | k in requests && !Leftover(desired, requests[k]) :: requests[k]
  }

  /** How a pass changes the requests: it drops leftovers only, and those it makes ask for desired
      exports that neither existed nor were asked for. */
  ghost predicate RequestsProgress(ns: Namespace, desired: map<Name, Template>, open: set<Name>, now: int,
                                   before: Requests, next: Requests) {
    && (forall k | k in Surviving(desired, before) :: k in next && next[k] == before[k])
    && (forall k | k in next && (k in before ==> next[k] != before[k]) :: MadeFor(ns, desired, open, now, k, next[k]))
  }

  /** No two leftovers ask for the same export; of several, a pass deletes only one. */
  predicate SingleLeftovers(desired: map<Name, Template>, requests: Requests) {
    forall j, k | j in requests && k in requests && Leftover(desired, requests[j]) && AsksFor(requests[j]) == AsksFor(requests[k]) :: j == k
  }

  /** What no failed call adds: every open name is in use, and single leftovers are gone. */
  ghost predicate RequestsComplete(ns: Namespace, desired: map<Name, Template>, open: set<Name>, now: int,
                                   before: Requests, next: Requests) {
    && (forall n | n in open :: n in desired && ns.nameOf(desired[n]) in next)
    && (SingleLeftovers(desired, before) ==>
          forall k | k in next && k !in Surviving(desired, before) :: MadeFor(ns, desired, open, now, k, next[k]))
  }

  /** The desired exports that neither exist nor are asked for. */
  function Open(desired: map<Name, Template>, exports: set<Name>, requests: Requests): set<Name> {
    set n | n in desired && n !in exports && !Asked(requests, n)
  }

  lemma PruneThenMake(ns: Namespace, desired: map<Name, Template>, open: set<Name>, now: int,
                      before: Requests, mid: Requests, next: Requests)
    requires forall k | k in mid :: k in before && mid[k] == before[k]
    requires forall k | k in before && k !in mid :: Leftover(desired, before[k])
    requires forall k | k in mid :: k in next && next[k] == mid[k]
    requires forall k | k in next && k !in mid :: MadeFor(ns, desired, open, now, k, next[k])
    ensures RequestsProgress(ns, desired, open, now, before, next)
    ensures (forall k | k in mid :: k in Surviving(desired, before)) ==>
              (forall k | k in next && k !in Surviving(desired, before) :: MadeFor(ns, desired, open, now, k, next[k]))
  {
  }

  lemma LeftoversGone(desired: map<Name, Template>, before: Requests, mid: Requests, pending: map<Name, Name>)
    requires SingleLeftovers(desired, before)
    requires forall n :: n in pending <==> Asked(before, n)
    requires forall n | n in pending :: pending[n] in before && AsksFor(before[pending[n]]) == Some(n)
    requires forall n | n in pending && n !in desired :: pending[n] !in mid
    requires forall k | k in mid :: k in before
    ensures forall k | k in mid :: k in Surviving(desired, before)
  {
    forall k | k in mid ensures !Leftover(desired, before[k]) {
      if Leftover(desired, before[k]) {
        assert Asked(before, AsksFor(before[k]).value);
      }
    }
  }

  /** The part of a pass that changes requests, given the desired exports that exist. */
  method ConvergeRequests(ns: Namespace, desired: map<Name, Template>, satisfied: set<Name>, now: int) returns (err: bool)
    requires ns.Valid() && forall n | n in desired :: NewRequest(desired[n], now).Some?
    modifies ns`requests, ns.p`calls, ns.p`faults
    ensures ns.Valid() && ns.p.faults >= old(ns.p.faults) && (err <==> ns.p.faults > old(ns.p.faults))
    ensures RequestsProgress(ns, desired, Open(desired, satisfied, old(ns.requests)), now, old(ns.requests), ns.requests)
    ensures !err ==> RequestsComplete(ns, desired, Open(desired, satisfied, old(ns.requests)), now, old(ns.requests), ns.requests)
  {
    ghost var before := ns.requests;
    var ok, applied := ns.p.Draw();
    if !ok {
      return true;
    }
    var pending := MapRequests(Labelled(ns.requests));
    ghost var open := Open(desired, satisfied, before);
    var err2 := PruneRequests(ns, desired, pending);
    ghost var mid := ns.requests;
    var err3 := CreateRequests(ns, desired, satisfied, pending, now, open);
    PruneThenMake(ns, desired, open, now, before, mid, ns.requests);
    err := err2 || err3;
    if !err && SingleLeftovers(desired, before) {
      LeftoversGone(desired, before, mid, pending);
    }
  }

  /** What one pass of this controller makes of exports and requests; clean says that no call failed.
      - However the calls fare, no desired export is deleted, only requests for undesired exports
        are, and a request is made only for a desired export that neither existed nor was asked for.
      - Without a failed call no other export remains than the desired ones. Since a template that
        cannot be resolved makes its export undesired, this holds with an unresolved template too.
      - Without a failed call every desired export exists, or was asked for already, or its request
        name is in use afterwards. */
  ghost predicate AfterPass(ns: Namespace, desired: map<Name, Template>, now: int,
                            exports: map<Name, Exports.Export>, before: Requests,
                            left: map<Name, Exports.Export>, next: Requests, clean: bool) {
    && (forall n | n in left :: n in exports && left[n] == exports[n])
    && (forall n | n in exports && n in desired :: n in left)
    && RequestsProgress(ns, desired, Open(desired, left.Keys, before), now, before, next)
    && (clean ==> (forall n | n in left :: n in desired)
                  && RequestsComplete(ns, desired, Open(desired, left.Keys, before), now, before, next))
  }

  lemma ExportsAsWanted(c: Catalogue, apiExports: seq<GroupResource>, exports: map<Name, Exports.Export>, left: map<Name, Exports.Export>, clean: bool)
    requires forall n | n in left :: n in exports
    requires forall n | n in exports && n in Desired(c, apiExports) :: n in left
    requires clean ==> forall n | n in left :: n in Desired(c, apiExports)
    ensures forall n | n in exports && Wanted(c, apiExports, n) :: n in left
    ensures clean ==> forall n :: n in left <==> n in exports && Wanted(c, apiExports, n)
  {
    forall n ensures n in Desired(c, apiExports) <==> Wanted(c, apiExports, n) {
      DesiredIffWanted(c, apiExports, n);
    }
  }

  /** ensureServiceExportRequests. A reference that names a resource but is not found is an error, and
      the wanted exports are those that the other references stand for. */
  method EnsureServiceExportRequests(ns: Namespace, c: Catalogue, apiExports: seq<GroupResource>, now: int) returns (err: bool)
    requires ns.Valid()
    modifies ns`requests, ns.p`exports, ns.p`calls, ns.p`faults, ns.p`log
    ensures ns.Valid() && ns.p.faults >= old(ns.p.faults)
    ensures err <==> !NoneMissing(c, apiExports) || ns.p.faults > old(ns.p.faults)
    ensures AfterPass(ns, Desired(c, apiExports), now, old(ns.p.exports), old(ns.requests), ns.p.exports, ns.requests,
                      ns.p.faults == old(ns.p.faults))
    ensures forall n | n in old(ns.p.exports) && Wanted(c, apiExports, n) :: n in ns.p.exports
    ensures ns.p.faults == old(ns.p.faults) ==>
              forall n :: n in ns.p.exports <==> n in old(ns.p.exports) && Wanted(c, apiExports, n)
  {
    var desired, unresolved := BuildDesired(c, apiExports);
    DesiredTemplates(c, apiExports, now);
    err := unresolved;
    var ok, applied := ns.p.Draw();
    if !ok {
      ExportsAsWanted(c, apiExports, ns.p.exports, ns.p.exports, false);
      return true;
    }
    var satisfied, err1 := PruneExports(ns, desired);
    ExportsAsWanted(c, apiExports, old(ns.p.exports), ns.p.exports, !err1);
    assert Open(desired, satisfied, ns.requests) == Open(desired, ns.p.exports.Keys, ns.requests);
    var err2 := ConvergeRequests(ns, desired, satisfied, now);
    err := err || err1 || err2;
  }

  /** Exactly when a pass without a failed call has an open export asked for: its request name was
      free. It was not if somebody else's request has it, or a request kept for another export. */
  lemma ServedExactly(ns: Namespace, desired: map<Name, Template>, open: set<Name>, now: int, before: Requests, next: Requests, n: Name)
    requires forall m | m in desired :: ExportName(desired[m]) == m && m != NO_NAME
    requires NamesApart(ns, desired, open) && RequestsProgress(ns, desired, open, now, before, next)
    requires n in open && n in desired && (forall m | m in open :: m in desired && !Asked(before, m))
    requires ns.nameOf(desired[n]) in next
    ensures var k := ns.nameOf(desired[n]);
            Asked(next, n) <==> !(k in before && next[k] == before[k])
  {
    var k := ns.nameOf(desired[n]);
    forall j | j in next && (j in before ==> next[j] != before[j])
      ensures AsksFor(next[j]) == Some(n) <==> j == k
    {
      var m :| m in open && m in desired && ns.nameOf(desired[m]) == j && NewRequest(desired[m], now) == Some(next[j]);
      NewRequestAsksForExport(desired[m], now);
      if j == k { assert m == n; }
    }
  }

  /** No two desired exports share a request name, and a request that has the name of a desired
      export is a request for it. */
  ghost predicate NamesFree(ns: Namespace, desired: map<Name, Template>, requests: Requests) {
    && NamesApart(ns, desired, desired.Keys)
    && forall n | n in desired :: ns.nameOf(desired[n]) in requests ==> AsksFor(requests[ns.nameOf(desired[n])]) == Some(n)
  }

  /** With free names, every desired export exists or is asked for after a pass without a failed call. */
  lemma AllServed(ns: Namespace, desired: map<Name, Template>, exports: set<Name>, now: int, before: Requests, next: Requests)
    requires forall m | m in desired :: ExportName(desired[m]) == m && m != NO_NAME
    requires NamesFree(ns, desired, before)
    requires RequestsProgress(ns, desired, Open(desired, exports, before), now, before, next)
    requires forall n | n in Open(desired, exports, before) :: ns.nameOf(desired[n]) in next
    ensures forall n | n in desired :: n in exports || Asked(next, n)
  {
    var open := Open(desired, exports, before);
    forall n | n in desired && n !in exports ensures Asked(next, n) {
      if n in open {
        ServedExactly(ns, desired, open, now, before, next, n);
        assert ns.nameOf(desired[n]) in before ==> Asked(before, n);
      } else {
        var k :| k in before && AsksFor(before[k]) == Some(n);
        assert k in Surviving(desired, before);
      }
    }
  }

  // ---------------------------------------------------------------- both controllers

  /** The first resource of every labelled request has a group, so that both controllers derive the
      same export name from it. */
  predicate Grouped(requests: Requests) {
    forall k | k in requests && requests[k].labelled && requests[k].resources != [] :: requests[k].resources[0].group != ""
  }

  predicate AllGrouped(desired: map<Name, Template>) {
    forall n | n in desired :: Trimmed(desired[n].selector).group != ""
  }

  lemma MadeAreGrouped(ns: Namespace, desired: map<Name, Template>, open: set<Name>, now: int, before: Requests, next: Requests)
    requires Grouped(before) && AllGrouped(desired) && RequestsProgress(ns, desired, open, now, before, next)
    ensures Grouped(next)
  {
    forall k | k in next && next[k].labelled && next[k].resources != [] ensures next[k].resources[0].group != "" {
      if k in before && next[k] == before[k] {
      } else {
        assert MadeFor(ns, desired, open, now, k, next[k]);
      }
    }
  }

  function Listed(requests: Requests): set<GroupResource> {
    set k, res | k in requests && res in requests[k].resources :: res
  }

  ghost predicate AllUnambiguous(c: Catalogue, requests: Requests) {
    forall k | k in requests :: ExportRequest.Unambiguous(c, Listed(requests), requests[k].resources)
  }

  /** A Pending request names the export, and nothing stands in its way up to there. */
  ghost predicate Promised(p: ExportRequest.Provider, crds: map<Name, Json>, exports: map<Name, Exports.Export>, requests: Requests, n: Name) {
    exists k :: k in requests && requests[k].phase == ExportRequest.Pending
                && ExportRequest.Reaches(p.cfg, p.catalogue, crds, exports, requests[k].resources, n)
  }

  /** Nothing stands in the way of a request. */
  ghost predicate Clear(p: ExportRequest.Provider, crds: map<Name, Json>, exports: map<Name, Exports.Export>, r: RequestObject) {
    forall i | 0 <= i < |r.resources| :: ExportRequest.Cleared(p.cfg, p.catalogue, crds, exports, r.resources[i])
  }

  /** What a pass of the request controller makes of a stored request. Only a Pending request
      changes its phase; Succeeded needs all exports and Failed an age of more than a minute. */
  predicate Advanced(r: RequestObject, next: RequestObject, now: int, live: set<Name>) {
    && next.resources == r.resources && next.creation == r.creation && next.labelled == r.labelled
    && (next.phase != r.phase ==>
          && r.phase == ExportRequest.Pending
          && (next.phase == ExportRequest.Succeeded || next.phase == ExportRequest.Failed)
          && (next.phase == ExportRequest.Succeeded ==> ExportRequest.AllListed(r.resources, live))
          && (next.phase == ExportRequest.Failed ==> now - r.creation > ExportRequest.MINUTE))
  }

  predicate Expired(r: RequestObject, now: int) {
    r.phase != ExportRequest.Pending && now - r.creation > 10 * ExportRequest.MINUTE
  }

  /** What one pass makes of the stored request k; at is where the loop over its resources stopped. */
  ghost predicate StoredAfter(before: Requests, next: Requests, k: Name, now: int, live: set<Name>, at: nat, clean: bool)
    requires k in before
  {
    && (next == before - {k} || (k in next && next == before[k := next[k]] && Advanced(before[k], next[k], now, live)))
    && (k !in next ==> Expired(before[k], now))
    && (clean ==> (k in next <==> !Expired(before[k], now)))
    && (clean && before[k].phase == ExportRequest.Pending ==>
          k in next && (next[k].phase == ExportRequest.Succeeded <==> at == |before[k].resources|))
  }

  /** What a pass decides for a request. */
  predicate Decided(r: RequestObject, next: RequestObject, gone: bool, now: int, live: set<Name>, at: nat, clean: bool) {
    && Advanced(r, next, now, live) && (gone ==> Expired(r, now)) && (clean ==> (gone <==> Expired(r, now)))
    && (clean && r.phase == ExportRequest.Pending ==> (next.phase == ExportRequest.Succeeded <==> at == |r.resources|))
  }

  lemma DecisionStored(before: Requests, next: Requests, k: Name, r: RequestObject, gone: bool, now: int, live: set<Name>,
                       at: nat, clean: bool, delivered: bool)
    requires k in before && Decided(before[k], r, gone, now, live, at, clean)
    requires gone ==> next == before - {k}
    requires !gone ==> next == before || next == before[k := r]
    requires !gone && delivered ==> next == before[k := r]
    ensures StoredAfter(before, next, k, now, live, at, clean && delivered)
  {
    if !gone && next == before {
      assert next == before[k := next[k]];
    }
  }

  /** The commit of a pass; it sends nothing if nothing has changed. */
  method Store(ns: Namespace, k: Name, next: RequestObject, gone: bool)
    requires ns.Valid() && k in ns.requests
    modifies ns`requests, ns.p`calls, ns.p`faults
    ensures ns.Valid() && ns.p.faults >= old(ns.p.faults)
    ensures gone ==> ns.requests == old(ns.requests) - {k}
    ensures !gone ==> ns.requests == old(ns.requests) || ns.requests == old(ns.requests)[k := next]
    ensures !gone && ns.p.faults == old(ns.p.faults) ==> ns.requests == old(ns.requests)[k := next]
  {
    if gone {
      ns.requests := ns.requests - {k};
    } else if next == ns.requests[k] {
      assert ns.requests == ns.requests[k := next];
    } else {
      var ok, applied := ns.p.Draw();
      if applied {
        ns.requests := ns.requests[k := next];
      }
    }
  }

  /** One pass of the request controller over a stored request, from the phase it has reached; the
      commit of the new phase is a call of its own. at is where the loop over its resources stopped. */
  method FulfilOne(ns: Namespace, k: Name, now: int) returns (ghost at: nat)
    requires ns.Valid() && k in ns.requests
    modifies ns`requests, ns.p`exports, ns.p`calls, ns.p`faults, ns.p`log
    ensures ns.Valid() && ns.p.faults >= old(ns.p.faults)
    ensures ExportRequest.OnlyListedAdded(ns.p.cfg, ns.p.catalogue, ns.p.crds, old(ns.requests)[k].resources, old(ns.p.exports), ns.p.exports)
    ensures old(ns.requests)[k].phase != ExportRequest.Pending ==> ns.p.exports == old(ns.p.exports)
    ensures ns.p.faults == old(ns.p.faults) && old(ns.requests)[k].phase == ExportRequest.Pending ==>
              ExportRequest.Passed(ns.p.cfg, ns.p.catalogue, ns.p.crds, old(ns.requests)[k].resources,
                                   old(ns.p.exports), ns.p.exports, at)
    ensures StoredAfter(old(ns.requests), ns.requests, k, now, ns.p.exports.Keys, at, ns.p.faults == old(ns.p.faults))
  {
    var r := ns.requests[k];
    var req := new ExportRequest.Request(r.resources, r.creation);
    req.phase := r.phase;
    var err, deletion, gone;
    err, deletion, gone, at := ExportRequest.Reconcile(ns.p, req, now);
    ghost var faults := ns.p.faults;
    Store(ns, k, r.(phase := req.phase), gone);
    DecisionStored(old(ns.requests), ns.requests, k, r.(phase := req.phase), gone, now, ns.p.exports.Keys, at,
                   faults == old(ns.p.faults), ns.p.faults == faults);
  }

  /** The exports that the passes so far have to account for. */
  ghost predicate Delivered(p: ExportRequest.Provider, crds: map<Name, Json>, before: map<Name, Exports.Export>,
                            now: map<Name, Exports.Export>, requests: Requests, done: set<Name>) {
    && (forall k, n | k in done && k in requests && requests[k].phase == ExportRequest.Pending
                      && ExportRequest.Reaches(p.cfg, p.catalogue, crds, before, requests[k].resources, n) :: n in now)
    && (AllUnambiguous(p.catalogue, requests) ==>
          forall n | n in now && n !in before :: Promised(p, crds, before, requests, n))
  }

  lemma DeliverOne(p: ExportRequest.Provider, crds: map<Name, Json>, before: map<Name, Exports.Export>,
                   now: map<Name, Exports.Export>, next: map<Name, Exports.Export>, requests: Requests, done: set<Name>,
                   k: Name, at: nat)
    requires k in requests && Delivered(p, crds, before, now, requests, done)
    requires ExportRequest.Grown(p.cfg, p.catalogue, crds, Listed(requests), before, now)
    requires if requests[k].phase == ExportRequest.Pending
             then ExportRequest.Passed(p.cfg, p.catalogue, crds, requests[k].resources, now, next, at)
             else next == now
    ensures Delivered(p, crds, before, next, requests, done + {k})
  {
    var pool, resources := Listed(requests), requests[k].resources;
    if requests[k].phase == ExportRequest.Pending {
      forall n | ExportRequest.Reaches(p.cfg, p.catalogue, crds, before, resources, n) ensures n in next {
        ExportRequest.ReachedIsAdded(p.cfg, p.catalogue, crds, pool, resources, before, now, next, at, n);
      }
      assert forall n | n in now :: n in next;
      if AllUnambiguous(p.catalogue, requests) {
        forall n | n in next && n !in before ensures Promised(p, crds, before, requests, n) {
          if n !in now {
            assert forall res | res in resources :: res in pool;
            ExportRequest.AddedIsReached(p.cfg, p.catalogue, crds, pool, resources, before, now, next, at, n);
          }
        }
      }
    }
  }

  /** What passes of the request controller over every stored request make of exports and requests.
      If no call fails, a missing export comes into being if a Pending request names it and nothing
      stands in its way, and only then unless listed resources are ambiguous; expired requests go,
      other settled ones stay as they are, and a Pending request in whose way nothing stands
      succeeds. */
  ghost predicate Fulfilled(p: ExportRequest.Provider, crds: map<Name, Json>, now: int,
                            exports: map<Name, Exports.Export>, before: Requests,
                            left: map<Name, Exports.Export>, next: Requests, clean: bool) {
    && (forall n | n in exports :: n in left && left[n] == exports[n])
    && (forall k | k in next :: k in before && Advanced(before[k], next[k], now, left.Keys))
    && (forall k | k in before && k !in next :: Expired(before[k], now))
    && (clean ==>
          && (forall n | Promised(p, crds, exports, before, n) :: n in left)
          && (AllUnambiguous(p.catalogue, before) ==> forall n | n in left && n !in exports :: Promised(p, crds, exports, before, n))
          && (forall k | k in before :: k in next <==> !Expired(before[k], now))
          && (forall k | k in before && before[k].phase == ExportRequest.Pending && Clear(p, crds, exports, before[k]) ::
                next[k].phase == ExportRequest.Succeeded))
  }

  /** One pass of the request controller over every stored request, in any order. */
  method Fulfil(ns: Namespace, now: int)
    requires ns.Valid()
    modifies ns`requests, ns.p`exports, ns.p`calls, ns.p`faults, ns.p`log
    ensures ns.Valid() && ns.p.faults >= old(ns.p.faults)
    ensures Fulfilled(ns.p, ns.p.crds, now, old(ns.p.exports), old(ns.requests), ns.p.exports, ns.requests,
                      ns.p.faults == old(ns.p.faults))
  {
    ghost var before, requests := ns.p.exports, ns.requests;
    var todo := ns.requests.Keys;
    ghost var done := {};
    while todo != {}
      invariant ns.Valid() && ns.p.faults >= old(ns.p.faults)
      invariant forall k :: k in requests <==> k in todo || k in done
      invariant forall k | k in todo :: k !in done && k in ns.requests && ns.requests[k] == requests[k]
      invariant ExportRequest.Grown(ns.p.cfg, ns.p.catalogue, ns.p.crds, Listed(requests), before, ns.p.exports)
      invariant ns.p.faults == old(ns.p.faults) ==> Delivered(ns.p, ns.p.crds, before, ns.p.exports, requests, done)
      invariant Walked(ns.p, ns.p.crds, before, ns.p.exports.Keys, requests, ns.requests, done, now, ns.p.faults == old(ns.p.faults))
      decreases |todo|
    {
      var k :| k in todo;
      todo := todo - {k};
      FulfilNext(ns, k, now, before, requests, done, ns.p.faults == old(ns.p.faults));
      done := done + {k};
    }
    AllWalked(ns.p, ns.p.crds, before, ns.p.exports, requests, ns.requests, done, now, ns.p.faults == old(ns.p.faults));
  }

  lemma AllWalked(p: ExportRequest.Provider, crds: map<Name, Json>, before: map<Name, Exports.Export>, left: map<Name, Exports.Export>,
                  requests: Requests, next: Requests, done: set<Name>, now: int, clean: bool)
    requires forall k :: k in requests <==> k in done
    requires ExportRequest.Grown(p.cfg, p.catalogue, crds, Listed(requests), before, left)
    requires clean ==> Delivered(p, crds, before, left, requests, done)
    requires Walked(p, crds, before, left.Keys, requests, next, done, now, clean)
    ensures Fulfilled(p, crds, now, before, requests, left, next, clean)
  {
  }

  /** Where the stored requests stand once those in done have been passed over; clean says that no
      call has failed. */
  ghost predicate Walked(p: ExportRequest.Provider, crds: map<Name, Json>, before: map<Name, Exports.Export>, live: set<Name>,
                         requests: Requests, next: Requests, done: set<Name>, now: int, clean: bool) {
    && (forall k | k in next :: k in requests && Advanced(requests[k], next[k], now, live))
    && (forall k | k in requests && k !in next :: Expired(requests[k], now))
    && (clean ==> forall k | k in done && k in requests :: k in next <==> !Expired(requests[k], now))
    && (clean ==> forall k | k in done && k in next && requests[k].phase == ExportRequest.Pending && Clear(p, crds, before, requests[k]) ::
          next[k].phase == ExportRequest.Succeeded)
  }

  lemma WalkOne(p: ExportRequest.Provider, crds: map<Name, Json>, before: map<Name, Exports.Export>, live: set<Name>, later: set<Name>,
                requests: Requests, mid: Requests, next: Requests, done: set<Name>, k: Name, now: int, at: nat, clean: bool, ok: bool)
    requires Walked(p, crds, before, live, requests, mid, done, now, clean) && live <= later
    requires k in mid && k in requests && mid[k] == requests[k] && k !in done
    requires StoredAfter(mid, next, k, now, later, at, ok)
    requires clean && ok && requests[k].phase == ExportRequest.Pending && Clear(p, crds, before, requests[k]) ==> at == |requests[k].resources|
    ensures Walked(p, crds, before, later, requests, next, done + {k}, now, clean && ok)
  {
    forall j | j in next ensures j in requests && Advanced(requests[j], next[j], now, later) {
      if j != k { assert Advanced(requests[j], mid[j], now, live) && next[j] == mid[j]; }
    }
  }

  /** The body of the loop of Fulfil. */
  method FulfilNext(ns: Namespace, k: Name, now: int, ghost before: map<Name, Exports.Export>, ghost requests: Requests,
                    ghost done: set<Name>, ghost clean: bool)
    requires ns.Valid() && k in ns.requests && k in requests && ns.requests[k] == requests[k] && k !in done
    requires ExportRequest.Grown(ns.p.cfg, ns.p.catalogue, ns.p.crds, Listed(requests), before, ns.p.exports)
    requires clean ==> Delivered(ns.p, ns.p.crds, before, ns.p.exports, requests, done)
    requires Walked(ns.p, ns.p.crds, before, ns.p.exports.Keys, requests, ns.requests, done, now, clean)
    modifies ns`requests, ns.p`exports, ns.p`calls, ns.p`faults, ns.p`log
    ensures ns.Valid() && ns.p.faults >= old(ns.p.faults)
    ensures forall j | j in old(ns.requests) && j != k :: j in ns.requests && ns.requests[j] == old(ns.requests)[j]
    ensures ExportRequest.Grown(ns.p.cfg, ns.p.catalogue, ns.p.crds, Listed(requests), before, ns.p.exports)
    ensures clean && ns.p.faults == old(ns.p.faults) ==> Delivered(ns.p, ns.p.crds, before, ns.p.exports, requests, done + {k})
    ensures Walked(ns.p, ns.p.crds, before, ns.p.exports.Keys, requests, ns.requests, done + {k}, now,
                   clean && ns.p.faults == old(ns.p.faults))
  {
    ghost var exports, mid := ns.p.exports, ns.requests;
    ghost var at := FulfilOne(ns, k, now);
    ghost var ok := ns.p.faults == old(ns.p.faults);
    ExportRequest.PassGrows(ns.p.cfg, ns.p.catalogue, ns.p.crds, Listed(requests), requests[k].resources, before, exports, ns.p.exports);
    if clean && ok {
      DeliverOne(ns.p, ns.p.crds, before, exports, ns.p.exports, requests, done, k, at);
      if requests[k].phase == ExportRequest.Pending && Clear(ns.p, ns.p.crds, before, requests[k]) {
        ExportRequest.ClearedIsPassed(ns.p.cfg, ns.p.catalogue, ns.p.crds, Listed(requests), requests[k].resources,
                                      before, exports, ns.p.exports, at, |requests[k].resources|);
      }
    }
    WalkOne(ns.p, ns.p.crds, before, exports.Keys, ns.p.exports.Keys, requests, mid, ns.requests, done, k, now, at, clean, ok);
  }

  /** An asked-for export whose request is Pending with nothing in its way is promised. */
  lemma AskedIsPromised(p: ExportRequest.Provider, crds: map<Name, Json>, exports: map<Name, Exports.Export>, requests: Requests, n: Name)
    requires Grouped(requests) && Asked(requests, n) && AllOpen(p, crds, exports, requests)
    ensures Promised(p, crds, exports, requests, n)
  {
    var k :| k in requests && AsksFor(requests[k]) == Some(n);
    var r := requests[k];
    assert ExportRequest.CrdName(r.resources[0]) == n;
    assert ExportRequest.Cleared(p.cfg, p.catalogue, crds, exports, r.resources[0]);
    assert ExportRequest.Reaches(p.cfg, p.catalogue, crds, exports, r.resources, n);
  }

  /** All labelled requests are Pending and nothing stands in their way. */
  ghost predicate AllOpen(p: ExportRequest.Provider, crds: map<Name, Json>, exports: map<Name, Exports.Export>, requests: Requests) {
    forall k | k in requests && requests[k].labelled ::
      requests[k].phase == ExportRequest.Pending && Clear(p, crds, exports, requests[k])
  }

  // ---------------------------------------------------------------- a round, told from its start

  /** The exports that a pass without a failed call leaves. */
  function Kept(desired: map<Name, Template>, exports: map<Name, Exports.Export>): map<Name, Exports.Export> {
    map n | n in exports && n in desired :: exports[n]
  }

  /** Nothing stands in the way of what the template of a desired export selects. */
  predicate Selectable(p: ExportRequest.Provider, crds: map<Name, Json>, exports: map<Name, Exports.Export>, t: Template) {
    ExportRequest.Cleared(p.cfg, p.catalogue, crds, exports, Trimmed(t.selector))
  }

  /** A request that a pass will make names the export, and nothing stands in its way. */
  ghost predicate WillBePromised(ns: Namespace, crds: map<Name, Json>, desired: map<Name, Template>,
                                 kept: map<Name, Exports.Export>, before: Requests, n: Name) {
    exists m :: m in Open(desired, kept.Keys, before) && ns.nameOf(desired[m]) !in Surviving(desired, before)
                && ExportRequest.CrdName(Trimmed(desired[m].selector)) == n && Selectable(ns.p, crds, kept, desired[m])
  }

  /** Every resource that is listed or will be. */
  function Pool(desired: map<Name, Template>, requests: Requests): set<GroupResource> {
    Listed(requests) + set n | n in desired :: Trimmed(desired[n].selector)
  }

  /** The exact condition of a round, on the namespace before it: leftovers are single, request
      names apart, and listed resources unambiguous. */
  ghost predicate Orderly(ns: Namespace, c: Catalogue, desired: map<Name, Template>, requests: Requests) {
    && SingleLeftovers(desired, requests) && NamesApart(ns, desired, desired.Keys)
    && forall k | k in requests :: ExportRequest.Unambiguous(c, Pool(desired, requests), requests[k].resources)
  }

  /** With groups, the request made for an export names this export. */
  lemma WillBePromisedGrouped(ns: Namespace, crds: map<Name, Json>, desired: map<Name, Template>,
                              kept: map<Name, Exports.Export>, before: Requests, n: Name)
    requires forall m | m in desired :: ExportName(desired[m]) == m && m != NO_NAME
    requires AllGrouped(desired)
    ensures WillBePromised(ns, crds, desired, kept, before, n)
            <==> n in Open(desired, kept.Keys, before) && ns.nameOf(desired[n]) !in Surviving(desired, before)
                 && Selectable(ns.p, crds, kept, desired[n])
  {
    forall m | m in desired ensures ExportRequest.CrdName(Trimmed(desired[m].selector)) == m {
      NewRequestAsksForExport(desired[m], 0);
    }
  }

  lemma MadeReaches(p: ExportRequest.Provider, crds: map<Name, Json>, exports: map<Name, Exports.Export>, t: Template, now: int, n: Name)
    requires NewRequest(t, now).Some?
    ensures ExportRequest.Reaches(p.cfg, p.catalogue, crds, exports, NewRequest(t, now).value.resources, n)
            <==> ExportRequest.CrdName(Trimmed(t.selector)) == n && Selectable(p, crds, exports, t)
  {
    var resources := NewRequest(t, now).value.resources;
    assert resources == [Trimmed(t.selector)];
    if ExportRequest.CrdName(resources[0]) == n && Selectable(p, crds, exports, t) {
      assert forall j | 0 <= j <= 0 :: ExportRequest.Cleared(p.cfg, p.catalogue, crds, exports, resources[j]);
    }
  }

  /** A request name that no surviving request has goes to the open export that it belongs to. */
  lemma MadeForOpen(ns: Namespace, desired: map<Name, Template>, open: set<Name>, now: int, before: Requests, mid: Requests, m: Name)
    requires SingleLeftovers(desired, before) && NamesApart(ns, desired, open)
    requires RequestsComplete(ns, desired, open, now, before, mid)
    requires m in open && m in desired && ns.nameOf(desired[m]) !in Surviving(desired, before)
    ensures ns.nameOf(desired[m]) in mid && NewRequest(desired[m], now) == Some(mid[ns.nameOf(desired[m])])
  {
    var k := ns.nameOf(desired[m]);
    assert MadeFor(ns, desired, open, now, k, mid[k]);
  }

  lemma PromisedWasExpected(ns: Namespace, crds: map<Name, Json>, desired: map<Name, Template>, open: set<Name>, now: int,
                            kept: map<Name, Exports.Export>, before: Requests, mid: Requests, n: Name)
    requires open == Open(desired, kept.Keys, before) && RequestsProgress(ns, desired, open, now, before, mid)
    requires RequestsComplete(ns, desired, open, now, before, mid) && SingleLeftovers(desired, before)
    requires Promised(ns.p, crds, kept, mid, n)
    ensures Promised(ns.p, crds, kept, Surviving(desired, before), n) || WillBePromised(ns, crds, desired, kept, before, n)
  {
    var k :| k in mid && mid[k].phase == ExportRequest.Pending
             && ExportRequest.Reaches(ns.p.cfg, ns.p.catalogue, crds, kept, mid[k].resources, n);
    if k !in Surviving(desired, before) {
      var m :| m in open && m in desired && ns.nameOf(desired[m]) == k && NewRequest(desired[m], now) == Some(mid[k]);
      MadeReaches(ns.p, crds, kept, desired[m], now, n);
    } else {
      assert Surviving(desired, before)[k] == mid[k];
    }
  }

  lemma SurvivorsPromise(ns: Namespace, crds: map<Name, Json>, desired: map<Name, Template>, open: set<Name>, now: int,
                         kept: map<Name, Exports.Export>, before: Requests, mid: Requests, n: Name)
    requires RequestsProgress(ns, desired, open, now, before, mid)
    requires Promised(ns.p, crds, kept, Surviving(desired, before), n)
    ensures Promised(ns.p, crds, kept, mid, n)
  {
    var survivors := Surviving(desired, before);
    var k :| k in survivors && survivors[k].phase == ExportRequest.Pending
             && ExportRequest.Reaches(ns.p.cfg, ns.p.catalogue, crds, kept, survivors[k].resources, n);
    assert mid[k] == survivors[k];
  }

  lemma MadePromise(ns: Namespace, crds: map<Name, Json>, desired: map<Name, Template>, open: set<Name>, now: int,
                    kept: map<Name, Exports.Export>, before: Requests, mid: Requests, n: Name)
    requires open == Open(desired, kept.Keys, before) && RequestsComplete(ns, desired, open, now, before, mid)
    requires SingleLeftovers(desired, before) && NamesApart(ns, desired, open)
    requires WillBePromised(ns, crds, desired, kept, before, n)
    ensures Promised(ns.p, crds, kept, mid, n)
  {
    var m :| m in open && ns.nameOf(desired[m]) !in Surviving(desired, before)
             && ExportRequest.CrdName(Trimmed(desired[m].selector)) == n && Selectable(ns.p, crds, kept, desired[m]);
    MadeForOpen(ns, desired, open, now, before, mid, m);
    MadeReaches(ns.p, crds, kept, desired[m], now, n);
  }

  lemma PromisedFromStart(ns: Namespace, crds: map<Name, Json>, desired: map<Name, Template>, now: int,
                          exports: map<Name, Exports.Export>, before: Requests,
                          kept: map<Name, Exports.Export>, mid: Requests, n: Name)
    requires AfterPass(ns, desired, now, exports, before, kept, mid, true)
    requires SingleLeftovers(desired, before) && NamesApart(ns, desired, desired.Keys)
    ensures Promised(ns.p, crds, kept, mid, n)
            <==> Promised(ns.p, crds, kept, Surviving(desired, before), n) || WillBePromised(ns, crds, desired, kept, before, n)
  {
    var open := Open(desired, kept.Keys, before);
    if Promised(ns.p, crds, kept, mid, n) {
      PromisedWasExpected(ns, crds, desired, open, now, kept, before, mid, n);
    }
    if Promised(ns.p, crds, kept, Surviving(desired, before), n) {
      SurvivorsPromise(ns, crds, desired, open, now, kept, before, mid, n);
    }
    if WillBePromised(ns, crds, desired, kept, before, n) {
      MadePromise(ns, crds, desired, open, now, kept, before, mid, n);
    }
  }

  lemma MadeShape(ns: Namespace, desired: map<Name, Template>, open: set<Name>, now: int, k: Name, r: RequestObject) returns (m: Name)
    requires MadeFor(ns, desired, open, now, k, r)
    ensures m in open && m in desired && r == RequestObject([Trimmed(desired[m].selector)], now, ExportRequest.Pending, true)
  {
    m :| m in open && m in desired && ns.nameOf(desired[m]) == k && NewRequest(desired[m], now) == Some(r);
  }

  lemma StaysUnambiguous(ns: Namespace, c: Catalogue, desired: map<Name, Template>, now: int,
                         exports: map<Name, Exports.Export>, before: Requests,
                         kept: map<Name, Exports.Export>, mid: Requests)
    requires AfterPass(ns, desired, now, exports, before, kept, mid, true) && Orderly(ns, c, desired, before)
    ensures AllUnambiguous(c, mid)
  {
    var open := Open(desired, kept.Keys, before);
    forall k | k in mid
      ensures forall res | res in mid[k].resources :: res in Pool(desired, before)
      ensures ExportRequest.Unambiguous(c, Pool(desired, before), mid[k].resources)
    {
      if k !in Surviving(desired, before) {
        var m := MadeShape(ns, desired, open, now, k, mid[k]);
      } else {
        assert mid[k] == before[k];
      }
    }
    assert forall res | res in Listed(mid) :: res in Pool(desired, before);
  }

  /** The exports after a round, told from the namespace before it. */
  ghost predicate Expected(ns: Namespace, crds: map<Name, Json>, desired: map<Name, Template>,
                           exports: map<Name, Exports.Export>, before: Requests, n: Name) {
    var kept := Kept(desired, exports);
    n in kept || Promised(ns.p, crds, kept, Surviving(desired, before), n) || WillBePromised(ns, crds, desired, kept, before, n)
  }

  ghost predicate RoundExact(ns: Namespace, crds: map<Name, Json>, desired: map<Name, Template>,
                             exports: map<Name, Exports.Export>, before: Requests, after: map<Name, Exports.Export>) {
    forall n :: n in after <==> Expected(ns, crds, desired, exports, before, n)
  }

  lemma RoundIsExact(ns: Namespace, crds: map<Name, Json>, desired: map<Name, Template>, now: int,
                     exports: map<Name, Exports.Export>, before: Requests,
                     between: map<Name, Exports.Export>, mid: Requests,
                     after: map<Name, Exports.Export>, next: Requests)
    requires AfterPass(ns, desired, now, exports, before, between, mid, true)
    requires Fulfilled(ns.p, crds, now, between, mid, after, next, true)
    requires Orderly(ns, ns.p.catalogue, desired, before)
    ensures RoundExact(ns, crds, desired, exports, before, after)
  {
    assert between == Kept(desired, exports);
    StaysUnambiguous(ns, ns.p.catalogue, desired, now, exports, before, between, mid);
    forall n ensures Promised(ns.p, crds, between, mid, n)
                     <==> Promised(ns.p, crds, between, Surviving(desired, before), n)
                          || WillBePromised(ns, crds, desired, between, before, n)
    {
      PromisedFromStart(ns, crds, desired, now, exports, before, between, mid, n);
    }
  }

  /** Before the round, nothing stands in the way of the labelled requests or of what is desired, and
      names are free. */
  ghost predicate Smooth(ns: Namespace, crds: map<Name, Json>, desired: map<Name, Template>,
                         exports: map<Name, Exports.Export>, requests: Requests) {
    && Grouped(requests) && AllGrouped(desired) && NamesFree(ns, desired, requests)
    && AllOpen(ns.p, crds, Kept(desired, exports), requests)
    && forall n | n in desired :: Selectable(ns.p, crds, Kept(desired, exports), desired[n])
  }

  lemma StaysOpen(ns: Namespace, crds: map<Name, Json>, desired: map<Name, Template>, now: int,
                  kept: map<Name, Exports.Export>, before: Requests, mid: Requests)
    requires RequestsProgress(ns, desired, Open(desired, kept.Keys, before), now, before, mid)
    requires AllOpen(ns.p, crds, kept, before) && forall n | n in desired :: Selectable(ns.p, crds, kept, desired[n])
    ensures AllOpen(ns.p, crds, kept, mid)
  {
    forall k | k in mid && mid[k].labelled
      ensures mid[k].phase == ExportRequest.Pending && Clear(ns.p, crds, kept, mid[k])
    {
      if !(k in before && mid[k] == before[k]) {
        var m := MadeShape(ns, desired, Open(desired, kept.Keys, before), now, k, mid[k]);
        assert Selectable(ns.p, crds, kept, desired[m]);
      }
    }
  }

  lemma RoundServesAll(ns: Namespace, crds: map<Name, Json>, desired: map<Name, Template>, now: int,
                       exports: map<Name, Exports.Export>, before: Requests,
                       between: map<Name, Exports.Export>, mid: Requests,
                       after: map<Name, Exports.Export>, next: Requests)
    requires forall m | m in desired :: ExportName(desired[m]) == m && m != NO_NAME
    requires AfterPass(ns, desired, now, exports, before, between, mid, true)
    requires Fulfilled(ns.p, crds, now, between, mid, after, next, true)
    requires Smooth(ns, crds, desired, exports, before)
    ensures forall n | n in desired :: n in after
  {
    var open := Open(desired, between.Keys, before);
    assert between == Kept(desired, exports);
    StaysOpen(ns, crds, desired, now, between, before, mid);
    AllServed(ns, desired, between.Keys, now, before, mid);
    MadeAreGrouped(ns, desired, open, now, before, mid);
    forall n | n in desired && n !in between ensures n in after {
      AskedIsPromised(ns.p, crds, between, mid, n);
    }
  }

  /** What a round comes to if no call fails.
      - From an orderly namespace, the exports afterwards are exactly the desired ones that existed,
        those that a Pending request named with nothing in its way, and those named by the requests
        that the first pass makes, with nothing in their way.
      - From a smooth namespace, every desired export comes into being under the name that is
        looked for. */
  ghost predicate RoundCorrect(ns: Namespace, crds: map<Name, Json>, desired: map<Name, Template>,
                               exports: map<Name, Exports.Export>, before: Requests, after: map<Name, Exports.Export>) {
    && (Orderly(ns, ns.p.catalogue, desired, before) ==> RoundExact(ns, crds, desired, exports, before, after))
    && (Smooth(ns, crds, desired, exports, before) ==> forall n | n in desired :: n in after)
  }

  lemma RoundIsCorrect(ns: Namespace, crds: map<Name, Json>, desired: map<Name, Template>, now: int,
                       exports: map<Name, Exports.Export>, before: Requests,
                       between: map<Name, Exports.Export>, mid: Requests,
                       after: map<Name, Exports.Export>, next: Requests)
    requires forall m | m in desired :: ExportName(desired[m]) == m && m != NO_NAME
    requires AfterPass(ns, desired, now, exports, before, between, mid, true)
    requires Fulfilled(ns.p, crds, now, between, mid, after, next, true)
    ensures RoundCorrect(ns, crds, desired, exports, before, after)
  {
    if Orderly(ns, ns.p.catalogue, desired, before) {
      RoundIsExact(ns, crds, desired, now, exports, before, between, mid, after, next);
    }
    if Smooth(ns, crds, desired, exports, before) {
      RoundServesAll(ns, crds, desired, now, exports, before, between, mid, after, next);
    }
  }

  /** A pass of this controller and then one of the request controller over every request in the
      namespace, whoever made it. between and mid are the exports and the requests after the first
      pass. */
  method Round(ns: Namespace, c: Catalogue, apiExports: seq<GroupResource>, now: int)
    returns (ghost between: map<Name, Exports.Export>, ghost mid: Requests)
    requires ns.Valid()
    modifies ns`requests, ns.p`exports, ns.p`calls, ns.p`faults, ns.p`log
    ensures ns.Valid() && ns.p.faults >= old(ns.p.faults)
    ensures AfterPass(ns, Desired(c, apiExports), now, old(ns.p.exports), old(ns.requests), between, mid, ns.p.faults == old(ns.p.faults))
    ensures Fulfilled(ns.p, ns.p.crds, now, between, mid, ns.p.exports, ns.requests, ns.p.faults == old(ns.p.faults))
    ensures ns.p.faults == old(ns.p.faults) ==>
              RoundCorrect(ns, ns.p.crds, Desired(c, apiExports), old(ns.p.exports), old(ns.requests), ns.p.exports)
  {
    ghost var desired, exports, before := Desired(c, apiExports), ns.p.exports, ns.requests;
    DesiredTemplates(c, apiExports, now);
    var err := EnsureServiceExportRequests(ns, c, apiExports, now);
    between, mid := ns.p.exports, ns.requests;
    Fulfil(ns, now);
    if ns.p.faults == old(ns.p.faults) {
      RoundIsCorrect(ns, ns.p.crds, desired, now, exports, before, between, mid, ns.p.exports, ns.requests);
    }
  }

  /** Whether every desired export exists after a round without a failed call. */
  ghost predicate SettledRightly(ns: Namespace, crds: map<Name, Json>, desired: map<Name, Template>,
                                 exports: map<Name, Exports.Export>, before: Requests, settled: bool) {
    && (Orderly(ns, ns.p.catalogue, desired, before) ==>
          (settled <==> forall n | n in desired :: Expected(ns, crds, desired, exports, before, n)))
    && (Smooth(ns, crds, desired, exports, before) ==> settled)
  }

  lemma RoundSettles(ns: Namespace, crds: map<Name, Json>, desired: map<Name, Template>,
                     exports: map<Name, Exports.Export>, before: Requests, after: map<Name, Exports.Export>, settled: bool)
    requires RoundCorrect(ns, crds, desired, exports, before, after)
    requires settled <==> forall n | n in desired :: n in after
    ensures SettledRightly(ns, crds, desired, exports, before, settled)
  {
  }

  /** A pass leaves the desired exports that exist; once they all do, it makes no request. */
  lemma NothingOpen(ns: Namespace, desired: map<Name, Template>, now: int, exports: map<Name, Exports.Export>, before: Requests,
                    left: map<Name, Exports.Export>, next: Requests, clean: bool)
    requires AfterPass(ns, desired, now, exports, before, left, next, clean)
    ensures forall n | n in desired :: n in left <==> n in exports
    ensures (forall n | n in desired :: n in left) ==> forall k | k in next :: k in before && next[k] == before[k]
  {
    if forall n | n in desired :: n in left {
      assert Open(desired, left.Keys, before) == {};
    }
  }

  /** A round and another pass of this controller. settled tells whether every desired export
      exists; then that pass makes no request. */
  method Converge(ns: Namespace, c: Catalogue, apiExports: seq<GroupResource>, now: int) returns (settled: bool, ghost later: Requests)
    requires ns.Valid()
    modifies ns`requests, ns.p`exports, ns.p`calls, ns.p`faults, ns.p`log
    ensures ns.Valid() && ns.p.faults >= old(ns.p.faults)
    ensures settled <==> forall n | n in Desired(c, apiExports) :: n in ns.p.exports
    ensures ns.p.faults == old(ns.p.faults) ==>
              SettledRightly(ns, ns.p.crds, Desired(c, apiExports), old(ns.p.exports), old(ns.requests), settled)
    ensures settled ==> forall k | k in ns.requests :: k in later && ns.requests[k] == later[k]
  {
    ghost var desired := Desired(c, apiExports);
    ghost var between, mid := Round(ns, c, apiExports, now);
    later := ns.requests;
    ghost var exports, faults := ns.p.exports, ns.p.faults;
    var err := EnsureServiceExportRequests(ns, c, apiExports, now);
    settled := Desired(c, apiExports).Keys <= ns.p.exports.Keys;
    NothingOpen(ns, desired, now, exports, later, ns.p.exports, ns.requests, ns.p.faults == faults);
    if ns.p.faults == old(ns.p.faults) {
      RoundSettles(ns, ns.p.crds, desired, old(ns.p.exports), old(ns.requests), exports, settled);
    }
  }

  /** A request that is kept after it has reached its phase stands in the way of its own export: an
      export that is asked for by such requests only is not promised after a pass, so the round does
      not bring it back. */
  lemma KeptRequestBlocks(ns: Namespace, crds: map<Name, Json>, desired: map<Name, Template>, between: map<Name, Exports.Export>,
                          now: int, before: Requests, mid: Requests, n: Name)
    requires forall m | m in desired :: ExportName(desired[m]) == m && m != NO_NAME
    requires AllGrouped(desired) && RequestsProgress(ns, desired, Open(desired, between.Keys, before), now, before, mid)
    requires Asked(before, n)
    requires forall k, i | k in before && 0 <= i < |before[k].resources| && ExportRequest.CrdName(before[k].resources[i]) == n ::
               before[k].phase != ExportRequest.Pending
    ensures !Promised(ns.p, crds, between, mid, n)
  {
    forall k, i | k in mid && 0 <= i < |mid[k].resources| && ExportRequest.CrdName(mid[k].resources[i]) == n
      ensures mid[k].phase != ExportRequest.Pending
    {
      if !(k in before && mid[k] == before[k]) {
        assert MadeFor(ns, desired, Open(desired, between.Keys, before), now, k, mid[k]);
      }
    }
  }

  /** A template as the catalogue lists it, selecting a resource with a group. */
  predicate Plain(t: Template) {
    t.selector == Trimmed(t.selector) && t.selector.group != "" && t.selector.resource != ""
  }

  lemma PlainIsDesired(t: Template)
    requires Plain(t)
    ensures Desired(Catalogue([t], {}), [t.selector]) == map[ExportName(t) := t] && ExportName(t) != NO_NAME
    ensures ExportRequest.CrdName(t.selector) == ExportName(t) && TemplateFor(Catalogue([t], {}), t.selector) == Some(t)
    ensures NewRequest(t, 0) == Some(RequestObject([t.selector], 0, ExportRequest.Pending, true))
  {
    var refs := [t.selector];
    assert Resolve(Catalogue([t], {}), t.selector) == Resolved(t);
    assert refs[..0] == [];
  }

  /** The namespace holds one request, for one template, in the given phase. */
  ghost predicate HoldsOne(ns: Namespace, t: Template, crd: Json, phase: ExportRequest.Phase)
    reads ns, ns.p
  {
    && ns.Valid() && ns.p.Reliable() && ns.p.catalogue == Catalogue([t], {})
    && ns.p.crds == map[ExportName(t) := crd] && ns.p.cfg.convert(crd).Some?
    && ns.requests == map[ns.nameOf(t) := RequestObject([t.selector], 0, phase, true)]
  }

  /** The requests after the first pass, and why the only one is fulfilled. */
  lemma FirstRequests(ns: Namespace, t: Template, crds: map<Name, Json>, between: map<Name, Exports.Export>, mid: Requests)
    requires Plain(t) && ns.p.catalogue == Catalogue([t], {}) && between == map[]
    requires ExportName(t) in crds && ns.p.cfg.convert(crds[ExportName(t)]).Some?
    requires var desired := map[ExportName(t) := t];
             var open := Open(desired, between.Keys, map[]);
             && RequestsProgress(ns, desired, open, 0, map[], mid)
             && forall n | n in open :: ns.nameOf(desired[n]) in mid
    ensures mid == map[ns.nameOf(t) := RequestObject([t.selector], 0, ExportRequest.Pending, true)]
    ensures Clear(ns.p, crds, between, mid[ns.nameOf(t)])
  {
    PlainIsDesired(t);
    var n, k, desired := ExportName(t), ns.nameOf(t), map[ExportName(t) := t];
    var open := Open(desired, between.Keys, map[]);
    assert n in open;
    forall j | j in mid ensures j == k && mid[j] == RequestObject([t.selector], 0, ExportRequest.Pending, true) {
      assert MadeFor(ns, desired, open, 0, j, mid[j]);
    }
  }

  /** A single request stays single through a round in which it does not expire. */
  lemma OneStays(mid: Requests, after: Requests, k: Name, r: RequestObject, live: set<Name>)
    requires mid == map[k := r] && k in after
    requires forall j | j in after :: j in mid && Advanced(mid[j], after[j], 0, live)
    ensures after == map[k := r.(phase := after[k].phase)] && Advanced(r, after[k], 0, live)
  {
    assert after[k] == r.(phase := after[k].phase);
  }

  /** The first round makes the request and fulfils it. */
  method FirstRound(ns: Namespace, t: Template, crd: Json)
    requires Plain(t) && ns.Valid() && ns.p.Reliable() && ns.p.catalogue == Catalogue([t], {})
    requires ns.p.crds == map[ExportName(t) := crd] && ns.p.cfg.convert(crd).Some? && ns.requests == map[] && ns.p.exports == map[]
    modifies ns`requests, ns.p`exports, ns.p`calls, ns.p`faults, ns.p`log
    ensures HoldsOne(ns, t, crd, ExportRequest.Succeeded)
  {
    PlainIsDesired(t);
    ghost var between, mid := Round(ns, ns.p.catalogue, [t.selector], 0);
    assert between == map[];
    FirstRequests(ns, t, ns.p.crds, between, mid);
    OneStays(mid, ns.requests, ns.nameOf(t), mid[ns.nameOf(t)], ns.p.exports.Keys);
  }

  /** After the second pass of the first controller there is still that one request. */
  lemma SameRequests(ns: Namespace, t: Template, between: map<Name, Exports.Export>, before: Requests, mid: Requests)
    requires Plain(t) && before == map[ns.nameOf(t) := RequestObject([t.selector], 0, ExportRequest.Succeeded, true)]
    requires var desired := map[ExportName(t) := t];
             RequestsProgress(ns, desired, Open(desired, between.Keys, before), 0, before, mid)
    ensures mid == before && Asked(before, ExportName(t))
  {
    PlainIsDesired(t);
    var n, k, desired := ExportName(t), ns.nameOf(t), map[ExportName(t) := t];
    assert AsksFor(before[k]) == Some(n);
    assert Open(desired, between.Keys, before) == {};
    assert k in mid;
    assert forall j | j in mid :: j in before && mid[j] == before[j];
  }

  lemma NotBroughtBack(p: ExportRequest.Provider, crds: map<Name, Json>, between: map<Name, Exports.Export>, mid: Requests,
                       after: map<Name, Exports.Export>, next: Requests, k: Name, n: Name)
    requires Fulfilled(p, crds, 0, between, mid, after, next, true) && !Promised(p, crds, between, mid, n) && n !in between
    requires k in mid && mid.Keys == {k} && |mid[k].resources| == 1
    ensures n !in after
  {
    assert AllUnambiguous(p.catalogue, mid);
  }

  /** A round over a request that has succeeded leaves its missing export missing. */
  method StuckRound(ns: Namespace, t: Template, crd: Json)
    requires Plain(t) && HoldsOne(ns, t, crd, ExportRequest.Succeeded) && ExportName(t) !in ns.p.exports
    modifies ns`requests, ns.p`exports, ns.p`calls, ns.p`faults, ns.p`log
    ensures HoldsOne(ns, t, crd, ExportRequest.Succeeded) && ExportName(t) !in ns.p.exports
  {
    PlainIsDesired(t);
    ghost var before := ns.requests;
    ghost var between, mid := Round(ns, ns.p.catalogue, [t.selector], 0);
    SameRequests(ns, t, between, before, mid);
    KeptRequestBlocks(ns, ns.p.crds, map[ExportName(t) := t], between, 0, before, mid, ExportName(t));
    NotBroughtBack(ns.p, ns.p.crds, between, mid, ns.p.exports, ns.requests, ns.nameOf(t), ExportName(t));
    OneStays(mid, ns.requests, ns.nameOf(t), mid[ns.nameOf(t)], ns.p.exports.Keys);
  }

  /** The CRD goes, its export is deleted, and the CRD comes back. */
  method Outage(ns: Namespace, t: Template, crd: Json)
    requires HoldsOne(ns, t, crd, ExportRequest.Succeeded)
    modifies ns.p
    ensures HoldsOne(ns, t, crd, ExportRequest.Succeeded) && ExportName(t) !in ns.p.exports
  {
    ns.p.crds := map[];
    ns.p.Delete(ExportName(t));
    ns.p.crds := map[ExportName(t) := crd];
  }

  /** Such a state is reached by a run in which every call succeeds: a request is made and fulfilled,
      its CRD goes and takes the export with it, the CRD comes back, and the next round leaves the
      desired export missing because the request has already succeeded. */
  method StuckRun(cfg: Exports.Config, t: Template, crd: Json, nameOf: Template -> Name) returns (ns: Namespace)
    requires Plain(t) && cfg.convert(crd).Some?
    ensures HoldsOne(ns, t, crd, ExportRequest.Succeeded) && ExportName(t) !in ns.p.exports
    ensures ExportName(t) in Desired(ns.p.catalogue, [t.selector])
  {
    PlainIsDesired(t);
    var p := new ExportRequest.Provider(cfg, Catalogue([t], {}), _ => (true, true), map[ExportName(t) := crd]);
    ns := new Namespace(p, nameOf);
    FirstRound(ns, t, crd);
    Outage(ns, t, crd);
    StuckRound(ns, t, crd);
  }

  /** The names that Names gives to requests are apart whenever the hashes of the template names
      differ. */
  lemma HashedNamesApart(ns: Namespace, bindingName: string, hash: string -> nat, desired: map<Name, Template>, open: set<Name>)
    requires forall t :: ns.nameOf(t) == Name(Names.RequestName(bindingName, t.name, hash(t.name)))
    requires forall t: string :: hash(t) < 0x1_0000_0000
    requires forall a, b | a in desired && b in desired && a != b :: hash(desired[a].name) != hash(desired[b].name)
    ensures NamesApart(ns, desired, open)
  {
    forall a, b | a in open && b in open && a in desired && b in desired && a != b
      ensures ns.nameOf(desired[a]) != ns.nameOf(desired[b])
    {
      Names.RequestNamesDiffer(bindingName, desired[a].name, hash(desired[a].name), desired[b].name, hash(desired[b].name));
    }
  }
}
