/** The service-instance controller: observe, create, update and delete around a pending
    asynchronous operation (controller/serviceinstance/serviceinstance.go). Every reply of the
    broker is an input. */
module ServiceInstance {
  import opened JsonDoc
  import opened OrderedCompare
  import opened ParameterDiff

  datatype Answer<T> = Got(value: T) | Missing | Errored

  /** GetInstance: the fields that the controller keeps or compares. */
  datatype Instance = Instance(state: string, planID: string, serviceID: string, instanceID: string,
                               organization: string, space: string)

  datatype Plan = Plan(serviceID: string, planID: string)

  /** A reply to a provision, update or deprovision request. */
  datatype CallReply = Refused | NotThere | Sync | Async(key: Option<string>)

  datatype Observation = Observation(state: string, planID: string, serviceID: string, instanceID: string,
                                     parameters: Option<RawParams>)

  datatype Ready = Unknown | Creating | Available | Deleting | Unavailable | Erroneous

  /** The managed resource, as the pass holds it in memory. */
  class Managed {
    var spec: Spec
    var atProvider: Observation
    var pending: Option<string>
    var ready: Ready

    constructor (spec: Spec)
      ensures this.spec == spec && pending == None && atProvider.instanceID == ""
    {
      this.spec := spec;
      atProvider := Observation("", "", "", "", None);
      pending, ready := None, Unknown;
    }
  }

  datatype Verdict = ObserveFailed | Absent | Present(upToDate: bool)

  const MAX_ATTEMPTS := 10

  /** The first candidate that the broker does not know, if only known ones come before it. */
  function FreshID(candidates: seq<(string, Answer<Instance>)>, i: nat): Option<string>
    requires |candidates| >= MAX_ATTEMPTS
    decreases MAX_ATTEMPTS - i
  {
    if i >= MAX_ATTEMPTS then None
    else match candidates[i].1
      case Missing => Some(candidates[i].0)
      case Errored => None
      case Got(_) => FreshID(candidates, i + 1)
  }

  /** genAndCheckUID: candidates with the broker's answer to each. */
  method GenAndCheckUID(candidates: seq<(string, Answer<Instance>)>) returns (uid: Option<string>)
    requires |candidates| >= MAX_ATTEMPTS
    ensures uid == FreshID(candidates, 0)
    ensures uid.Some? ==> exists i | 0 <= i < MAX_ATTEMPTS ::
              candidates[i].0 == uid.value && candidates[i].1 == Missing && forall j | 0 <= j < i :: candidates[j].1.Got?
    ensures uid.None? ==> (exists i | 0 <= i < MAX_ATTEMPTS ::
                             candidates[i].1 == Errored && forall j | 0 <= j < i :: candidates[j].1.Got?)
                          || (forall j | 0 <= j < MAX_ATTEMPTS :: candidates[j].1.Got?)
  {
    for i := 0 to MAX_ATTEMPTS
      invariant forall j | 0 <= j < i :: candidates[j].1.Got?
      invariant FreshID(candidates, 0) == FreshID(candidates, i)
    {
      var answer := candidates[i].1;
      if answer == Missing {
        return Some(candidates[i].0);
      }
      if answer == Errored {
        return None;
      }
    }
    return None;
  }

  /** getInstanceAndUpdateObservation. A deleted instance counts as absent. */
  method GetInstanceAndUpdateObservation(m: Managed, enc: Encoding, instance: Answer<Instance>, service: Answer<Option<Fields>>)
    returns (r: Answer<Instance>)
    modifies m`atProvider
    ensures r.Got? ==> r == instance
    ensures r.Got? <==> instance.Got? && service.Got? && instance.value.state != "deleted"
    ensures r == Errored <==> instance == Errored || (instance.Got? && service == Errored)
    ensures instance.Got? && service.Got? ==>
              m.atProvider == Observation(instance.value.state, instance.value.planID, instance.value.serviceID, instance.value.instanceID,
                                          if service.value.Some? then Some(Encoded(enc, service.value.value)) else None)
    ensures !(instance.Got? && service.Got?) ==> m.atProvider == old(m.atProvider)
  {
    if !instance.Got? {
      return instance;
    }
    if !service.Got? {
      return if service == Missing then Missing else Errored;
    }
    var params := ServiceBrokerParamsToKubernetes(enc, service.value);
    var i := instance.value;
    m.atProvider := Observation(i.state, i.planID, i.serviceID, i.instanceID, params);
    if m.atProvider.state == "deleted" {
      return Missing;
    }
    return instance;
  }

  /** processPendingOperation; operation is the state the broker reports, None an error. */
  method ProcessPendingOperation(m: Managed, operation: Option<string>) returns (err: bool)
    modifies m`pending
    ensures old(m.pending) == None ==> m.pending == None && !err
    ensures old(m.pending).Some? ==> (m.pending == None <==> operation == Some("succeeded") || operation == Some("failed"))
    ensures m.pending == None || m.pending == old(m.pending)
    ensures old(m.pending).Some? ==> (err <==> operation == None || operation == Some("failed"))
  {
    err := false;
    if m.pending.Some? {
      if operation == None {
        return true;
      }
      if operation.value == "succeeded" {
        m.pending := None;
      } else if operation.value == "failed" {
        m.pending := None;
        return true;
      }
    }
  }

  method SetConditions(m: Managed)
    modifies m`ready
    ensures m.pending.Some? ==> m.ready == Unavailable
    ensures m.ready == Available <==> m.pending == None && m.atProvider.state in {"provisioned", "available"}
    ensures m.ready == Creating <==> m.pending == None && m.atProvider.state in {"created", "deploying"}
    ensures m.ready == Deleting <==> m.pending == None && m.atProvider.state == "deleting"
    ensures m.ready == Erroneous <==>
              (m.pending == None && m.atProvider.state !in {"provisioned", "available", "created", "deploying", "deleting", "failed"})
    ensures m.ready != Unknown
  {
    if m.pending.Some? {
      m.ready := Unavailable;
      return;
    }
    var s := m.atProvider.state;
    m.ready := if s == "created" || s == "deploying" then Creating
               else if s == "provisioned" || s == "available" then Available
               else if s == "deleting" then Deleting
               else if s == "failed" then Unavailable
               else Erroneous;
  }

  method IsResourceUpToDate(m: Managed, instance: Instance, desiredPlanID: string) returns (upToDate: bool)
    ensures upToDate <==>
              m.pending.Some?
              || (Matches(m.spec, instance.organization, instance.space, m.atProvider.parameters)
                  && desiredPlanID == m.atProvider.planID)
    ensures m.spec.context.Some? || m.spec.identity.Some? ==> (upToDate <==> m.pending.Some?)
  {
    if m.pending == None {
      var specMatchesObserved := SpecMatchesObservedState(m.spec, instance.organization, instance.space, m.atProvider.parameters);
      if !specMatchesObserved {
        return false;
      }
      return desiredPlanID == m.atProvider.planID;
    }
    return true;
  }

  /** The broker does not know the instance, or reports it deleted. */
  predicate Gone(instance: Answer<Instance>, service: Answer<Option<Fields>>) {
    instance == Missing || (instance.Got? && (service == Missing || (service.Got? && instance.value.state == "deleted")))
  }

  /** What the broker says to one Observe. */
  datatype Replies = Replies(uids: seq<(string, Answer<Instance>)>, plan: Option<Plan>, instance: Answer<Instance>,
                             service: Answer<Option<Fields>>, operation: Option<string>)
  {
    predicate Enough() { |uids| >= MAX_ATTEMPTS }
  }

  /** What an Observe makes of the status, and its verdict. */
  function Seen(enc: Encoding, spec: Spec, at: Observation, pending: Option<string>, r: Replies): (Observation, Option<string>, Verdict)
    requires r.Enough()
  {
    if at.instanceID == "" then
      var id := FreshID(r.uids, 0);
      (if id.Some? then at.(instanceID := id.value) else at, pending, ObserveFailed)
    else if spec.serviceName == None || spec.planName == None || r.plan == None then (at, pending, ObserveFailed)
    else if !r.instance.Got? then (at, pending, if r.instance == Missing then Absent else ObserveFailed)
    else if !r.service.Got? then (at, pending, if r.service == Missing then Absent else ObserveFailed)
    else
      var i := r.instance.value;
      var now := Observation(i.state, i.planID, i.serviceID, i.instanceID,
                             if r.service.value.Some? then Some(Encoded(enc, r.service.value.value)) else None);
      if i.state == "deleted" then (now, pending, Absent)
      else if pending.Some? && r.operation == None then (now, pending, ObserveFailed)
      else if pending.Some? && r.operation == Some("failed") then (now, None, ObserveFailed)
      else
        var left := if r.operation == Some("succeeded") then None else pending;
        (now, left, Present(left.Some? || (Matches(spec, i.organization, i.space, now.parameters) && r.plan.value.planID == i.planID)))
  }

  /** An instance without an id gets the first candidate that the broker does not know, if the lookups
      before it found an instance each. */
  ghost predicate NewID(uids: seq<(string, Answer<Instance>)>, before: Observation, after: Observation)
    requires |uids| >= MAX_ATTEMPTS
  {
    && (forall i | 0 <= i < MAX_ATTEMPTS && FirstUnknown(uids, i) :: after == before.(instanceID := uids[i].0))
    && ((forall i | 0 <= i < MAX_ATTEMPTS :: !FirstUnknown(uids, i)) ==> after == before)
  }

  predicate FirstUnknown(uids: seq<(string, Answer<Instance>)>, i: nat)
    requires i < |uids|
  {
    uids[i].1 == Missing && forall j | 0 <= j < i :: uids[j].1.Got?
  }

  /** Observe.
      - While an operation is pending and goes on, a present instance counts as up to date.
      - An instance is reported out of date only when nothing is pending.
      - An up-to-date instance with nothing pending has the desired plan, and the update of its
        parameters is nil. */
  method Observe(m: Managed, enc: Encoding, dec: Decoding, r: Replies) returns (v: Verdict)
    requires r.Enough()
    modifies m
    ensures m.spec == old(m.spec)
    ensures (m.atProvider, m.pending, v) == Seen(enc, m.spec, old(m.atProvider), old(m.pending), r)
    ensures m.pending == old(m.pending)
            || (m.pending == None && (r.operation == Some("succeeded") || r.operation == Some("failed")))
    ensures !v.Present? && m.pending != old(m.pending) ==> v == ObserveFailed && r.operation == Some("failed")
    ensures v != ObserveFailed ==> m.spec.serviceName.Some? && m.spec.planName.Some? && r.plan.Some? && old(m.atProvider.instanceID) != ""
    ensures old(m.atProvider.instanceID) == "" ==>
              v == ObserveFailed && m.pending == old(m.pending) && NewID(r.uids, old(m.atProvider), m.atProvider)
    ensures v == Absent <==>
              old(m.atProvider.instanceID) != "" && m.spec.serviceName.Some? && m.spec.planName.Some? && r.plan.Some?
              && Gone(r.instance, r.service)
    ensures v.Present? ==> (m.pending == None <==> old(m.pending) == None || r.operation == Some("succeeded"))
    ensures v == Present(false) ==> m.pending == None
    ensures v.Present? && m.pending.Some? ==> v.upToDate && m.ready == Unavailable
    ensures v.Present? && m.pending == None ==>
              && (m.ready == Available <==> m.atProvider.state in {"provisioned", "available"})
              && (m.ready == Creating <==> m.atProvider.state in {"created", "deploying"})
              && (m.ready == Deleting <==> m.atProvider.state == "deleting")
              && (m.ready == Unavailable <==> m.atProvider.state == "failed")
    ensures v.Present? && m.pending == None ==>
              (v.upToDate <==> r.instance.Got?
                               && Matches(m.spec, r.instance.value.organization, r.instance.value.space, m.atProvider.parameters)
                               && r.plan.value.planID == m.atProvider.planID)
    ensures v == Present(true) && m.pending == None ==> m.spec.context == None && m.spec.identity == None
    ensures v == Present(true) && m.pending == None ==>
              && m.spec.acceptsIncomplete == Some(true) && r.instance.Got?
              && m.spec.organization == (if r.instance.value.organization == "" then None else Some(r.instance.value.organization))
              && m.spec.space == (if r.instance.value.space == "" then None else Some(r.instance.value.space))
              && OrEmpty(m.spec.parameters) == OrEmpty(m.atProvider.parameters)
    ensures v == Present(true) && m.pending == None ==>
              UpdateFor(enc, Broker(ToBroker(dec, m.atProvider.parameters)), Broker(ToBroker(dec, m.spec.parameters))) == None
  {
    if m.atProvider.instanceID == "" {
      var uid := GenAndCheckUID(r.uids);
      if uid.Some? {
        ghost var i :| 0 <= i < MAX_ATTEMPTS && r.uids[i].0 == uid.value && r.uids[i].1 == Missing && forall j | 0 <= j < i :: r.uids[j].1.Got?;
        assert FirstUnknown(r.uids, i);
        m.atProvider := m.atProvider.(instanceID := uid.value);
      }
      return ObserveFailed;
    }
    if m.spec.serviceName == None || m.spec.planName == None {
      return ObserveFailed;
    }
    if r.plan == None {
      return ObserveFailed;
    }
    var instance := GetInstanceAndUpdateObservation(m, enc, r.instance, r.service);
    if instance == Errored {
      return ObserveFailed;
    }
    if instance == Missing {
      return Absent;
    }
    var err := ProcessPendingOperation(m, r.operation);
    if err {
      return ObserveFailed;
    }
    SetConditions(m);
    var upToDate := IsResourceUpToDate(m, instance.value, r.plan.value.planID);
    if upToDate && m.pending == None {
      MatchMeansNoUpdate(enc, dec, m.spec, instance.value.organization, instance.value.space, m.atProvider.parameters);
    }
    return Present(upToDate);
  }

  // ---------------------------------------------------------------- requests to the broker

  /** How a call of Create, Update or Delete ends. Crashed is a nil dereference: an unset pointer
      of the spec, an asynchronous reply without a key, or a deprovision request for an instance
      that the broker does not know. */
  datatype Ending = Done | Failed | Crashed

  /** What the spec says of every request that creates or changes an instance. */
  datatype Terms = Terms(acceptsIncomplete: bool, organization: string, space: string)

  datatype UpdateRequest = UpdateRequest(instanceID: string, plan: Plan, parameters: Option<Fields>, terms: Terms)

  datatype ProvisionRequest = ProvisionRequest(instanceID: string, plan: Plan, parameters: Option<Fields>, terms: Terms)

  datatype DeprovisionRequest = DeprovisionRequest(instanceID: string, plan: Plan, acceptsIncomplete: bool)

  predicate Complete(s: Spec) {
    s.acceptsIncomplete.Some? && s.organization.Some? && s.space.Some?
  }

  function TermsOf(s: Spec): Terms
    requires Complete(s)
  {
    Terms(s.acceptsIncomplete.value, s.organization.value, s.space.value)
  }

  /** How a call ends once its request was sent. */
  function EndingOf(reply: CallReply): Ending {
    match reply
    case Refused => Failed
    case NotThere => Failed
    case Sync => Done
    case Async(key) => if key.Some? then Done else Crashed
  }

  function PendingAfter(before: Option<string>, reply: CallReply): Option<string> {
    if reply.Async? && reply.key.Some? then reply.key else before
  }

  /** What Create, Update and Delete make of the reply. */
  method Finish(m: Managed, reply: CallReply) returns (e: Ending)
    modifies m`pending
    ensures e == EndingOf(reply) && m.pending == PendingAfter(old(m.pending), reply)
    ensures e == Done <==> reply == Sync || (reply.Async? && reply.key.Some?)
    ensures e == Failed <==> reply == Refused || reply == NotThere
  {
    match reply {
      case Refused => e := Failed;
      case NotThere => e := Failed;
      case Sync => e := Done;
      case Async(None) => e := Crashed;
      case Async(Some(key)) =>
        m.pending := Some(key);
        e := Done;
    }
  }

  method Create(m: Managed, dec: Decoding, plan: Option<Plan>, reply: CallReply) returns (e: Ending, sent: Option<ProvisionRequest>)
    requires m.spec.serviceName.Some? && m.spec.planName.Some?
    modifies m`pending
    ensures var params := ToBroker(dec, m.spec.parameters);
            && sent == (if plan.Some? && params.Ok? && Complete(m.spec)
                        then Some(ProvisionRequest(m.atProvider.instanceID, plan.value, params.value, TermsOf(m.spec))) else None)
            && (sent == None ==> e == if plan.Some? && params.Ok? then Crashed else Failed)
    ensures sent.Some? ==> e == EndingOf(reply) && m.pending == PendingAfter(old(m.pending), reply)
    ensures e == Done <==> sent.Some? && (reply == Sync || (reply.Async? && reply.key.Some?))
    ensures sent.Some? ==> (e == Failed <==> reply == Refused || reply == NotThere)
    ensures sent == None ==> m.pending == old(m.pending)
  {
    if plan == None {
      return Failed, None;
    }
    var params := KubernetesParamsToServiceBroker(dec, m.spec.parameters);
    if params == Invalid {
      return Failed, None;
    }
    if !Complete(m.spec) {
      return Crashed, None;
    }
    sent := Some(ProvisionRequest(m.atProvider.instanceID, plan.value, params.value, TermsOf(m.spec)));
    e := Finish(m, reply);
  }

  /** Update: the request carries the desired plan and the update of the parameters, which makes
      the broker's parameters agree with the spec if and only if no null is wanted anew. */
  method Update(m: Managed, enc: Encoding, dec: Decoding, plan: Option<Plan>, reply: CallReply)
    returns (e: Ending, sent: Option<UpdateRequest>)
    requires m.spec.serviceName.Some? && m.spec.planName.Some?
    modifies m`pending
    ensures var observed, expected := ToBroker(dec, m.atProvider.parameters), ToBroker(dec, m.spec.parameters);
            && sent == (if plan.Some? && observed.Ok? && expected.Ok? && Complete(m.spec)
                        then Some(UpdateRequest(m.atProvider.instanceID, plan.value, UpdateFor(enc, Broker(observed), Broker(expected)),
                                                TermsOf(m.spec)))
                        else None)
            && (sent.Some? ==> (Agree(enc, Applied(Broker(observed), OrNothing(sent.value.parameters)), Broker(expected))
                                <==> NoNullWanted(Broker(observed), Broker(expected))))
            && (sent == None ==> e == if plan.Some? && observed.Ok? && expected.Ok? then Crashed else Failed)
    ensures sent.Some? ==> e == EndingOf(reply) && m.pending == PendingAfter(old(m.pending), reply)
    ensures e == Done <==> sent.Some? && (reply == Sync || (reply.Async? && reply.key.Some?))
    ensures sent.Some? ==> (e == Failed <==> reply == Refused || reply == NotThere)
    ensures sent == None ==> m.pending == old(m.pending)
  {
    if plan == None {
      return Failed, None;
    }
    var observedParams := KubernetesParamsToServiceBroker(dec, m.atProvider.parameters);
    if observedParams == Invalid {
      return Failed, None;
    }
    var expectedParams := KubernetesParamsToServiceBroker(dec, m.spec.parameters);
    if expectedParams == Invalid {
      return Failed, None;
    }
    var parameterUpdate := ParameterUpdateForBroker(enc, Broker(observedParams), Broker(expectedParams));
    UpdateIsCorrect(enc, Broker(observedParams), Broker(expectedParams));
    if !Complete(m.spec) {
      return Crashed, None;
    }
    sent := Some(UpdateRequest(m.atProvider.instanceID, plan.value, parameterUpdate, TermsOf(m.spec)));
    e := Finish(m, reply);
  }

  /** Delete names the plan and the service that the broker reported. A reply that the instance
      is not there is passed over as an error and then dereferenced. */
  method Delete(m: Managed, reply: CallReply) returns (e: Ending, sent: Option<DeprovisionRequest>)
    modifies m`pending, m`ready
    ensures m.ready == Deleting
    ensures sent == if m.spec.acceptsIncomplete == None then None
                    else Some(DeprovisionRequest(m.atProvider.instanceID, Plan(m.atProvider.serviceID, m.atProvider.planID),
                                                 m.spec.acceptsIncomplete.value))
    ensures e == if sent == None || reply == NotThere then Crashed else EndingOf(reply)
    ensures e == Done <==> sent.Some? && (reply == Sync || (reply.Async? && reply.key.Some?))
    ensures e == Failed <==> sent.Some? && reply == Refused
    ensures m.pending == if sent == None then old(m.pending) else PendingAfter(old(m.pending), reply)
  {
    m.ready := Deleting;
    if m.spec.acceptsIncomplete == None {
      return Crashed, None;
    }
    sent := Some(DeprovisionRequest(m.atProvider.instanceID, Plan(m.atProvider.serviceID, m.atProvider.planID),
                                    m.spec.acceptsIncomplete.value));
    if reply == NotThere {
      return Crashed, sent;
    }
    e := Finish(m, reply);
  }

  // ---------------------------------------------------------------- runs

  datatype Call = Creation | Alteration | Deletion

  /** What a run is about: the requests sent to the broker, the keys stored and by which call, and the
      operations that an Observe saw come to an end. */
  datatype Event =
    | ProvisionSent(provision: ProvisionRequest)
    | UpdateSent(request: UpdateRequest)
    | DeprovisionSent(deprovision: DeprovisionRequest)
    | KeyStored(key: string, caller: Call)
    | Ended(key: string)

  /** The last stored key, unless an Observe has seen its operation end since. */
  function Open(log: seq<Event>): Option<string> {
    if log == [] then None
    else match log[|log| - 1]
      case KeyStored(key, _) => Some(key)
      case Ended(key) => None
      case _ => Open(log[..|log| - 1])
  }

  /** Whether an event may follow. No update request is sent while a stored key is open, only
      Create and Delete ever store a key over an open one, and what an Observe sees end is the open
      operation, if there is one. */
  predicate Allowed(open: Option<string>, e: Event) {
    match e
    case UpdateSent(_) => open == None
    case KeyStored(_, caller) => caller == Alteration ==> open == None
    case Ended(key) => open == None || open == Some(key)
    case _ => true
  }

  ghost predicate Safe(log: seq<Event>) {
    forall i | 0 <= i < |log| :: Allowed(Open(log[..i]), log[i])
  }

  /** In a safe log, an update request that follows the storing of a key, with no other key stored
      in between, follows the end of that very operation. */
  lemma EndedBefore(log: seq<Event>, i: nat, j: nat) returns (k: nat)
    requires Safe(log) && i < j < |log| && log[i].KeyStored? && log[j].UpdateSent?
    requires forall n | i < n < j :: !log[n].KeyStored?
    ensures i < k < j && log[k] == Ended(log[i].key)
  {
    OpenBefore(log, i);
    k := FirstEnd(log, i + 1, j, log[i].key);
  }

  lemma {:induction false} FirstEnd(log: seq<Event>, n: nat, j: nat, key: string) returns (k: nat)
    requires Safe(log) && n <= j < |log| && log[j].UpdateSent? && Open(log[..n]) == Some(key)
    requires forall i | n <= i < j :: !log[i].KeyStored?
    ensures n <= k < j && log[k] == Ended(key)
    decreases j - n
  {
    k := n;
    assert Allowed(Open(log[..n]), log[n]);
    if !log[n].Ended? {
      OpenBefore(log, n);
      k := FirstEnd(log, n + 1, j, key);
    }
  }

  lemma OpenBefore(log: seq<Event>, k: nat)
    requires k < |log|
    ensures Open(log[..k + 1]) == Opened(Open(log[..k]), log[k])
  {
    assert log[..k + 1][..k] == log[..k];
  }

  function Opened(open: Option<string>, e: Event): Option<string> {
    match e
    case KeyStored(key, _) => Some(key)
    case Ended(_) => None
    case _ => open
  }

  lemma OneMoreEvent(log: seq<Event>, e: Event)
    requires Safe(log) && Allowed(Open(log), e)
    ensures Safe(log + [e]) && Open(log + [e]) == Opened(Open(log), e)
  {
    var l := log + [e];
    assert l[..|l| - 1] == log;
    forall i | 0 <= i < |l| ensures Allowed(Open(l[..i]), l[i]) {
      assert l[..i] == if i < |log| then log[..i] else log;
    }
  }

  datatype Happening = Reconcile(r: Replies, plan: Option<Plan>, reply: CallReply) | Edit(spec: Spec) | AskDeletion

  /** What is stored about a service instance. */
  datatype Moment = Moment(spec: Spec, atProvider: Observation, pending: Option<string>, deleting: bool, released: bool)

  /** What a pass does after its Observe: the pending key, the events, and whether it crashes. */
  datatype Deed = Deed(pending: Option<string>, events: seq<Event>, crashed: bool)

  function Sent(pending: Option<string>, events: seq<Event>, reply: CallReply, caller: Call): Deed {
    if !reply.Async? then Deed(pending, events, false)
    else if reply.key == None then Deed(pending, events, true)
    else Deed(reply.key, events + (if reply.key == pending then [] else [KeyStored(reply.key.value, caller)]), false)
  }

  lemma SentDeed(before: Option<string>, pending: Option<string>, e: Ending, events: seq<Event>, reply: CallReply, caller: Call)
    requires e == EndingOf(reply) && pending == PendingAfter(before, reply)
    ensures Sent(before, events, reply, caller)
            == Deed(pending, events + (if pending == before then [] else [KeyStored(pending.value, caller)]), e == Crashed)
  {
    assert events + [] == events;
  }

  function Removing(m: Moment, reply: CallReply): Deed {
    if m.spec.acceptsIncomplete == None then Deed(m.pending, [], true)
    else
      var request := DeprovisionRequest(m.atProvider.instanceID, Plan(m.atProvider.serviceID, m.atProvider.planID), m.spec.acceptsIncomplete.value);
      if reply == NotThere then Deed(m.pending, [DeprovisionSent(request)], true)
      else Sent(m.pending, [DeprovisionSent(request)], reply, Deletion)
  }

  function Provisioning(dec: Decoding, m: Moment, plan: Option<Plan>, reply: CallReply): Deed {
    var params := ToBroker(dec, m.spec.parameters);
    if plan == None || params == Invalid then Deed(m.pending, [], false)
    else if !Complete(m.spec) then Deed(m.pending, [], true)
    else
      var request := ProvisionRequest(m.atProvider.instanceID, plan.value, params.value, TermsOf(m.spec));
      Sent(m.pending, [ProvisionSent(request)], reply, Creation)
  }

  function Updating(enc: Encoding, dec: Decoding, m: Moment, plan: Option<Plan>, reply: CallReply): Deed {
    var observed, expected := ToBroker(dec, m.atProvider.parameters), ToBroker(dec, m.spec.parameters);
    if plan == None || observed == Invalid || expected == Invalid then Deed(m.pending, [], false)
    else if !Complete(m.spec) then Deed(m.pending, [], true)
    else
      var request := UpdateRequest(m.atProvider.instanceID, plan.value, UpdateFor(enc, Broker(observed), Broker(expected)), TermsOf(m.spec));
      Sent(m.pending, [UpdateSent(request)], reply, Alteration)
  }

  function KeyEvents(before: Option<string>, pending: Option<string>, caller: Call): seq<Event> {
    if pending == before || pending == None then [] else [KeyStored(pending.value, caller)]
  }

  lemma ProvisioningIs(dec: Decoding, m: Moment, plan: Option<Plan>, reply: CallReply,
                       sent: Option<ProvisionRequest>, e: Ending, pending: Option<string>)
    requires var params := ToBroker(dec, m.spec.parameters);
             && sent == (if plan.Some? && params.Ok? && Complete(m.spec)
                         then Some(ProvisionRequest(m.atProvider.instanceID, plan.value, params.value, TermsOf(m.spec))) else None)
             && (sent == None ==> e == if plan.Some? && params.Ok? then Crashed else Failed)
    requires sent.Some? ==> e == EndingOf(reply) && pending == PendingAfter(m.pending, reply)
    requires sent == None ==> pending == m.pending
    ensures Provisioning(dec, m, plan, reply)
            == Deed(pending, (if sent.Some? then [ProvisionSent(sent.value)] else []) + KeyEvents(m.pending, pending, Creation), e == Crashed)
  {
    if sent.Some? {
      SentDeed(m.pending, pending, e, [ProvisionSent(sent.value)], reply, Creation);
    }
  }

  lemma RemovingIs(m: Moment, reply: CallReply, sent: Option<DeprovisionRequest>, e: Ending, pending: Option<string>)
    requires sent == if m.spec.acceptsIncomplete == None then None
                     else Some(DeprovisionRequest(m.atProvider.instanceID, Plan(m.atProvider.serviceID, m.atProvider.planID),
                                                  m.spec.acceptsIncomplete.value))
    requires e == if sent == None || reply == NotThere then Crashed else EndingOf(reply)
    requires pending == if sent == None then m.pending else PendingAfter(m.pending, reply)
    ensures Removing(m, reply)
            == Deed(pending, (if sent.Some? then [DeprovisionSent(sent.value)] else []) + KeyEvents(m.pending, pending, Deletion), e == Crashed)
  {
    if sent.Some? {
      if reply == NotThere {
        assert [DeprovisionSent(sent.value)] + [] == [DeprovisionSent(sent.value)];
      } else {
        SentDeed(m.pending, pending, e, [DeprovisionSent(sent.value)], reply, Deletion);
      }
    }
  }

  lemma UpdatingIs(enc: Encoding, dec: Decoding, m: Moment, plan: Option<Plan>, reply: CallReply,
                   sent: Option<UpdateRequest>, e: Ending, pending: Option<string>)
    requires var observed, expected := ToBroker(dec, m.atProvider.parameters), ToBroker(dec, m.spec.parameters);
             && sent == (if plan.Some? && observed.Ok? && expected.Ok? && Complete(m.spec)
                         then Some(UpdateRequest(m.atProvider.instanceID, plan.value, UpdateFor(enc, Broker(observed), Broker(expected)),
                                                 TermsOf(m.spec)))
                         else None)
             && (sent == None ==> e == if plan.Some? && observed.Ok? && expected.Ok? then Crashed else Failed)
    requires sent.Some? ==> e == EndingOf(reply) && pending == PendingAfter(m.pending, reply)
    requires sent == None ==> pending == m.pending
    ensures Updating(enc, dec, m, plan, reply)
            == Deed(pending, (if sent.Some? then [UpdateSent(sent.value)] else []) + KeyEvents(m.pending, pending, Alteration), e == Crashed)
  {
    if sent.Some? {
      SentDeed(m.pending, pending, e, [UpdateSent(sent.value)], reply, Alteration);
    }
  }

  function DeedOf(enc: Encoding, dec: Decoding, m: Moment, v: Verdict, plan: Option<Plan>, reply: CallReply): Deed {
    if m.deleting then (if v.Present? then Removing(m, reply) else Deed(m.pending, [], false))
    else match v
      case ObserveFailed => Deed(m.pending, [], false)
      case Absent => Provisioning(dec, m, plan, reply)
      case Present(upToDate) => if upToDate then Deed(m.pending, [], false) else Updating(enc, dec, m, plan, reply)
  }

  /** The step from one stored moment to the next, and its events. What a crashed pass made of the
      status is lost. */
  function Next(enc: Encoding, dec: Decoding, m: Moment, h: Happening): (Moment, seq<Event>) {
    match h
    case Edit(spec) => (m.(spec := spec), [])
    case AskDeletion => (m.(deleting := true), [])
    case Reconcile(r, plan, reply) =>
      if m.released || !r.Enough() then (m, [])
      else
        var (at, pending, v) := Seen(enc, m.spec, m.atProvider, m.pending, r);
        Concluded(enc, dec, m, at, pending, v, plan, reply)
  }

  function Concluded(enc: Encoding, dec: Decoding, m: Moment, at: Observation, pending: Option<string>, v: Verdict,
                     plan: Option<Plan>, reply: CallReply): (Moment, seq<Event>) {
    var seen := m.(atProvider := at, pending := pending);
    var ended := if m.pending.Some? && pending == None then [Ended(m.pending.value)] else [];
    var deed := DeedOf(enc, dec, seen, v, plan, reply);
    (if deed.crashed then m else seen.(pending := deed.pending, released := m.deleting && v == Absent), ended + deed.events)
  }

  /** What the broker is asked for by a pass over the stored moment m, which saw the status at: a new
      instance exactly for an absent one, an update exactly for one out of date, and a deletion
      exactly for a present one under deletion; each only if everything that goes into it is known. */
  ghost predicate AskedFor(enc: Encoding, dec: Decoding, m: Moment, at: Observation, v: Verdict, plan: Option<Plan>, events: seq<Event>) {
    var observed, expected := ToBroker(dec, at.parameters), ToBroker(dec, m.spec.parameters);
    var complete := m.spec.acceptsIncomplete.Some? && m.spec.organization.Some? && m.spec.space.Some?;
    && (forall q :: ProvisionSent(q) in events <==>
          && v == Absent && !m.deleting && plan.Some? && expected.Ok? && complete
          && q == ProvisionRequest(at.instanceID, plan.value, expected.value,
                                   Terms(m.spec.acceptsIncomplete.value, m.spec.organization.value, m.spec.space.value)))
    && (forall q :: UpdateSent(q) in events <==>
          && v == Present(false) && !m.deleting && plan.Some? && observed.Ok? && expected.Ok? && complete
          && q == UpdateRequest(at.instanceID, plan.value, UpdateFor(enc, Broker(observed), Broker(expected)),
                                Terms(m.spec.acceptsIncomplete.value, m.spec.organization.value, m.spec.space.value)))
    && (forall q :: DeprovisionSent(q) in events <==>
          && v.Present? && m.deleting && m.spec.acceptsIncomplete.Some?
          && q == DeprovisionRequest(at.instanceID, Plan(at.serviceID, at.planID), m.spec.acceptsIncomplete.value))
  }

  /** Some request is among the events. */
  ghost predicate AnythingSent(events: seq<Event>) {
    exists e <- events :: e.ProvisionSent? || e.UpdateSent? || e.DeprovisionSent?
  }

  ghost predicate Stores(events: seq<Event>, key: string) {
    exists caller :: KeyStored(key, caller) in events
  }

  /** The key that a reply brings is stored, exactly if a request was sent, and a reply without a key
      leaves the status as it was before the pass. pending is what the Observe left. */
  ghost predicate KeyKept(m: Moment, pending: Option<string>, reply: CallReply, after: Moment, events: seq<Event>) {
    && (AnythingSent(events) && reply.Async? && reply.key.Some? ==> after.pending == reply.key)
    && (AnythingSent(events) && reply == Async(None) ==> after == m)
    && (reply == NotThere && (exists q :: DeprovisionSent(q) in events) ==> after == m)
    && (AnythingSent(events) && (reply == Refused || reply == Sync) ==> after.pending == pending)
    && (forall key :: Stores(events, key) <==> AnythingSent(events) && reply == Async(Some(key)) && pending != Some(key))
  }

  lemma DeedAsks(enc: Encoding, dec: Decoding, m: Moment, v: Verdict, plan: Option<Plan>, reply: CallReply)
    ensures AskedFor(enc, dec, m, m.atProvider, v, plan, DeedOf(enc, dec, m, v, plan, reply).events)
  {
  }

  lemma DeedKeeps(enc: Encoding, dec: Decoding, m: Moment, v: Verdict, plan: Option<Plan>, reply: CallReply)
    ensures var d := DeedOf(enc, dec, m, v, plan, reply);
            && (AnythingSent(d.events) && reply.Async? && reply.key.Some? ==> d.pending == reply.key && !d.crashed)
            && (AnythingSent(d.events) && reply == Async(None) ==> d.crashed)
            && (reply == NotThere && (exists q :: DeprovisionSent(q) in d.events) ==> d.crashed)
            && (AnythingSent(d.events) && (reply == Refused || reply == Sync) ==> d.pending == m.pending && !d.crashed)
            && (forall key :: Stores(d.events, key) <==> AnythingSent(d.events) && reply == Async(Some(key)) && m.pending != Some(key))
            && (forall key :: Ended(key) !in d.events)
  {
    var d := DeedOf(enc, dec, m, v, plan, reply);
    if d.events != [] {
      assert d.events[0].ProvisionSent? || d.events[0].UpdateSent? || d.events[0].DeprovisionSent?;
      assert d.events[0] in d.events;
      if |d.events| > 1 {
        assert d.events[1] in d.events;
        assert Stores(d.events, d.events[1].key);
      }
    }
  }

  lemma AskedMore(enc: Encoding, dec: Decoding, m: Moment, at: Observation, v: Verdict, plan: Option<Plan>,
                  ended: seq<Event>, events: seq<Event>)
    requires AskedFor(enc, dec, m, at, v, plan, events) && forall e <- ended :: e.Ended?
    ensures AskedFor(enc, dec, m, at, v, plan, ended + events)
  {
    assert forall e :: e in ended + events <==> e in ended || e in events;
  }

  lemma KeptMore(m: Moment, pending: Option<string>, reply: CallReply, after: Moment, ended: seq<Event>, events: seq<Event>)
    requires KeyKept(m, pending, reply, after, events) && forall e <- ended :: e.Ended?
    ensures KeyKept(m, pending, reply, after, ended + events)
  {
    assert forall e :: e in ended + events <==> e in ended || e in events;
    assert AnythingSent(ended + events) <==> AnythingSent(events);
    forall q ensures DeprovisionSent(q) in ended + events <==> DeprovisionSent(q) in events {
    }
    forall key ensures Stores(ended + events, key) <==> Stores(events, key) {
      if Stores(ended + events, key) {
        var caller :| KeyStored(key, caller) in ended + events;
        assert KeyStored(key, caller) in events;
      }
      if Stores(events, key) {
        var caller :| KeyStored(key, caller) in events;
        assert KeyStored(key, caller) in ended + events;
      }
    }
  }

  /** Exactly what a pass sends and what it makes of the reply. */
  lemma PassAsks(enc: Encoding, dec: Decoding, m: Moment, r: Replies, plan: Option<Plan>, reply: CallReply)
    requires !m.released && r.Enough()
    ensures var (at, pending, v) := Seen(enc, m.spec, m.atProvider, m.pending, r);
            var (after, events) := Next(enc, dec, m, Reconcile(r, plan, reply));
            && AskedFor(enc, dec, m, at, v, plan, events) && KeyKept(m, pending, reply, after, events)
            && (after.released <==> m.deleting && v == Absent)
  {
    var (at, pending, v) := Seen(enc, m.spec, m.atProvider, m.pending, r);
    var seen := m.(atProvider := at, pending := pending);
    var d := DeedOf(enc, dec, seen, v, plan, reply);
    DeedAsks(enc, dec, seen, v, plan, reply);
    DeedKeeps(enc, dec, seen, v, plan, reply);
    var ended := if m.pending.Some? && pending == None then [Ended(m.pending.value)] else [];
    var after := if d.crashed then m else seen.(pending := d.pending, released := m.deleting && v == Absent);
    assert Next(enc, dec, m, Reconcile(r, plan, reply)) == (after, ended + d.events);
    SameDemand(enc, dec, m, seen, v, plan, d.events);
    AskedMore(enc, dec, m, at, v, plan, ended, d.events);
    KeptMore(m, pending, reply, after, ended, d.events);
  }

  lemma SameDemand(enc: Encoding, dec: Decoding, m: Moment, seen: Moment, v: Verdict, plan: Option<Plan>, events: seq<Event>)
    requires seen.spec == m.spec && seen.deleting == m.deleting && AskedFor(enc, dec, seen, seen.atProvider, v, plan, events)
    ensures AskedFor(enc, dec, m, seen.atProvider, v, plan, events)
  {
  }

  function RunOf(enc: Encoding, dec: Decoding, m: Moment, happenings: seq<Happening>): (Moment, seq<Event>) {
    if happenings == [] then (m, [])
    else
      var front := RunOf(enc, dec, m, happenings[..|happenings| - 1]);
      var last := Next(enc, dec, front.0, happenings[|happenings| - 1]);
      (last.0, front.1 + last.1)
  }

  /** What a pass sends to the broker. */
  datatype Requests = Requests(provision: Option<ProvisionRequest>, update: Option<UpdateRequest>, deprovision: Option<DeprovisionRequest>)

  const NOTHING := Requests(None, None, None)

  ghost predicate Logged(sent: Requests, events: seq<Event>) {
    && (forall q :: ProvisionSent(q) in events <==> sent.provision == Some(q))
    && (forall q :: UpdateSent(q) in events <==> sent.update == Some(q))
    && (forall q :: DeprovisionSent(q) in events <==> sent.deprovision == Some(q))
  }

  predicate SingleRequest(sent: Requests) {
    (sent.provision == None || sent.update == None) && (sent.provision == None || sent.deprovision == None)
    && (sent.update == None || sent.deprovision == None)
  }

  function RequestEvents(sent: Requests): (r: seq<Event>)
    ensures |r| <= 1
  {
    if sent.provision.Some? then [ProvisionSent(sent.provision.value)]
    else if sent.update.Some? then [UpdateSent(sent.update.value)]
    else if sent.deprovision.Some? then [DeprovisionSent(sent.deprovision.value)]
    else []
  }

  lemma RequestLogged(sent: Requests, before: seq<Event>, after: seq<Event>, keys: seq<Event>)
    requires SingleRequest(sent) && (forall e <- keys :: e.KeyStored?) && after == before + (RequestEvents(sent) + keys)
    ensures Logged(sent, after[|before|..])
  {
    var request := RequestEvents(sent);
    assert after[|before|..] == request + keys;
    assert forall e :: e in request + keys <==> e in request || e in keys;
  }

  lemma LoggedMore(sent: Requests, ended: seq<Event>, events: seq<Event>)
    requires Logged(sent, events) && forall e <- ended :: e.Ended?
    ensures Logged(sent, ended + events)
  {
    assert forall e :: e in ended + events <==> e in ended || e in events;
  }

  lemma Added(before: seq<Event>, after: seq<Event>, events: seq<Event>) returns (r: seq<Event>)
    requires after == before + events
    ensures before <= after && r == after[|before|..] == events
  {
    r := events;
  }

  /** One pass, seen from the stored moments before and after it: its verdict and what it sends. */
  ghost predicate PassDone(enc: Encoding, dec: Decoding, m: Moment, r: Replies, plan: Option<Plan>, reply: CallReply,
                           v: Verdict, sent: Requests, after: Moment, events: seq<Event>)
    requires r.Enough()
  {
    var (at, pending, verdict) := Seen(enc, m.spec, m.atProvider, m.pending, r);
    && v == verdict && Logged(sent, events)
    && AskedFor(enc, dec, m, at, v, plan, events) && KeyKept(m, pending, reply, after, events)
    && (after.released <==> m.deleting && v == Absent)
  }

  /** What an Observe makes of the stored moment. */
  ghost predicate Saw(enc: Encoding, m: Moment, r: Replies, seen: Moment, v: Verdict)
    requires r.Enough()
  {
    && (seen.atProvider, seen.pending, v) == Seen(enc, m.spec, m.atProvider, m.pending, r)
    && seen == m.(atProvider := seen.atProvider, pending := seen.pending)
  }

  function EndedBy(m: Moment, seen: Moment): seq<Event> {
    if m.pending.Some? && seen.pending == None then [Ended(m.pending.value)] else []
  }

  lemma PassIs(enc: Encoding, dec: Decoding, m: Moment, seen: Moment, r: Replies, plan: Option<Plan>, reply: CallReply,
               v: Verdict, d: Deed, sent: Requests, after: Moment, events: seq<Event>)
    requires !m.released && r.Enough() && Saw(enc, m, r, seen, v) && d == DeedOf(enc, dec, seen, v, plan, reply)
    requires Logged(sent, d.events) && events == EndedBy(m, seen) + d.events
    requires after == if d.crashed then m.(released := m.deleting && v == Absent)
                      else seen.(pending := d.pending, released := m.deleting && v == Absent)
    ensures Next(enc, dec, m, Reconcile(r, plan, reply)) == (after, events)
    ensures PassDone(enc, dec, m, r, plan, reply, v, sent, after, events)
  {
    LoggedMore(sent, EndedBy(m, seen), d.events);
    PassAsks(enc, dec, m, r, plan, reply);
  }

  /** The managed reconciler around one resource. Its status is stored at the end of every pass
      that does not crash. */
  class Reconciler {
    const enc: Encoding
    const dec: Decoding
    const m: Managed
    var deleting: bool
    var released: bool
    ghost var log: seq<Event>

    ghost predicate Valid() reads this, m {
      Safe(log) && (Open(log).Some? ==> m.pending == Open(log))
    }

    function Stored(): Moment reads this, m {
      Moment(m.spec, m.atProvider, m.pending, deleting, released)
    }

    constructor (m: Managed, enc: Encoding, dec: Decoding)
      requires m.pending == None
      ensures Valid() && this.m == m && this.enc == enc && this.dec == dec && log == [] && !deleting && !released
    {
      this.m, this.enc, this.dec := m, enc, dec;
      deleting, released, log := false, false, [];
    }

    ghost method Log(e: Event)
      requires Safe(log) && Allowed(Open(log), e)
      modifies this`log
      ensures Safe(log) && log == old(log) + [e] && Open(log) == Opened(Open(old(log)), e)
    {
      OneMoreEvent(log, e);
      log := log + [e];
    }

    method ObserveOnce(r: Replies) returns (v: Verdict)
      requires Valid() && r.Enough()
      modifies this`log, m
      ensures Valid() && m.spec == old(m.spec)
      ensures (m.atProvider, m.pending, v) == Seen(enc, m.spec, old(m.atProvider), old(m.pending), r)
      ensures log == old(log) + EndedBy(old(Stored()), Stored())
      ensures m.pending == old(m.pending) || (m.pending == None && old(m.pending).Some? && Open(log) == None)
      ensures v == Present(false) ==> m.pending == None && Open(log) == None
      ensures v != ObserveFailed ==> m.spec.serviceName.Some? && m.spec.planName.Some?
    {
      var stored := m.pending;
      v := Observe(m, enc, dec, r);
      if stored.Some? && m.pending == None {
        Log(Ended(stored.value));
      } else {
        assert log + [] == log;
      }
    }

    /** Records the key that a call has stored, if it has. */
    ghost method LogKey(before: Option<string>, caller: Call)
      requires Safe(log) && (Open(log).Some? ==> before == Open(log))
      requires m.pending != before ==> m.pending.Some? && (caller == Alteration ==> Open(log) == None)
      modifies this`log
      ensures Valid()
      ensures log == old(log) + KeyEvents(before, m.pending, caller)
      ensures m.pending == before ==> Open(log) == Open(old(log))
    {
      if m.pending != before {
        Log(KeyStored(m.pending.value, caller));
      } else {
        assert log + [] == log;
      }
    }

    /** Records the request of a call and the key that it has stored. */
    ghost method LogCall(sent: Requests, before: Option<string>, caller: Call)
      requires Recorded(before) && (forall e <- RequestEvents(sent) :: Allowed(Open(log), e))
      requires m.pending != before ==> m.pending.Some? && (caller == Alteration ==> Open(log) == None)
      modifies this`log
      ensures Valid() && log == old(log) + (RequestEvents(sent) + KeyEvents(before, m.pending, caller))
      ensures m.pending == before ==> Open(log) == Open(old(log))
    {
      ghost var l, request := log, RequestEvents(sent);
      if request != [] {
        Log(request[0]);
      }
      assert log == l + request;
      LogKey(before, caller);
      Appended(l, request, KeyEvents(before, m.pending, caller));
    }

    ghost predicate Recorded(before: Option<string>) reads this`log {
      Safe(log) && (Open(log).Some? ==> before == Open(log))
    }

    method Remove(reply: CallReply) returns (e: Ending, sent: Option<DeprovisionRequest>)
      requires Valid()
      modifies this`log, m`pending, m`ready
      ensures Valid() && (e == Crashed ==> Open(log) == Open(old(log)))
      ensures var d := Removing(old(Stored()), reply); m.pending == d.pending && log == old(log) + d.events && (e == Crashed <==> d.crashed)
      ensures Logged(NOTHING.(deprovision := sent), log[|old(log)|..])
    {
      ghost var before := Stored();
      e, sent := Delete(m, reply);
      RemovingIs(before, reply, sent, e, m.pending);
      LogCall(NOTHING.(deprovision := sent), before.pending, Deletion);
      RequestLogged(NOTHING.(deprovision := sent), old(log), log, KeyEvents(before.pending, m.pending, Deletion));
    }

    method Provision(plan: Option<Plan>, reply: CallReply) returns (e: Ending, sent: Option<ProvisionRequest>)
      requires Valid() && m.spec.serviceName.Some? && m.spec.planName.Some?
      modifies this`log, m`pending
      ensures Valid() && (e == Crashed ==> Open(log) == Open(old(log)))
      ensures var d := Provisioning(dec, old(Stored()), plan, reply);
              m.pending == d.pending && log == old(log) + d.events && (e == Crashed <==> d.crashed)
      ensures Logged(NOTHING.(provision := sent), log[|old(log)|..])
    {
      ghost var before := Stored();
      e, sent := Create(m, dec, plan, reply);
      ProvisioningIs(dec, before, plan, reply, sent, e, m.pending);
      LogCall(NOTHING.(provision := sent), before.pending, Creation);
      RequestLogged(NOTHING.(provision := sent), old(log), log, KeyEvents(before.pending, m.pending, Creation));
    }

    method Alter(plan: Option<Plan>, reply: CallReply) returns (e: Ending, sent: Option<UpdateRequest>)
      requires Valid() && m.spec.serviceName.Some? && m.spec.planName.Some? && Open(log) == None
      modifies this`log, m`pending
      ensures Valid() && (e == Crashed ==> Open(log) == Open(old(log)))
      ensures var d := Updating(enc, dec, old(Stored()), plan, reply);
              m.pending == d.pending && log == old(log) + d.events && (e == Crashed <==> d.crashed)
      ensures Logged(NOTHING.(update := sent), log[|old(log)|..])
    {
      ghost var before := Stored();
      e, sent := Update(m, enc, dec, plan, reply);
      UpdatingIs(enc, dec, before, plan, reply, sent, e, m.pending);
      LogCall(NOTHING.(update := sent), before.pending, Alteration);
      RequestLogged(NOTHING.(update := sent), old(log), log, KeyEvents(before.pending, m.pending, Alteration));
    }

    /** What the verdict asks for: the instance is deleted, created, updated or left alone. */
    method Act(v: Verdict, plan: Option<Plan>, reply: CallReply) returns (e: Ending, sent: Requests)
      requires Valid() && !released && (v != ObserveFailed ==> m.spec.serviceName.Some? && m.spec.planName.Some?)
      requires v == Present(false) ==> Open(log) == None
      modifies this`released, this`log, m`pending, m`ready
      ensures Valid() && (e == Crashed ==> Open(log) == Open(old(log)))
      ensures released == (deleting && v == Absent)
      ensures var d := DeedOf(enc, dec, old(Stored()), v, plan, reply);
              m.pending == d.pending && log == old(log) + d.events && (e == Crashed <==> d.crashed)
      ensures Logged(sent, log[|old(log)|..])
    {
      assert log + [] == log;
      e, sent := Done, NOTHING;
      if v == ObserveFailed {
        return;
      }
      if deleting {
        if v == Absent {
          released := true;
        } else {
          var deprovision;
          e, deprovision := Remove(reply);
          sent := sent.(deprovision := deprovision);
        }
      } else if v == Absent {
        var provision;
        e, provision := Provision(plan, reply);
        sent := sent.(provision := provision);
      } else if !v.upToDate {
        var update;
        e, update := Alter(plan, reply);
        sent := sent.(update := update);
      }
    }

    /** One pass. It asks the broker for a new instance, an update or a deletion exactly when the
        verdict and the spec demand it. What a crashed one made of the status is lost. */
    method Pass(r: Replies, plan: Option<Plan>, reply: CallReply) returns (v: Verdict, sent: Requests)
      requires Valid() && r.Enough() && !released
      modifies this`released, this`log, m
      ensures Valid() && old(log) <= log
      ensures (Stored(), log[|old(log)|..]) == Next(enc, dec, old(Stored()), Reconcile(r, plan, reply))
      ensures PassDone(enc, dec, old(Stored()), r, plan, reply, v, sent, Stored(), log[|old(log)|..])
    {
      var stored, storedPending, storedReady := m.atProvider, m.pending, m.ready;
      ghost var before := Stored();
      v := ObserveOnce(r);
      ghost var seen, ended := Stored(), EndedBy(before, Stored());
      ghost var d;
      sent, d := Conclude(v, plan, reply, stored, storedPending, storedReady);
      Appended(old(log), ended, d.events);
      ghost var events := Added(old(log), log, ended + d.events);
      PassIs(enc, dec, before, seen, r, plan, reply, v, d, sent, Stored(), events);
    }

    /** What follows the Observe of a pass; stored is the status from before it. */
    method Conclude(v: Verdict, plan: Option<Plan>, reply: CallReply, stored: Observation, storedPending: Option<string>, storedReady: Ready)
      returns (sent: Requests, ghost d: Deed)
      requires Valid() && !released
      requires storedPending == m.pending || Open(log) == None
      requires v == Present(false) ==> Open(log) == None
      requires v != ObserveFailed ==> m.spec.serviceName.Some? && m.spec.planName.Some?
      modifies this`released, this`log, m`atProvider, m`pending, m`ready
      ensures Valid() && d == DeedOf(enc, dec, old(Stored()), v, plan, reply)
      ensures log == old(log) + d.events && Logged(sent, d.events)
      ensures Stored() == if d.crashed then old(Stored()).(atProvider := stored, pending := storedPending, released := deleting && v == Absent)
                          else old(Stored()).(pending := d.pending, released := deleting && v == Absent)
    {
      d := DeedOf(enc, dec, Stored(), v, plan, reply);
      var e;
      e, sent := Act(v, plan, reply);
      assert log[|old(log)|..] == d.events;
      if e == Crashed { Undo(stored, storedPending, storedReady); }
    }

    method Undo(at: Observation, pending: Option<string>, ready: Ready)
      requires Safe(log) && (Open(log).Some? ==> pending == Open(log))
      modifies m`atProvider, m`pending, m`ready
      ensures Valid() && Stored() == old(Stored()).(atProvider := at, pending := pending)
    {
      m.atProvider, m.pending, m.ready := at, pending, ready;
    }
  }

  lemma RunStep(enc: Encoding, dec: Decoding, m: Moment, happenings: seq<Happening>, n: nat)
    requires n < |happenings|
    ensures var front := RunOf(enc, dec, m, happenings[..n]);
            var last := Next(enc, dec, front.0, happenings[n]);
            RunOf(enc, dec, m, happenings[..n + 1]) == (last.0, front.1 + last.1)
  {
    assert happenings[..n + 1][..n] == happenings[..n];
  }

  /** One step of a run. */
  method Happen(c: Reconciler, h: Happening)
    requires c.Valid()
    modifies c, c.m
    ensures c.Valid()
    ensures c.Stored() == Next(c.enc, c.dec, old(c.Stored()), h).0 && c.log == old(c.log) + Next(c.enc, c.dec, old(c.Stored()), h).1
  {
    assert c.log + [] == c.log;
    match h {
      case Reconcile(r, plan, reply) =>
        if r.Enough() && !c.released { var v, sent := c.Pass(r, plan, reply); }
      case Edit(spec) => c.m.spec := spec;
      case AskDeletion => c.deleting := true;
    }
  }

  /** Between the storing of a key and an update request that follows lies the end of that operation,
      or the storing of another key. */
  ghost predicate GatedByEnds(log: seq<Event>) {
    forall i, j | 0 <= i < j < |log| && log[i].KeyStored? && log[j].UpdateSent? ::
      Ended(log[i].key) in log[i..j] || exists k | i < k < j :: log[k].KeyStored?
  }

  lemma EndsBetween(log: seq<Event>)
    requires Safe(log)
    ensures GatedByEnds(log)
  {
    forall i, j | 0 <= i < j < |log| && log[i].KeyStored? && log[j].UpdateSent? && forall n | i < n < j :: !log[n].KeyStored?
      ensures Ended(log[i].key) in log[i..j]
    {
      var k := EndedBefore(log, i, j);
      assert log[i..j][k - i] == Ended(log[i].key);
    }
  }

  /** Exactly what the pass of a run sends that happens next. */
  lemma RunAsks(enc: Encoding, dec: Decoding, m: Moment, happenings: seq<Happening>, n: nat)
    requires n < |happenings| && happenings[n].Reconcile? && happenings[n].r.Enough()
    requires !RunOf(enc, dec, m, happenings[..n]).0.released
    ensures var before, after := RunOf(enc, dec, m, happenings[..n]), RunOf(enc, dec, m, happenings[..n + 1]);
            var (at, pending, v) := Seen(enc, before.0.spec, before.0.atProvider, before.0.pending, happenings[n].r);
            && before.1 <= after.1
            && AskedFor(enc, dec, before.0, at, v, happenings[n].plan, after.1[|before.1|..])
            && KeyKept(before.0, pending, happenings[n].reply, after.0, after.1[|before.1|..])
  {
    RunStep(enc, dec, m, happenings, n);
    var before := RunOf(enc, dec, m, happenings[..n]);
    PassAsks(enc, dec, before.0, happenings[n].r, happenings[n].plan, happenings[n].reply);
    var events := Next(enc, dec, before.0, happenings[n]).1;
    var new1 := Added(before.1, before.1 + events, events);
  }

  /** Any run of passes, edits of the spec and a deletion, whatever the broker answers, goes as RunOf
      says: no update request is sent from when a pending key is stored until an Observe has seen
      that operation succeed or fail. */
  method Run(c: Reconciler, happenings: seq<Happening>)
    requires c.Valid()
    modifies c, c.m
    ensures c.Valid()
    ensures c.Stored() == RunOf(c.enc, c.dec, old(c.Stored()), happenings).0
    ensures c.log == old(c.log) + RunOf(c.enc, c.dec, old(c.Stored()), happenings).1
    ensures GatedByEnds(c.log)
  {
    ghost var start, log := c.Stored(), c.log;
    for n := 0 to |happenings|
      invariant c.Valid()
      invariant c.Stored() == RunOf(c.enc, c.dec, start, happenings[..n]).0 && c.log == log + RunOf(c.enc, c.dec, start, happenings[..n]).1
    {
      RunStep(c.enc, c.dec, start, happenings, n);
      ghost var front := RunOf(c.enc, c.dec, start, happenings[..n]);
      Happen(c, happenings[n]);
      Appended(log, front.1, Next(c.enc, c.dec, front.0, happenings[n]).1);
    }
    assert happenings[..|happenings|] == happenings;
    EndsBetween(c.log);
  }
}
