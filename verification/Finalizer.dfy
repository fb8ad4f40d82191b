/** The finalizer protocol of AppClusterBindings: process, ensureFinalizer, removeFinalizer
    (appclusterbinding_controller.go) and ensureDeleted (appclusterbinding_reconcile.go), one
    worker with fresh reads, against an API server that users and other controllers change
    between any two calls. One binding, hence one root namespace, is fixed. */
module Finalizer {
  import opened JsonDoc

  const FINALIZER := "klutch.anynines.com/appclusterbinding-cleanup"

  // ---------------------------------------------------------------- finalizer lists

  method HasFinalizer(finalizers: seq<string>, target: string) returns (found: bool)
    ensures found <==> target in finalizers
  {
    for i := 0 to |finalizers|
      invariant target !in finalizers[..i]
    {
      if finalizers[i] == target {
        return true;
      }
    }
    return false;
  }

  /** The other finalizers, in their order. */
  function Without(finalizers: seq<string>, target: string): seq<string> {
    if finalizers == [] then []
    else (if finalizers[0] == target then [] else [finalizers[0]]) + Without(finalizers[1..], target)
  }

  lemma {:induction false} WithoutAppend(a: seq<string>, f: string, target: string)
    ensures Without(a + [f], target) == Without(a, target) + (if f == target then [] else [f])
    decreases a
  {
    if a == [] {
      assert a + [f] == [f];
    } else {
      WithoutAppend(a[1..], f, target);
      assert (a + [f])[1..] == a[1..] + [f];
    }
  }

  method RemoveFinalizer(finalizers: seq<string>, target: string) returns (updated: seq<string>)
    ensures updated == Without(finalizers, target)
  {
    if |finalizers| == 0 {
      return finalizers;
    }
    updated := [];
    for i := 0 to |finalizers|
      invariant updated == Without(finalizers[..i], target)
    {
      WithoutAppend(finalizers[..i], finalizers[i], target);
      assert finalizers[..i] + [finalizers[i]] == finalizers[..i + 1];
      if finalizers[i] == target {
        continue;
      }
      updated := updated + [finalizers[i]];
    }
    assert finalizers[..|finalizers|] == finalizers;
  }

  /** Removing keeps every other finalizer as often as it occurred, and undoes adding. */
  lemma {:induction false} RemovalIsExact(finalizers: seq<string>, target: string)
    ensures target !in Without(finalizers, target)
    ensures multiset(Without(finalizers, target)) == multiset(finalizers)[target := 0]
    ensures target !in finalizers ==> Without(finalizers + [target], target) == finalizers
    ensures target !in finalizers <==> Without(finalizers, target) == finalizers
    decreases finalizers
  {
    WithoutAppend(finalizers, target, target);
    if finalizers != [] {
      RemovalIsExact(finalizers[1..], target);
      assert finalizers == [finalizers[0]] + finalizers[1..];
    }
  }

  // ---------------------------------------------------------------- the API server

  datatype Binding = Binding(uid: nat, version: nat, deleting: bool, finalizers: seq<string>)

  datatype NamespacePhase = Absent | Active | Terminating

  /** Namespace and name of a service binding. */
  type Key = (string, string)

  /** The stored AppClusterBinding, the service bindings that carry its labels (with their
      deletion mark), its root namespace and the two cluster-scoped roles. */
  datatype Api = Api(obj: Option<Binding>, owned: map<Key, bool>, root: NamespacePhase,
                     role: bool, roleBinding: bool, clock: nat)

  /** What users, the garbage collector and other controllers do between two calls. Nobody
      but the worker takes the finalizer away or creates labelled objects. */
  datatype Event =
    | UserCreates(finalizers: seq<string>)
    | UserDeletes
    | SomeoneEdits(others: seq<string>)
    | BindingGone(key: Key)
    | NamespaceGone
    | RolesSet(role: bool, roleBinding: bool)

  function Released(b: Binding): Option<Binding> {
    if b.deleting && b.finalizers == [] then None else Some(b)
  }

  function Happens(s: Api, e: Event): Api {
    match e
    case UserCreates(fs) =>
      if s.obj.Some? then s
      else s.(obj := Some(Binding(s.clock, s.clock, false, fs)), clock := s.clock + 1)
    case UserDeletes =>
      if s.obj.None? then s
      else s.(obj := Released(s.obj.value.(deleting := true, version := s.clock)), clock := s.clock + 1)
    case SomeoneEdits(others) =>
      if s.obj.None? then s
      else
        var fs := if FINALIZER in s.obj.value.finalizers then others + [FINALIZER] else others;
        s.(obj := Released(s.obj.value.(finalizers := fs, version := s.clock)), clock := s.clock + 1)
    case BindingGone(key) =>
      if key in s.owned && (s.owned[key] || s.root == Terminating) then s.(owned := s.owned - {key}) else s
    case NamespaceGone => if s.root == Terminating then s.(root := Absent) else s
    case RolesSet(r, rb) => s.(role := r, roleBinding := rb)
  }

  predicate HasOurFinalizer(s: Api) {
    s.obj.Some? && FINALIZER in s.obj.value.finalizers
  }

  /** Safety: what the worker created exists only while the object exists with the finalizer. */
  predicate Safe(s: Api) {
    s.owned != map[] || s.root != Absent ==> HasOurFinalizer(s)
  }

  predicate Inv(s: Api) {
    && Safe(s)
    && (s.obj.Some? ==> s.obj.value.uid < s.clock && s.obj.value.version < s.clock)
  }

  /** The object of a pass is still there and still carries the finalizer. */
  predicate Held(s: Api, uid: nat) {
    HasOurFinalizer(s) && s.obj.value.uid == uid
  }

  predicate Clean(s: Api) {
    s.owned == map[] && s.root == Absent
  }

  lemma EventKeeps(s: Api, e: Event)
    requires Inv(s)
    ensures Inv(Happens(s, e))
    ensures forall uid :: Held(s, uid) ==> Held(Happens(s, e), uid)
    ensures s.owned == map[] ==> Happens(s, e).owned == map[]
    ensures s.root == Absent ==> Happens(s, e).root == Absent
    ensures s.obj.Some? && s.obj.value.deleting && Held(s, s.obj.value.uid) ==> Happens(s, e).obj.value.deleting
  {
  }

  /** Several events, one after the other. */
  function Moved(s: Api, es: seq<Event>): Api {
    if es == [] then s else Happens(Moved(s, es[..|es| - 1]), es[|es| - 1])
  }

  lemma {:induction false} MovedKeeps(s: Api, es: seq<Event>)
    requires Inv(s)
    ensures Inv(Moved(s, es))
    ensures forall uid | Held(s, uid) :: Held(Moved(s, es), uid)
    ensures s.owned == map[] ==> Moved(s, es).owned == map[]
    ensures s.root == Absent ==> Moved(s, es).root == Absent
    decreases |es|
  {
    if es != [] {
      MovedKeeps(s, es[..|es| - 1]);
      EventKeeps(Moved(s, es[..|es| - 1]), es[|es| - 1]);
    }
  }

  /** The fate of a call: it may not arrive, its reply may get lost, or the worker may crash. */
  datatype Fate = Delivered | Lost | ReplyLost | Crash(applied: bool)

  datatype Reply<+T> = Ok(value: T) | NotFound | Failed | Crashed

  /** The calls of the worker that write. */
  datatype Write =
    | SetFinalizers(binding: Binding, finalizers: seq<string>)
    | MakeNamespace
    | MakeBinding(key: Key)
    | MarkBinding(key: Key)
    | MarkNamespace
    | DropRole(binds: bool)

  predicate Applied(fate: Fate) {
    fate.Delivered? || fate.ReplyLost? || (fate.Crash? && fate.applied)
  }

  /** What a write changes if it is applied; an update needs the version it was computed from. */
  function Written(s: Api, w: Write): Api {
    match w
    case SetFinalizers(b, fs) =>
      if s.obj == Some(b) then s.(obj := Released(b.(finalizers := fs, version := s.clock)), clock := s.clock + 1) else s
    case MakeNamespace => if s.root == Absent then s.(root := Active) else s
    case MakeBinding(key) => if key !in s.owned && s.root == Active then s.(owned := s.owned[key := false]) else s
    case MarkBinding(key) => if key in s.owned then s.(owned := s.owned[key := true]) else s
    case MarkNamespace => if s.root == Active then s.(root := Terminating) else s
    case DropRole(binds) => if binds then s.(roleBinding := false) else s.(role := false)
  }

  /** What the worker sees to: it creates only while the object carries the finalizer, and takes the
      finalizer away only from a clean server. */
  predicate Guarded(s: Api, w: Write) {
    match w
    case SetFinalizers(_, fs) => FINALIZER !in fs ==> Clean(s)
    case MakeNamespace => HasOurFinalizer(s)
    case MakeBinding(_) => HasOurFinalizer(s)
    case _ => true
  }

  /** The server after a call: first the world moves on, then the write is applied or not. */
  function Served(s: Api, es: seq<Event>, fate: Fate, w: Option<Write>): Api {
    var met := Moved(s, es);
    if w.Some? && Applied(fate) then Written(met, w.value) else met
  }

  /** One call as a step of the server. */
  predicate Step(s: Api, es: seq<Event>, fate: Fate, w: Option<Write>, next: Api) {
    next == Served(s, es, fate, w) && (w.Some? ==> Guarded(Moved(s, es), w.value))
  }

  lemma WriteKeeps(s: Api, w: Write)
    requires Inv(s) && Guarded(s, w)
    ensures Inv(Written(s, w))
  {
  }

  lemma StepKeeps(s: Api, es: seq<Event>, fate: Fate, w: Option<Write>, next: Api)
    requires Inv(s) && Step(s, es, fate, w, next)
    ensures Inv(next)
  {
    MovedKeeps(s, es);
    if w.Some? {
      WriteKeeps(Moved(s, es), w.value);
    }
  }

  /** A write that is guarded before the world moves on stays guarded. */
  lemma GuardStays(s: Api, es: seq<Event>, w: Write)
    requires Inv(s) && Guarded(s, w)
    ensures Guarded(Moved(s, es), w)
  {
    MovedKeeps(s, es);
    assert HasOurFinalizer(s) ==> Held(s, s.obj.value.uid);
  }

  ghost predicate StepAt(moments: seq<Api>, writes: seq<Option<Write>>, events: nat -> seq<Event>, fates: nat -> Fate, k: nat)
    requires k < |writes| && |moments| == |writes| + 1
  {
    Step(moments[k], events(k), fates(k), writes[k], moments[k + 1])
  }

  predicate Creates(w: Option<Write>) {
    w.Some? && (w.value.MakeNamespace? || w.value.MakeBinding?)
  }

  /** How many of the first calls were not delivered, and how many crashed the worker. */
  function Faults(fates: nat -> Fate, n: nat): nat {
    if n == 0 then 0 else Faults(fates, n - 1) + if fates(n - 1).Delivered? then 0 else 1
  }

  function Crashes(fates: nat -> Fate, n: nat): nat {
    if n == 0 then 0 else Crashes(fates, n - 1) + if fates(n - 1).Crash? then 1 else 0
  }

  lemma {:induction false} NoFaults(fates: nat -> Fate, start: nat, end: nat)
    requires start <= end
    ensures Faults(fates, start) <= Faults(fates, end) && Crashes(fates, start) <= Crashes(fates, end)
    ensures Faults(fates, start) == Faults(fates, end) ==> forall k | start <= k < end :: fates(k).Delivered?
    ensures Crashes(fates, start) == Crashes(fates, end) <==> forall k | start <= k < end :: !fates(k).Crash?
    decreases end
  {
    if start < end { NoFaults(fates, start, end - 1); }
  }

  class Cluster {
    var s: Api
    /** What happens before each call, and the fate of each call. */
    const events: nat -> seq<Event>
    const fates: nat -> Fate
    var calls: nat
    /** The server before the first call and after each call, and what each call writes. */
    ghost var moments: seq<Api>
    ghost var writes: seq<Option<Write>>

    ghost predicate Valid() reads this {
      && |writes| == calls && |moments| == calls + 1 && moments[calls] == s
      && (forall k | 0 <= k <= calls :: Inv(moments[k]))
      && (forall k: nat | k < calls :: StepAt(moments, writes, events, fates, k))
    }

    constructor (events: nat -> seq<Event>, fates: nat -> Fate, initial: Api)
      requires Inv(initial)
      ensures Valid() && s == initial && this.events == events && this.fates == fates && moments == [initial]
    {
      this.events, this.fates := events, fates;
      s, calls, moments, writes := initial, 0, [initial], [];
    }

    /** From here on nothing interferes and every call is delivered. */
    ghost predicate Quiet() reads this`calls {
      forall k | k >= calls :: events(k) == [] && fates(k) == Delivered
    }

    /** The answer of a call tells its fate: a crash ends the worker, and only a call that was delivered
        is answered. */
    ghost predicate Answered<T>(r: Reply<T>, at: nat) {
      && Crashes(fates, at + 1) == Crashes(fates, at) + (if r.Crashed? then 1 else 0)
      && (r.Ok? || r.NotFound? ==> Faults(fates, at + 1) == Faults(fates, at))
    }

    /** How the calls since the given one have gone: one of them has killed the worker, if it has died, and
        otherwise none; and if all is well then every one was delivered. */
    ghost predicate Went(ok: bool, died: bool, since: nat) reads this`calls {
      && Crashes(fates, calls) == Crashes(fates, since) + (if died then 1 else 0)
      && (ok ==> Faults(fates, calls) == Faults(fates, since))
    }

    /** What stays of the past, and of an object that carries the finalizer. */
    twostate predicate KeptSoFar()
      reads this
    {
      && old(moments) <= moments && old(writes) <= writes && old(calls) <= calls
      && (forall uid | Held(old(s), uid) :: Held(s, uid))
    }

    twostate predicate Kept()
      reads this
    {
      KeptSoFar() && old(calls) < calls
    }

    /** Calls that do not create keep a clean server clean. */
    twostate predicate NothingCreated()
      reads this
    {
      && (old(s).owned == map[] ==> s.owned == map[])
      && (old(s).root == Absent ==> s.root == Absent)
      && (forall k | old(calls) <= k < |writes| :: !Creates(writes[k]))
    }

    /** One call: the world moves on, the fate of the call is drawn, and the write is applied or not.
        met is what the call finds. */
    method Call(w: Option<Write>) returns (fate: Fate, met: Api)
      requires Valid() && (w.Some? ==> Guarded(s, w.value))
      modifies this
      ensures Valid() && calls == old(calls) + 1 && old(moments) <= moments && writes == old(writes) + [w]
      ensures fate == fates(old(calls))
      ensures s == (if w.Some? && Applied(fate) then Written(met, w.value) else met) && Inv(met)
      ensures forall uid | Held(old(s), uid) :: Held(met, uid)
      ensures (old(s).owned == map[] ==> met.owned == map[]) && (old(s).root == Absent ==> met.root == Absent)
      ensures w.Some? ==> Guarded(met, w.value)
      ensures old(Quiet()) ==> Quiet() && met == old(s) && fate == Delivered
    {
      var es := events(calls);
      met := s;
      for i := 0 to |es|
        invariant met == Moved(s, es[..i])
      {
        assert es[..i + 1][..i] == es[..i];
        met := Happens(met, es[i]);
      }
      assert es[..|es|] == es;
      MovedKeeps(s, es);
      fate := fates(calls);
      if w.Some? { GuardStays(s, es, w.value); }
      ghost var next := Served(s, es, fate, w);
      StepKeeps(s, es, fate, w, next);
      s := if w.Some? && Applied(fate) then Written(met, w.value) else met;
      ghost var before, sent := moments, writes;
      moments, writes := moments + [s], writes + [w];
      forall k: nat | k < |writes| ensures StepAt(moments, writes, events, fates, k) {
        if k < |sent| { assert StepAt(before, sent, events, fates, k); }
      }
      calls := calls + 1;
    }

    function Answer<T>(fate: Fate, r: Reply<T>): Reply<T> {
      match fate
      case Delivered => r
      case Lost => Failed
      case ReplyLost => Failed
      case Crash(_) => Crashed
    }

    /** A fresh read of the AppClusterBinding. */
    method Get() returns (r: Reply<Binding>)
      requires Valid()
      modifies this
      ensures Valid() && Kept() && NothingCreated() && calls == old(calls) + 1 && writes == old(writes) + [None]
      ensures Answered(r, old(calls))
      ensures r.Ok? ==> s.obj == Some(r.value)
      ensures r.NotFound? ==> s.obj == None
      ensures fates(old(calls)).Delivered? ==> r.Ok? || r.NotFound?
      ensures old(Quiet()) ==> Quiet() && s == old(s) && r == if s.obj.Some? then Ok(s.obj.value) else NotFound
    {
      var fate, met := Call(None);
      r := Answer(fate, if met.obj.Some? then Ok(met.obj.value) else NotFound);
    }

    /** A full update under optimistic locking. Taking our finalizer away needs a clean server. */
    method Update(b: Binding, finalizers: seq<string>) returns (r: Reply<()>)
      requires Valid() && (FINALIZER !in finalizers ==> Clean(s))
      modifies this
      ensures Valid() && old(moments) <= moments && NothingCreated()
      ensures calls == old(calls) + 1 && writes == old(writes) + [Some(SetFinalizers(b, finalizers))]
      ensures Answered(r, old(calls)) && !r.NotFound?
      ensures FINALIZER in finalizers ==> Kept()
      ensures r.Ok? ==> if b.deleting && finalizers == [] then s.obj == None
                        else s.obj.Some? && s.obj.value.(version := 0) == b.(finalizers := finalizers, version := 0)
      ensures old(Quiet()) ==> Quiet() && (r.Ok? <==> old(s).obj == Some(b))
                               && s == if r.Ok? then Written(old(s), SetFinalizers(b, finalizers)) else old(s)
    {
      var fate, met := Call(Some(SetFinalizers(b, finalizers)));
      r := Answer(fate, if met.obj == Some(b) then Ok(()) else Failed);
    }

    method CreateNamespace(ghost uid: nat) returns (r: Reply<()>)
      requires Valid() && Held(s, uid)
      modifies this
      ensures Valid() && Kept() && writes == old(writes) + [Some(MakeNamespace)]
      ensures calls == old(calls) + 1 && Answered(r, old(calls))
      ensures old(Quiet()) ==> Quiet() && r == (if old(s).root == Absent then Ok(()) else Failed)
                               && s == if old(s).root == Absent then old(s).(root := Active) else old(s)
    {
      var fate, met := Call(Some(MakeNamespace));
      r := Answer(fate, if met.root == Absent then Ok(()) else Failed);
    }

    /** A name that is taken already counts as success. */
    method CreateBinding(key: Key, ghost uid: nat) returns (r: Reply<()>)
      requires Valid() && Held(s, uid)
      modifies this
      ensures Valid() && Kept() && writes == old(writes) + [Some(MakeBinding(key))]
      ensures calls == old(calls) + 1 && Answered(r, old(calls))
      ensures old(Quiet()) ==>
                Quiet() && r == (if old(s).root == Active then Ok(()) else Failed)
                && s == if key !in old(s).owned && old(s).root == Active then old(s).(owned := old(s).owned[key := false]) else old(s)
    {
      var fate, met := Call(Some(MakeBinding(key)));
      r := Answer(fate, if met.root == Active then Ok(()) else Failed);
    }

    method ListBindings() returns (r: Reply<set<Key>>)
      requires Valid()
      modifies this
      ensures Valid() && Kept() && NothingCreated() && calls == old(calls) + 1 && Answered(r, old(calls))
      ensures fates(old(calls)).Delivered? ==> r.Ok?
      ensures r.Ok? ==> r.value == s.owned.Keys
      ensures r != NotFound && (old(Quiet()) ==> Quiet() && s == old(s) && r.Ok?)
    {
      var fate, met := Call(None);
      r := Answer(fate, Ok(met.owned.Keys));
    }

    /** Deletion only marks the object; it goes when its own finalizers are served. */
    method DeleteBinding(key: Key) returns (r: Reply<()>)
      requires Valid()
      modifies this
      ensures Valid() && Kept() && NothingCreated() && writes == old(writes) + [Some(MarkBinding(key))]
      ensures calls == old(calls) + 1 && Answered(r, old(calls))
      ensures old(Quiet()) ==> Quiet() && r == (if key in s.owned then Ok(()) else NotFound)
                               && s == if key in old(s).owned then old(s).(owned := old(s).owned[key := true]) else old(s)
    {
      var fate, met := Call(Some(MarkBinding(key)));
      r := Answer(fate, if key in met.owned then Ok(()) else NotFound);
    }

    method DeleteNamespace() returns (r: Reply<()>)
      requires Valid()
      modifies this
      ensures Valid() && Kept() && NothingCreated() && writes == old(writes) + [Some(MarkNamespace)]
      ensures calls == old(calls) + 1 && Answered(r, old(calls))
      ensures old(Quiet()) ==> Quiet() && r == (if old(s).root == Absent then NotFound else Ok(()))
                               && s == if old(s).root == Active then old(s).(root := Terminating) else old(s)
    {
      var fate, met := Call(Some(MarkNamespace));
      r := Answer(fate, if met.root != Absent then Ok(()) else NotFound);
    }

    method GetNamespace() returns (r: Reply<()>)
      requires Valid()
      modifies this
      ensures Valid() && Kept() && NothingCreated() && calls == old(calls) + 1 && Answered(r, old(calls))
      ensures r.NotFound? ==> s.root == Absent
      ensures old(Quiet()) ==> Quiet() && s == old(s) && r == if s.root == Absent then NotFound else Ok(())
    {
      var fate, met := Call(None);
      r := Answer(fate, if met.root == Absent then NotFound else Ok(()));
    }

    /** Deletes the cluster role binding or the cluster role. */
    method DeleteRole(binding: bool) returns (r: Reply<()>)
      requires Valid()
      modifies this
      ensures Valid() && Kept() && NothingCreated() && writes == old(writes) + [Some(DropRole(binding))]
      ensures calls == old(calls) + 1 && Answered(r, old(calls))
      ensures old(Quiet()) ==> Quiet() && r in {Ok(()), NotFound}
                               && s == if binding then old(s).(roleBinding := false) else old(s).(role := false)
    {
      var fate, met := Call(Some(DropRole(binding)));
      r := Answer(fate, if (if binding then met.roleBinding else met.role) then Ok(()) else NotFound);
    }

    method GetRole(binding: bool) returns (r: Reply<()>)
      requires Valid()
      modifies this
      ensures Valid() && Kept() && NothingCreated() && calls == old(calls) + 1 && Answered(r, old(calls))
      ensures r == NotFound ==> !(if binding then s.roleBinding else s.role)
      ensures old(Quiet()) ==> Quiet() && s == old(s) && r == if (if binding then s.roleBinding else s.role) then Ok(()) else NotFound
    {
      var fate, met := Call(None);
      r := Answer(fate, if (if binding then met.roleBinding else met.role) then Ok(()) else NotFound);
    }
  }

  // ---------------------------------------------------------------- the worker

  /** Calls of a reconcile pass that create or delete labelled objects, in any order. */
  datatype Op = EnsureNamespace | CreateServiceBinding(key: Key) | DeleteServiceBinding(key: Key)

  datatype PassResult = Vanished | FinalizerAdded | FinalizerRemoved | Error | Settled | Died

  /** A write has been sent since the given call. */
  ghost predicate Wrote(writes: seq<Option<Write>>, since: nat, w: Write) {
    exists k | since <= k < |writes| :: writes[k] == Some(w)
  }

  lemma WroteStays(earlier: seq<Option<Write>>, later: seq<Option<Write>>, since: nat, start: nat, w: Write)
    requires earlier <= later && start <= since && Wrote(earlier, since, w)
    ensures Wrote(later, start, w)
  {
    var k :| since <= k < |earlier| && earlier[k] == Some(w);
    assert later[k] == earlier[k];
  }

  ghost predicate AllMarked(writes: seq<Option<Write>>, since: nat, keys: set<Key>) {
    forall key | key in keys :: Wrote(writes, since, MarkBinding(key))
  }

  lemma MarkedStays(earlier: seq<Option<Write>>, later: seq<Option<Write>>, since: nat, start: nat, keys: set<Key>)
    requires earlier <= later && start <= since && AllMarked(earlier, since, keys)
    ensures AllMarked(later, start, keys)
  {
    forall key | key in keys ensures Wrote(later, start, MarkBinding(key)) {
      WroteStays(earlier, later, since, start, MarkBinding(key));
    }
  }

  /** The service bindings with a deletion mark on the given ones. */
  function Marked(owned: map<Key, bool>, keys: set<Key>): map<Key, bool> {
    map k | k in owned :: owned[k] || k in keys
  }

  /** One delete call for each listed service binding, carrying on past failures. */
  method DeleteEach(c: Cluster, listed: set<Key>) returns (ok: bool, died: bool)
    requires c.Valid()
    modifies c
    ensures c.Valid() && c.KeptSoFar() && c.NothingCreated()
    ensures !died ==> AllMarked(c.writes, old(c.calls), listed)
    ensures c.Went(ok, died, old(c.calls))
    ensures old(c.Quiet()) && listed <= old(c.s).owned.Keys ==>
              c.Quiet() && ok && !died && c.s == old(c.s).(owned := Marked(old(c.s).owned, listed))
  {
    ok, died := true, false;
    ghost var quiet := c.Quiet() && listed <= c.s.owned.Keys;
    var todo := listed;
    assert Marked(c.s.owned, {}) == c.s.owned;
    ghost var done := {};
    while todo != {}
      invariant c.Valid() && c.KeptSoFar() && c.NothingCreated()
      invariant forall k :: k in listed <==> k in done || k in todo
      invariant AllMarked(c.writes, old(c.calls), done) && c.Went(ok, false, old(c.calls))
      invariant quiet ==> c.Quiet() && ok && c.s == old(c.s).(owned := Marked(old(c.s).owned, done))
      decreases |todo|
    {
      var key :| key in todo;
      todo := todo - {key};
      var deleted := DeleteOne(c, key, old(c.s).owned, done, old(c.calls), ok);
      done := done + {key};
      if deleted == Crashed { return false, true; }
      if deleted == Failed { ok := false; }
    }
    assert done == listed;
  }

  method DeleteOne(c: Cluster, key: Key, ghost owned: map<Key, bool>, ghost done: set<Key>, ghost since: nat, ghost ok: bool)
    returns (r: Reply<()>)
    requires c.Valid() && since <= c.calls && AllMarked(c.writes, since, done) && c.Went(ok, false, since)
    modifies c
    ensures c.Valid() && c.Kept() && c.NothingCreated() && AllMarked(c.writes, since, done + {key})
    ensures c.Went(ok && !r.Failed? && !r.Crashed?, r.Crashed?, since)
    ensures old(c.Quiet()) && key in owned && old(c.s).owned == Marked(owned, done) ==>
              c.Quiet() && r.Ok? && c.s == old(c.s).(owned := Marked(owned, done + {key}))
  {
    r := c.DeleteBinding(key);
    MarkOne(owned, done, key, old(c.writes), c.writes, since);
  }

  lemma MarkOne(owned: map<Key, bool>, done: set<Key>, key: Key, before: seq<Option<Write>>, after: seq<Option<Write>>, since: nat)
    requires AllMarked(before, since, done) && after == before + [Some(MarkBinding(key))] && since <= |before|
    ensures AllMarked(after, since, done + {key})
    ensures key in owned ==> Marked(owned, done)[key := true] == Marked(owned, done + {key})
  {
    MarkedStays(before, after, since, since, done);
    assert after[|before|] == Some(MarkBinding(key));
  }

  /** Deletes the listed service bindings and looks whether any is left. */
  method DeleteListed(c: Cluster, listed: set<Key>) returns (ok: bool, died: bool)
    requires c.Valid()
    modifies c
    ensures c.Valid() && c.KeptSoFar() && c.NothingCreated()
    ensures ok ==> !died && c.s.owned == map[]
    ensures !died ==> AllMarked(c.writes, old(c.calls), listed)
    ensures c.Went(ok, died, old(c.calls))
    ensures old(c.Quiet()) && listed == old(c.s).owned.Keys ==>
              c.Quiet() && !died && (ok <==> old(c.s).owned == map[]) && c.s == old(c.s).(owned := Marked(old(c.s).owned, listed))
  {
    ok, died := DeleteEach(c, listed);
    if !died {
      ghost var writes := c.writes;
      var remaining := c.ListBindings();
      MarkedStays(writes, c.writes, old(c.calls), old(c.calls), listed);
      died := remaining == Crashed;
      ok := ok && remaining.Ok? && |remaining.value| == 0;
    } else {
      ok := false;
    }
  }

  /** Deletes the labelled service bindings and looks whether any is left. */
  method DeleteOwned(c: Cluster, ghost uid: nat) returns (ok: bool, died: bool)
    requires c.Valid() && Held(c.s, uid)
    modifies c
    ensures c.Valid() && c.Kept() && c.NothingCreated()
    ensures ok ==> !died && c.s.owned == map[]
    ensures c.Went(ok, died, old(c.calls))
    ensures !died && c.fates(old(c.calls)).Delivered? ==> AllMarked(c.writes, old(c.calls), c.moments[old(c.calls) + 1].owned.Keys)
    ensures old(c.Quiet()) ==> c.Quiet() && !died && (ok <==> old(c.s).owned == map[])
                               && c.s == old(c.s).(owned := Marked(old(c.s).owned, old(c.s).owned.Keys))
  {
    var listed := c.ListBindings();
    ghost var moments, start := c.moments, c.calls;
    assert moments[start] == c.s;
    if listed.Ok? {
      ok, died := DeleteListed(c, listed.value);
      if !died { MarkedStays(c.writes, c.writes, start, old(c.calls), listed.value); }
    } else {
      ok, died := false, listed == Crashed;
    }
  }

  /** A state since the given moment lacked the cluster role binding, or the cluster role. */
  ghost predicate RoleSeenGone(moments: seq<Api>, since: nat, binding: bool) {
    exists i | since <= i < |moments| :: if binding then !moments[i].roleBinding else !moments[i].role
  }

  ghost predicate RolesSeenGone(moments: seq<Api>, since: nat) {
    RoleSeenGone(moments, since, true) && RoleSeenGone(moments, since, false)
  }

  lemma RoleStaysSeen(earlier: seq<Api>, later: seq<Api>, since: nat, start: nat, binding: bool)
    requires earlier <= later && start <= since && RoleSeenGone(earlier, since, binding)
    ensures RoleSeenGone(later, start, binding)
  {
    var i :| since <= i < |earlier| && if binding then !earlier[i].roleBinding else !earlier[i].role;
    assert later[i] == earlier[i];
  }

  lemma SeenStaysSeen(earlier: seq<Api>, later: seq<Api>, since: nat, start: nat)
    requires earlier <= later && start <= since && RolesSeenGone(earlier, since)
    ensures RolesSeenGone(later, start)
  {
    RoleStaysSeen(earlier, later, since, start, true);
    RoleStaysSeen(earlier, later, since, start, false);
  }

  /** Deletes the cluster role binding, or the cluster role, and looks whether it is gone. */
  method DeleteAndVerify(c: Cluster, binding: bool) returns (ok: bool, died: bool)
    requires c.Valid()
    modifies c
    ensures c.Valid() && c.Kept() && c.NothingCreated()
    ensures ok ==> !died && RoleSeenGone(c.moments, old(c.calls), binding)
    ensures c.Went(ok, died, old(c.calls))
    ensures !died ==> Wrote(c.writes, old(c.calls), DropRole(binding))
    ensures old(c.Quiet()) ==> c.Quiet() && ok && c.s == if binding then old(c.s).(roleBinding := false) else old(c.s).(role := false)
  {
    ok, died := true, false;
    var deleted := c.DeleteRole(binding);
    if deleted == Crashed { return false, true; }
    if deleted == Failed { ok := false; }
    assert c.writes[old(c.calls)] == Some(DropRole(binding));
    var got := c.GetRole(binding);
    if got == Crashed { return false, true; }
    if got != NotFound { ok := false; }
    assert c.moments[c.calls] == c.s;
  }

  /** Deletes the cluster role binding, then the cluster role. */
  method DeleteRoles(c: Cluster, ghost uid: nat) returns (ok: bool, died: bool)
    requires c.Valid() && Held(c.s, uid)
    modifies c
    ensures c.Valid() && c.Kept() && c.NothingCreated()
    ensures ok ==> !died && RolesSeenGone(c.moments, old(c.calls))
    ensures c.Went(ok, died, old(c.calls))
    ensures !died ==> Wrote(c.writes, old(c.calls), DropRole(true)) && Wrote(c.writes, old(c.calls), DropRole(false))
    ensures old(c.Quiet()) ==> c.Quiet() && ok && c.s == old(c.s).(role := false, roleBinding := false)
  {
    var ok1, died1 := DeleteAndVerify(c, true);
    if died1 { return false, true; }
    ghost var seen, since, writes := c.moments, c.calls, c.writes;
    var ok2, died2 := DeleteAndVerify(c, false);
    if died2 { return false, true; }
    ok, died := ok1 && ok2, false;
    WroteStays(writes, c.writes, old(c.calls), old(c.calls), DropRole(true));
    WroteStays(c.writes, c.writes, since, old(c.calls), DropRole(false));
    if ok {
      RoleStaysSeen(seen, c.moments, old(c.calls), old(c.calls), true);
      RoleStaysSeen(c.moments, c.moments, since, old(c.calls), false);
    }
  }

  method DeleteRoot(c: Cluster, ghost uid: nat) returns (ok: bool, died: bool)
    requires c.Valid() && Held(c.s, uid)
    modifies c
    ensures c.Valid() && c.Kept() && c.NothingCreated()
    ensures ok ==> !died && c.s.root == Absent
    ensures c.Went(ok, died, old(c.calls))
    ensures !died ==> Wrote(c.writes, old(c.calls), MarkNamespace)
    ensures old(c.Quiet()) ==> c.Quiet() && !died && (ok <==> old(c.s).root == Absent)
                               && c.s == if old(c.s).root == Active then old(c.s).(root := Terminating) else old(c.s)
  {
    ok, died := true, false;
    var deleted := c.DeleteNamespace();
    if deleted == Crashed { return false, true; }
    if deleted == Failed { ok := false; }
    assert c.writes[old(c.calls)] == Some(MarkNamespace);
    var got := c.GetNamespace();
    if got == Crashed { return false, true; }
    if got != NotFound { ok := false; }
  }

  /** What a deletion asks for, if every call arrives: every labelled service binding is marked, an
      active root namespace terminates, and both roles go. */
  function Asked(s: Api): Api {
    s.(owned := map k | k in s.owned :: true, root := if s.root == Active then Terminating else s.root,
       role := false, roleBinding := false)
  }

  ghost predicate RestAsked(writes: seq<Option<Write>>, since: nat) {
    Wrote(writes, since, MarkNamespace) && Wrote(writes, since, DropRole(true)) && Wrote(writes, since, DropRole(false))
  }

  lemma RestStaysAsked(earlier: seq<Option<Write>>, later: seq<Option<Write>>, since: nat, start: nat)
    requires earlier <= later && start <= since && RestAsked(earlier, since)
    ensures RestAsked(later, start)
  {
    WroteStays(earlier, later, since, start, MarkNamespace);
    WroteStays(earlier, later, since, start, DropRole(true));
    WroteStays(earlier, later, since, start, DropRole(false));
  }

  /** Unless the worker dies, a deletion since the given call has asked for the namespace and both
      roles to go, and for every service binding that its list call was answered with. */
  ghost predicate DeletionAsked(moments: seq<Api>, writes: seq<Option<Write>>, fates: nat -> Fate, since: nat) {
    && since < |writes| && |moments| == |writes| + 1
    && RestAsked(writes, since)
    && (fates(since).Delivered? ==> AllMarked(writes, since, moments[since + 1].owned.Keys))
  }

  lemma DeletionStaysAsked(moments: seq<Api>, later: seq<Api>, writes: seq<Option<Write>>, after: seq<Option<Write>>,
                           fates: nat -> Fate, since: nat)
    requires DeletionAsked(moments, writes, fates, since) && moments <= later && writes <= after && |later| == |after| + 1
    ensures DeletionAsked(later, after, fates, since)
  {
    RestStaysAsked(writes, after, since, since);
    if fates(since).Delivered? {
      MarkedStays(writes, after, since, since, moments[since + 1].owned.Keys);
    }
  }

  lemma DeletionParts(moments: seq<Api>, writes: seq<Option<Write>>, fates: nat -> Fate, since: nat,
                      w1: seq<Option<Write>>)
    requires since < |w1| && w1 <= writes && |moments| == |writes| + 1
    requires fates(since).Delivered? ==> AllMarked(w1, since, moments[since + 1].owned.Keys)
    requires RestAsked(writes, |w1|)
    ensures DeletionAsked(moments, writes, fates, since)
  {
    RestStaysAsked(writes, writes, |w1|, since);
    if fates(since).Delivered? {
      MarkedStays(w1, writes, since, since, moments[since + 1].owned.Keys);
    }
  }

  lemma AskedInParts(s: Api)
    ensures var s1 := s.(owned := Marked(s.owned, s.owned.Keys)).(role := false, roleBinding := false);
            && Asked(s) == (if s1.root == Active then s1.(root := Terminating) else s1)
            && s1.root == s.root
  {
  }

  /** Deletes the two roles, then the namespace. */
  method DeleteRest(c: Cluster, ghost uid: nat) returns (ok: bool, died: bool)
    requires c.Valid() && Held(c.s, uid)
    modifies c
    ensures c.Valid() && c.Kept() && c.NothingCreated()
    ensures ok ==> !died && c.s.root == Absent && RolesSeenGone(c.moments, old(c.calls))
    ensures c.Went(ok, died, old(c.calls))
    ensures !died ==> RestAsked(c.writes, old(c.calls))
    ensures old(c.Quiet()) ==>
              var s1 := old(c.s).(role := false, roleBinding := false);
              c.Quiet() && !died && (ok <==> s1.root == Absent) && c.s == if s1.root == Active then s1.(root := Terminating) else s1
  {
    var rolesGone;
    rolesGone, died := DeleteRoles(c, uid);
    ok := false;
    if !died {
      ghost var moments, writes, since := c.moments, c.writes, c.calls;
      var rootGone;
      rootGone, died := DeleteRoot(c, uid);
      ok := rolesGone && rootGone;
      if !died {
        WroteStays(writes, c.writes, old(c.calls), old(c.calls), DropRole(true));
        WroteStays(writes, c.writes, old(c.calls), old(c.calls), DropRole(false));
        WroteStays(c.writes, c.writes, since, old(c.calls), MarkNamespace);
      }
      if ok {
        SeenStaysSeen(moments, c.moments, old(c.calls), old(c.calls));
      }
    }
  }

  /** ensureDeleted: carries on past failures and reports success only when nothing was left. */
  method EnsureDeleted(c: Cluster, ghost uid: nat) returns (ok: bool, died: bool)
    requires c.Valid() && Held(c.s, uid)
    modifies c
    ensures c.Valid() && c.Kept() && c.NothingCreated()
    ensures ok ==> !died && Clean(c.s) && RolesSeenGone(c.moments, old(c.calls))
    ensures c.Went(ok, died, old(c.calls))
    ensures !died ==> DeletionAsked(c.moments, c.writes, c.fates, old(c.calls))
    ensures old(c.Quiet()) ==> c.Quiet() && !died && (ok <==> Clean(old(c.s))) && c.s == Asked(old(c.s))
  {
    var bindingsGone;
    bindingsGone, died := DeleteOwned(c, uid);
    ok := false;
    if !died {
      ghost var mid, w1, m1 := c.calls, c.writes, c.moments;
      var restGone;
      restGone, died := DeleteRest(c, uid);
      ok := bindingsGone && restGone;
      if !died {
        assert c.moments[old(c.calls) + 1] == m1[old(c.calls) + 1];
        DeletionParts(c.moments, c.writes, c.fates, old(c.calls), w1);
      }
      if ok {
        SeenStaysSeen(c.moments, c.moments, mid, old(c.calls));
      }
    }
    AskedInParts(old(c.s));
  }

  /** What is created since the given call is asked for by the operations. */
  ghost predicate OnlyAsked(writes: seq<Option<Write>>, since: nat, ops: seq<Op>) {
    forall k | since <= k < |writes| && Creates(writes[k]) ::
      if writes[k].value.MakeNamespace? then EnsureNamespace in ops else CreateServiceBinding(writes[k].value.key) in ops
  }

  /** What an operation comes to if every call arrives. */
  function Performed(s: Api, op: Op): Api {
    match op
    case EnsureNamespace => if s.root == Absent then s.(root := Active) else s
    case CreateServiceBinding(key) => if key !in s.owned && s.root == Active then s.(owned := s.owned[key := false]) else s
    case DeleteServiceBinding(key) => if key in s.owned then s.(owned := s.owned[key := true]) else s
  }

  function PerformedAll(s: Api, ops: seq<Op>): Api {
    if ops == [] then s else Performed(PerformedAll(s, ops[..|ops| - 1]), ops[|ops| - 1])
  }

  /** An operation that the server refuses: nothing is created in a namespace that is not active. */
  predicate Refused(s: Api, op: Op) {
    op.CreateServiceBinding? && s.root != Active
  }

  predicate AnyRefused(s: Api, ops: seq<Op>) {
    ops != [] && (AnyRefused(s, ops[..|ops| - 1]) || Refused(PerformedAll(s, ops[..|ops| - 1]), ops[|ops| - 1]))
  }

  /** Unless the worker dies, every service binding to create or to delete is asked for. */
  ghost predicate OpAsked(writes: seq<Option<Write>>, since: nat, op: Op) {
    match op
    case EnsureNamespace => true
    case CreateServiceBinding(key) => Wrote(writes, since, MakeBinding(key))
    case DeleteServiceBinding(key) => Wrote(writes, since, MarkBinding(key))
  }

  ghost predicate OpsAsked(writes: seq<Option<Write>>, since: nat, ops: seq<Op>) {
    forall op | op in ops :: OpAsked(writes, since, op)
  }

  lemma OpsStayAsked(earlier: seq<Option<Write>>, later: seq<Option<Write>>, since: nat, start: nat, ops: seq<Op>)
    requires earlier <= later && start <= since && OpsAsked(earlier, since, ops)
    ensures OpsAsked(later, start, ops)
  {
    forall op | op in ops ensures OpAsked(later, start, op) {
      match op
      case EnsureNamespace =>
      case CreateServiceBinding(key) => WroteStays(earlier, later, since, start, MakeBinding(key));
      case DeleteServiceBinding(key) => WroteStays(earlier, later, since, start, MarkBinding(key));
    }
  }

  method EnsureRoot(c: Cluster, ghost uid: nat) returns (r: Reply<()>)
    requires c.Valid() && Held(c.s, uid)
    modifies c
    ensures c.Valid() && c.Kept() && OnlyAsked(c.writes, old(c.calls), [EnsureNamespace])
    ensures c.Went(r.Ok? || r.NotFound?, r.Crashed?, old(c.calls))
    ensures old(c.Quiet()) ==> c.Quiet() && r.Ok? && c.s == Performed(old(c.s), EnsureNamespace)
  {
    r := c.GetNamespace();
    if r == NotFound { r := c.CreateNamespace(uid); }
  }

  method Perform(c: Cluster, op: Op, ghost uid: nat) returns (r: Reply<()>)
    requires c.Valid() && Held(c.s, uid)
    modifies c
    ensures c.Valid() && c.Kept() && OnlyAsked(c.writes, old(c.calls), [op])
    ensures OpAsked(c.writes, old(c.calls), op) && c.Went(r.Ok? || r.NotFound?, r.Crashed?, old(c.calls))
    ensures old(c.Quiet()) ==> c.Quiet() && !r.Crashed? && (r.Failed? <==> Refused(old(c.s), op)) && c.s == Performed(old(c.s), op)
  {
    match op {
      case EnsureNamespace => r := EnsureRoot(c, uid);
      case CreateServiceBinding(key) =>
        r := c.CreateBinding(key, uid);
        assert c.writes[old(c.calls)] == Some(MakeBinding(key));
      case DeleteServiceBinding(key) =>
        r := c.DeleteBinding(key);
        assert c.writes[old(c.calls)] == Some(MarkBinding(key));
    }
  }

  lemma AskedOneMore(earlier: seq<Option<Write>>, later: seq<Option<Write>>, since: nat, ops: seq<Op>, op: Op)
    requires earlier <= later && since <= |earlier| && op in ops
    requires OnlyAsked(earlier, since, ops) && OnlyAsked(later, |earlier|, [op])
    ensures OnlyAsked(later, since, ops)
  {
    forall k | since <= k < |later| && Creates(later[k])
      ensures if later[k].value.MakeNamespace? then EnsureNamespace in ops else CreateServiceBinding(later[k].value.key) in ops
    {
      if k < |earlier| {
        assert later[k] == earlier[k];
      }
    }
  }

  /** The creating part of a reconcile pass: any sequence of its calls, carrying on past failures. */
  method Reconcile(c: Cluster, ops: seq<Op>, ghost uid: nat) returns (ok: bool, died: bool)
    requires c.Valid() && Held(c.s, uid)
    modifies c
    ensures c.Valid() && c.KeptSoFar() && OnlyAsked(c.writes, old(c.calls), ops)
    ensures ok ==> !died
    ensures !died ==> OpsAsked(c.writes, old(c.calls), ops)
    ensures c.Went(ok, died, old(c.calls))
    ensures old(c.Quiet()) ==> c.Quiet() && !died && (ok <==> !AnyRefused(old(c.s), ops)) && c.s == PerformedAll(old(c.s), ops)
  {
    ok := true;
    ghost var quiet := c.Quiet();
    for i := 0 to |ops|
      invariant c.Valid() && c.KeptSoFar() && OnlyAsked(c.writes, old(c.calls), ops)
      invariant OpsAsked(c.writes, old(c.calls), ops[..i]) && c.Went(ok, false, old(c.calls))
      invariant quiet ==> c.Quiet() && (ok <==> !AnyRefused(old(c.s), ops[..i])) && c.s == PerformedAll(old(c.s), ops[..i])
    {
      ghost var writes := c.writes;
      var r := Perform(c, ops[i], uid);
      AskedOneMore(writes, c.writes, old(c.calls), ops, ops[i]);
      OneMoreOp(old(c.s), ops, i, writes, c.writes, old(c.calls));
      if r == Crashed { return false, true; }
      if r == Failed { ok := false; }
    }
    assert ops[..|ops|] == ops;
    died := false;
  }

  lemma OneMoreOp(s: Api, ops: seq<Op>, i: nat, before: seq<Option<Write>>, after: seq<Option<Write>>, since: nat)
    requires i < |ops| && before <= after && since <= |before|
    requires OpsAsked(before, since, ops[..i]) && OpAsked(after, |before|, ops[i])
    ensures OpsAsked(after, since, ops[..i + 1])
    ensures PerformedAll(s, ops[..i + 1]) == Performed(PerformedAll(s, ops[..i]), ops[i])
    ensures AnyRefused(s, ops[..i + 1]) <==> AnyRefused(s, ops[..i]) || Refused(PerformedAll(s, ops[..i]), ops[i])
  {
    assert ops[..i + 1][..i] == ops[..i];
    OpsStayAsked(before, after, since, since, ops[..i]);
    assert OpsAsked(after, |before|, [ops[i]]);
    OpsStayAsked(after, after, |before|, since, [ops[i]]);
    assert OpAsked(after, since, ops[i]);
  }

  /** Once the namespace is ensured, nothing is refused. */
  lemma {:induction false} NothingRefused(s: Api, ops: seq<Op>)
    requires ops != [] && ops[0] == EnsureNamespace && s.root != Terminating
    ensures PerformedAll(s, ops).root == Active && !AnyRefused(s, ops)
    decreases |ops|
  {
    var front := ops[..|ops| - 1];
    if front == [] {
      assert PerformedAll(s, front) == s && !AnyRefused(s, front);
    } else {
      NothingRefused(s, front);
    }
  }

  lemma {:induction false} OneExists(s: Api, ops: seq<Op>, key: Key)
    requires ops != [] && ops[0] == EnsureNamespace && s.root != Terminating
    ensures var owned := PerformedAll(s, ops).owned;
            && (CreateServiceBinding(key) in ops ==> key in owned)
            && (key in s.owned ==> key in owned && (DeleteServiceBinding(key) in ops ==> owned[key]))
    decreases |ops|
  {
    var front, last := ops[..|ops| - 1], ops[|ops| - 1];
    assert forall op :: op in ops <==> op in front || op == last;
    if front == [] {
      assert PerformedAll(s, front) == s;
    } else {
      NothingRefused(s, front);
      OneExists(s, front, key);
    }
  }

  /** Once the namespace is ensured, what is to be created exists after the pass. */
  lemma CreatedExist(s: Api, ops: seq<Op>)
    requires ops != [] && ops[0] == EnsureNamespace && s.root != Terminating
    ensures forall key | CreateServiceBinding(key) in ops :: key in PerformedAll(s, ops).owned
    ensures forall key | key in s.owned :: key in PerformedAll(s, ops).owned && (DeleteServiceBinding(key) in ops ==> PerformedAll(s, ops).owned[key])
  {
    forall key ensures CreateServiceBinding(key) in ops ==> key in PerformedAll(s, ops).owned
               ensures key in s.owned ==> key in PerformedAll(s, ops).owned && (DeleteServiceBinding(key) in ops ==> PerformedAll(s, ops).owned[key])
    {
      OneExists(s, ops, key);
    }
  }

  /** What an undisturbed pass comes to.
      - A missing finalizer is added to a live object; a live object that carries it keeps it, and
        the operations are performed, with an error exactly if the server refuses one of them.
      - An object under deletion loses the finalizer if nothing is left. Otherwise its service
        bindings are marked, its namespace terminates and its roles go.
      - Where there is no object or nothing to do, nothing changes. */
  predicate Undisturbed(before: Api, ops: seq<Op>, result: PassResult, after: Api) {
    if before.obj == None then result == Vanished && after == before
    else
      var b := before.obj.value;
      if b.deleting && !HasOurFinalizer(before) then result == Settled && after == before
      else if b.deleting && Clean(before) then
        && result == FinalizerRemoved && Clean(after) && !after.role && !after.roleBinding
        && (after.obj == None <==> forall f | f in b.finalizers :: f == FINALIZER)
        && (after.obj.Some? ==> after.obj.value.(version := 0) == b.(finalizers := Without(b.finalizers, FINALIZER), version := 0))
      else if b.deleting then result == Error && after == Asked(before)
      else if !HasOurFinalizer(before) then
        && result == FinalizerAdded && after.obj.Some?
        && after.obj.value.(version := 0) == b.(finalizers := b.finalizers + [FINALIZER], version := 0)
        && after == before.(obj := after.obj, clock := after.clock)
      else result == (if AnyRefused(before, ops) then Error else Settled) && after == PerformedAll(before, ops)
  }

  lemma {:induction false} NothingElse(finalizers: seq<string>, target: string)
    ensures Without(finalizers, target) == [] <==> forall f | f in finalizers :: f == target
    decreases finalizers
  {
    if finalizers != [] {
      var rest := finalizers[1..];
      NothingElse(rest, target);
      assert forall f | f in rest :: f in finalizers;
      assert finalizers[0] in finalizers;
      if finalizers[0] == target {
        assert Without(finalizers, target) == Without(rest, target);
        assert forall f | f in finalizers :: f == finalizers[0] || f in rest;
      } else {
        assert Without(finalizers, target)[0] == finalizers[0];
      }
    }
  }

  /** What a pass has asked for, however its calls fared, unless the worker died: an object that was
      read without the finalizer gets it, one that was read under deletion is cleaned up after, and
      for one that was read alive the operations are carried out. */
  ghost predicate Attempted(moments: seq<Api>, writes: seq<Option<Write>>, fates: nat -> Fate, start: nat, ops: seq<Op>, result: PassResult)
    requires start < |writes| && |moments| == |writes| + 1
  {
    var read := moments[start + 1].obj;
    fates(start).Delivered? && read.Some? && result != Died ==>
      var b := read.value;
      if FINALIZER in b.finalizers then (if b.deleting then DeletionAsked(moments, writes, fates, start + 1) else OpsAsked(writes, start, ops))
      else !b.deleting ==> Wrote(writes, start, SetFinalizers(b, b.finalizers + [FINALIZER]))
  }

  /** What the result of a pass says of its calls, however they fared: what it created was asked for;
      it reports the object gone after a single read that found none, the finalizer added after
      appending it, and removed after removing it from a clean server on which it had seen both
      roles gone. */
  ghost predicate Reported(moments: seq<Api>, writes: seq<Option<Write>>, start: nat, ops: seq<Op>, result: PassResult)
    requires start < |writes| && |moments| == |writes| + 1
  {
    var n := |writes|;
    && OnlyAsked(writes, start, ops)
    && (result == Vanished ==> n == start + 1 && writes[start] == None && moments[n].obj == None)
    && (result == FinalizerAdded ==>
          && writes[n - 1].Some? && writes[n - 1].value.SetFinalizers?
          && writes[n - 1].value.finalizers == writes[n - 1].value.binding.finalizers + [FINALIZER])
    && (result == FinalizerRemoved ==>
          && writes[n - 1].Some? && writes[n - 1].value.SetFinalizers?
          && writes[n - 1].value.finalizers == Without(writes[n - 1].value.binding.finalizers, FINALIZER)
          && Clean(moments[n - 1]) && Clean(moments[n]) && RolesSeenGone(moments, start))
  }

  /** How a pass ends: with the worker dead exactly if one of its calls crashed it, and without an error
      only if every call of the pass was delivered. */
  ghost predicate Ended(fates: nat -> Fate, start: nat, end: nat, result: PassResult)
    requires start < end
  {
    && (result == Died <==> exists k | start <= k < end :: fates(k).Crash?)
    && (result == Error || result == Died || forall k | start <= k < end :: fates(k).Delivered?)
  }

  /** The branch of process for a live object without the finalizer. */
  method Adopt(c: Cluster, binding: Binding, ghost start: nat, ghost ops: seq<Op>) returns (result: PassResult)
    requires c.Valid() && start < c.calls && OnlyAsked(c.writes, start, ops)
    modifies c
    ensures c.Valid() && old(c.moments) <= c.moments && old(c.writes) <= c.writes && old(c.calls) < c.calls
    ensures Reported(c.moments, c.writes, start, ops, result) && c.Went(result != Error && result != Died, result == Died, old(c.calls))
    ensures Wrote(c.writes, start, SetFinalizers(binding, binding.finalizers + [FINALIZER]))
    ensures old(c.Quiet()) && old(c.s).obj == Some(binding) && !binding.deleting && !HasOurFinalizer(old(c.s)) ==>
              Undisturbed(old(c.s), ops, result, c.s)
  {
    var added := c.Update(binding, binding.finalizers + [FINALIZER]);
    assert c.writes[old(c.calls)] == Some(SetFinalizers(binding, binding.finalizers + [FINALIZER]));
    if added == Crashed { return Died; }
    return if added.Ok? then FinalizerAdded else Error;
  }

  /** The end of a deletion: the finalizer goes from a clean server. */
  method Drop(c: Cluster, binding: Binding, ghost start: nat, ghost ops: seq<Op>) returns (result: PassResult)
    requires c.Valid() && start < c.calls && OnlyAsked(c.writes, start, ops)
    requires Clean(c.s) && RolesSeenGone(c.moments, start)
    modifies c
    ensures c.Valid() && old(c.moments) <= c.moments && old(c.writes) <= c.writes && old(c.calls) < c.calls
    ensures Reported(c.moments, c.writes, start, ops, result) && c.Went(result != Error && result != Died, result == Died, old(c.calls))
    ensures old(c.Quiet()) && old(c.s).obj == Some(binding) ==>
              result == FinalizerRemoved && c.s == Written(old(c.s), SetFinalizers(binding, Without(binding.finalizers, FINALIZER)))
  {
    RemovalIsExact(binding.finalizers, FINALIZER);
    var remaining := RemoveFinalizer(binding.finalizers, FINALIZER);
    var removed := c.Update(binding, remaining);
    result := if removed.Ok? then FinalizerRemoved else if removed.Crashed? then Died else Error;
    assert c.Went(result != Error && result != Died, result == Died, old(c.calls));
    RemovalReported(old(c.moments), c.moments, old(c.writes), c.writes, start, ops, binding);
  }

  lemma RemovalReported(earlier: seq<Api>, later: seq<Api>, before: seq<Option<Write>>, after: seq<Option<Write>>,
                        start: nat, ops: seq<Op>, b: Binding)
    requires |earlier| == |before| + 1 && |later| == |after| + 1 && earlier <= later && start < |before|
    requires after == before + [Some(SetFinalizers(b, Without(b.finalizers, FINALIZER)))]
    requires OnlyAsked(before, start, ops) && RolesSeenGone(earlier, start)
    requires Clean(earlier[|before|]) && Clean(later[|after|])
    ensures Reported(later, after, start, ops, FinalizerRemoved)
    ensures Reported(later, after, start, ops, Error) && Reported(later, after, start, ops, Died)
  {
    SeenStaysSeen(earlier, later, start, start);
    AskedStill(before, after, start, ops);
    assert later[|after| - 1] == earlier[|before|];
  }

  lemma AskedStill(earlier: seq<Option<Write>>, later: seq<Option<Write>>, since: nat, ops: seq<Op>)
    requires earlier <= later && OnlyAsked(earlier, since, ops) && forall k | |earlier| <= k < |later| :: !Creates(later[k])
    ensures OnlyAsked(later, since, ops)
  {
    forall k | since <= k < |later| && Creates(later[k])
      ensures if later[k].value.MakeNamespace? then EnsureNamespace in ops else CreateServiceBinding(later[k].value.key) in ops
    {
      assert later[k] == earlier[k];
    }
  }

  /** The branch of process for an object under deletion that carries the finalizer. */
  method Release(c: Cluster, binding: Binding, ghost start: nat, ghost ops: seq<Op>) returns (result: PassResult)
    requires c.Valid() && start < c.calls && OnlyAsked(c.writes, start, ops) && Held(c.s, binding.uid)
    modifies c
    ensures c.Valid() && old(c.moments) <= c.moments && old(c.writes) <= c.writes && old(c.calls) < c.calls
    ensures Reported(c.moments, c.writes, start, ops, result) && c.Went(result != Error && result != Died, result == Died, old(c.calls))
    ensures result != Died ==> DeletionAsked(c.moments, c.writes, c.fates, old(c.calls))
    ensures old(c.Quiet()) && old(c.s).obj == Some(binding) && binding.deleting ==> Undisturbed(old(c.s), ops, result, c.s)
  {
    var gone, died := EnsureDeleted(c, binding.uid);
    AskedStill(old(c.writes), c.writes, start, ops);
    assert Held(c.s, binding.uid);
    if died { return Died; }
    if !gone { return Error; }
    SeenStaysSeen(c.moments, c.moments, old(c.calls), start);
    ghost var moments, writes := c.moments, c.writes;
    result := Drop(c, binding, start, ops);
    DeletionStaysAsked(moments, c.moments, writes, c.writes, c.fates, old(c.calls));
    if old(c.Quiet()) && old(c.s).obj == Some(binding) && binding.deleting {
      Dropped(old(c.s), binding, ops, c.s);
    }
  }

  lemma Dropped(before: Api, b: Binding, ops: seq<Op>, after: Api)
    requires before.obj == Some(b) && b.deleting && FINALIZER in b.finalizers && Clean(before)
    requires after == Written(Asked(before), SetFinalizers(b, Without(b.finalizers, FINALIZER)))
    ensures Undisturbed(before, ops, FinalizerRemoved, after)
  {
    NothingElse(b.finalizers, FINALIZER);
  }

  /** The branch of process for a live object that carries the finalizer. */
  method Serve(c: Cluster, ops: seq<Op>, ghost uid: nat, ghost start: nat) returns (result: PassResult)
    requires c.Valid() && start < c.calls && OnlyAsked(c.writes, start, ops) && Held(c.s, uid)
    modifies c
    ensures c.Valid() && old(c.moments) <= c.moments && old(c.writes) <= c.writes && old(c.calls) <= c.calls
    ensures Reported(c.moments, c.writes, start, ops, result)
    ensures c.Went(result == Settled, result == Died, old(c.calls)) && result in {Settled, Error, Died}
    ensures result != Died ==> OpsAsked(c.writes, start, ops)
    ensures old(c.Quiet()) ==> c.Quiet() && result == (if AnyRefused(old(c.s), ops) then Error else Settled)
                               && c.s == PerformedAll(old(c.s), ops)
  {
    var ok, died := Reconcile(c, ops, uid);
    AskedTogether(old(c.writes), c.writes, start, ops);
    result := if died then Died else if ok then Settled else Error;
    if !died { OpsStayAsked(c.writes, c.writes, old(c.calls), start, ops); }
  }

  lemma AskedTogether(earlier: seq<Option<Write>>, later: seq<Option<Write>>, since: nat, ops: seq<Op>)
    requires earlier <= later && since <= |earlier| && OnlyAsked(earlier, since, ops) && OnlyAsked(later, |earlier|, ops)
    ensures OnlyAsked(later, since, ops)
  {
    forall k | since <= k < |later| && Creates(later[k])
      ensures if later[k].value.MakeNamespace? then EnsureNamespace in ops else CreateServiceBinding(later[k].value.key) in ops
    {
      if k < |earlier| { assert later[k] == earlier[k]; }
    }
  }

  /** process: one pass over the AppClusterBinding, with the reconcile calls it would make. */
  method Process(c: Cluster, ops: seq<Op>) returns (result: PassResult)
    requires c.Valid()
    modifies c
    ensures c.Valid() && old(c.moments) <= c.moments && old(c.writes) <= c.writes && old(c.calls) < c.calls
    ensures Reported(c.moments, c.writes, old(c.calls), ops, result)
    ensures c.Went(result != Error && result != Died, result == Died, old(c.calls))
    ensures Attempted(c.moments, c.writes, c.fates, old(c.calls), ops, result)
    ensures old(c.Quiet()) ==> Undisturbed(old(c.s), ops, result, c.s)
  {
    var read := c.Get();
    assert c.moments[c.calls] == c.s;
    if read == Crashed { return Died; }
    if read == Failed { return Error; }
    if read == NotFound { return Vanished; }
    var binding := read.value;
    var has := HasFinalizer(binding.finalizers, FINALIZER);
    if !binding.deleting {
      if !has {
        result := Adopt(c, binding, old(c.calls), ops);
        return;
      }
    } else if has {
      result := Release(c, binding, old(c.calls), ops);
      return;
    }
    result := Settled;
    if !binding.deleting {
      result := Serve(c, ops, binding.uid, old(c.calls));
    }
  }

  /** Every state the server goes through, within calls too, is safe. */
  ghost predicate SafeThroughout(moments: seq<Api>, events: nat -> seq<Event>) {
    && (forall k | 0 <= k < |moments| :: Safe(moments[k]))
    && (forall k, i | 0 <= k && k + 1 < |moments| && 0 <= i <= |events(k)| :: Safe(Moved(moments[k], events(k)[..i])))
  }

  lemma SafeWithinCalls(c: Cluster)
    requires c.Valid()
    ensures SafeThroughout(c.moments, c.events)
  {
    forall k, i | 0 <= k && k + 1 < |c.moments| && 0 <= i <= |c.events(k)| ensures Safe(Moved(c.moments[k], c.events(k)[..i])) {
      MovedKeeps(c.moments[k], c.events(k)[..i]);
    }
  }

  /** Once the object is gone, nothing the worker created remains. */
  lemma GoneMeansClean(moments: seq<Api>, events: nat -> seq<Event>, k: nat, i: nat)
    requires SafeThroughout(moments, events) && k + 1 < |moments| && i <= |events(k)|
    ensures Moved(moments[k], events(k)[..i]).obj == None ==> Clean(Moved(moments[k], events(k)[..i]))
    ensures moments[k + 1].obj == None ==> Clean(moments[k + 1])
  {
    assert Safe(Moved(moments[k], events(k)[..i])) && Safe(moments[k + 1]);
  }

  /** A pass from one call to another reports what its calls came to. */
  ghost predicate Passes(moments: seq<Api>, writes: seq<Option<Write>>, fates: nat -> Fate, start: nat, end: nat,
                         ops: seq<Op>, result: PassResult)
  {
    && start < end <= |writes| && |moments| == |writes| + 1
    && Reported(moments[..end + 1], writes[..end], start, ops, result)
    && Attempted(moments[..end + 1], writes[..end], fates, start, ops, result) && Ended(fates, start, end, result)
  }

  ghost predicate PassesQuietly(moments: seq<Api>, start: nat, end: nat, ops: seq<Op>, result: PassResult) {
    start < end < |moments| && Undisturbed(moments[start], ops, result, moments[end])
  }

  ghost predicate AllPass(moments: seq<Api>, writes: seq<Option<Write>>, fates: nat -> Fate, starts: seq<nat>,
                          passes: seq<seq<Op>>, results: seq<PassResult>)
  {
    && |starts| == |results| + 1 && |results| <= |passes|
    && forall j | 0 <= j < |results| :: Passes(moments, writes, fates, starts[j], starts[j + 1], passes[j], results[j])
  }

  ghost predicate AllPassQuietly(moments: seq<Api>, starts: seq<nat>, passes: seq<seq<Op>>, results: seq<PassResult>) {
    && |starts| == |results| + 1 && |results| <= |passes|
    && forall j | 0 <= j < |results| :: PassesQuietly(moments, starts[j], starts[j + 1], passes[j], results[j])
  }

  lemma OneMorePasses(moments: seq<Api>, moments1: seq<Api>, writes: seq<Option<Write>>, writes1: seq<Option<Write>>,
                      fates: nat -> Fate, starts: seq<nat>, passes: seq<seq<Op>>, results: seq<PassResult>, result: PassResult)
    requires AllPass(moments, writes, fates, starts, passes, results) && |results| < |passes|
    requires moments <= moments1 && writes <= writes1 && |moments1| == |writes1| + 1 && starts[|results|] < |writes1|
    requires Reported(moments1, writes1, starts[|results|], passes[|results|], result)
    requires Attempted(moments1, writes1, fates, starts[|results|], passes[|results|], result)
    requires Ended(fates, starts[|results|], |writes1|, result)
    ensures AllPass(moments1, writes1, fates, starts + [|writes1|], passes, results + [result])
  {
    var s, r := starts + [|writes1|], results + [result];
    forall j | 0 <= j < |r| ensures Passes(moments1, writes1, fates, s[j], s[j + 1], passes[j], r[j]) {
      if j < |results| {
        assert Passes(moments, writes, fates, starts[j], starts[j + 1], passes[j], results[j]);
        assert moments1[..s[j + 1] + 1] == moments[..s[j + 1] + 1] && writes1[..s[j + 1]] == writes[..s[j + 1]];
      } else {
        assert moments1[..|writes1| + 1] == moments1 && writes1[..|writes1|] == writes1;
      }
    }
  }

  lemma OneMoreQuietly(moments: seq<Api>, moments1: seq<Api>, starts: seq<nat>, passes: seq<seq<Op>>,
                       results: seq<PassResult>, result: PassResult)
    requires AllPassQuietly(moments, starts, passes, results) && moments <= moments1 && |results| < |passes|
    requires starts[|results|] < |moments1| - 1
    requires Undisturbed(moments1[starts[|results|]], passes[|results|], result, moments1[|moments1| - 1])
    ensures AllPassQuietly(moments1, starts + [|moments1| - 1], passes, results + [result])
  {
    var s, r := starts + [|moments1| - 1], results + [result];
    forall j | 0 <= j < |r| ensures PassesQuietly(moments1, s[j], s[j + 1], passes[j], r[j]) {
      if j < |results| {
        assert PassesQuietly(moments, starts[j], starts[j + 1], passes[j], results[j]);
      }
    }
  }

  /** Nothing ever interferes and every call is delivered. */
  ghost predicate AlwaysQuiet(events: nat -> seq<Event>, fates: nat -> Fate) {
    forall k: nat :: events(k) == [] && fates(k) == Delivered
  }

  /** Any number of passes, each starting afresh after whatever ended the one before; starts are the
      calls with which they begin.
      - Every call is a step of the server: what happens before it, then what it writes, if it is
        applied; the worker creates only while the object carries the finalizer and takes the
        finalizer away only from a clean server.
      - At every moment what the worker created exists only while the object carries the finalizer.
      - Every result says what the calls of its pass came to, and every pass whose worker does not die
        has asked for all that the object it read demands; the worker dies only by a call that crashes
        it, and a pass without an error is one whose calls were all delivered.
      - Where nothing ever interferes and every call is delivered each pass is an undisturbed one. */
  method Run(events: nat -> seq<Event>, fates: nat -> Fate, initial: Api, passes: seq<seq<Op>>)
    returns (c: Cluster, results: seq<PassResult>, ghost starts: seq<nat>)
    requires Inv(initial)
    ensures |c.writes| == c.calls && |c.moments| == c.calls + 1 && c.moments[0] == initial && c.moments[c.calls] == c.s
    ensures forall k | 0 <= k < c.calls :: Step(c.moments[k], events(k), fates(k), c.writes[k], c.moments[k + 1])
    ensures SafeThroughout(c.moments, events)
    ensures |results| == |passes| && |starts| == |passes| + 1 && starts[0] == 0 && starts[|passes|] == c.calls
    ensures AllPass(c.moments, c.writes, fates, starts, passes, results)
    ensures AlwaysQuiet(events, fates) ==> AllPassQuietly(c.moments, starts, passes, results)
  {
    c := new Cluster(events, fates, initial);
    results, starts := [], [0];
    for i := 0 to |passes|
      invariant fresh(c) && c.Valid() && c.events == events && c.fates == fates && c.moments[0] == initial
      invariant |results| == i && |starts| == i + 1 && starts[0] == 0 && starts[i] == c.calls
      invariant AllPass(c.moments, c.writes, fates, starts, passes, results)
      invariant AlwaysQuiet(events, fates) ==> AllPassQuietly(c.moments, starts, passes, results)
    {
      ghost var moments, writes := c.moments, c.writes;
      var result := Process(c, passes[i]);
      NoFaults(fates, starts[i], c.calls);
      OneMorePasses(moments, c.moments, writes, c.writes, fates, starts, passes, results, result);
      if AlwaysQuiet(events, fates) {
        OneMoreQuietly(moments, c.moments, starts, passes, results, result);
      }
      results, starts := results + [result], starts + [c.calls];
    }
    SafeWithinCalls(c);
    forall k: nat | k < c.calls ensures Step(c.moments[k], events(k), fates(k), c.writes[k], c.moments[k + 1]) {
      assert StepAt(c.moments, c.writes, events, fates, k);
    }
  }

  // ---------------------------------------------------------------- deletions end

  /** Only service bindings and the namespace go. */
  predicate OnlyLeaving(es: seq<Event>) {
    forall e <- es :: e.BindingGone? || e.NamespaceGone?
  }

  /** How far what was asked for has gone after some events. */
  ghost predicate Leaving(s: Api, es: seq<Event>, t: Api) {
    && t.obj == s.obj && !t.role && !t.roleBinding
    && (forall key | key in t.owned :: key in s.owned && t.owned[key] && BindingGone(key) !in es)
    && (t.root == Absent || (t.root == Terminating && NamespaceGone !in es))
  }

  lemma OneMoreLeaves(s: Api, es: seq<Event>, t: Api, e: Event)
    requires Leaving(s, es, t) && (e.BindingGone? || e.NamespaceGone?)
    ensures Leaving(s, es + [e], Happens(t, e))
  {
    assert forall x :: x in es + [e] <==> x in es || x == e;
  }

  /** What was asked for goes, each service binding and the namespace in their turn. */
  lemma {:induction false} AskedGo(s: Api, es: seq<Event>)
    requires OnlyLeaving(es)
    ensures Leaving(s, es, Moved(Asked(s), es))
    decreases |es|
  {
    if es == [] {
      assert Moved(Asked(s), es) == Asked(s);
    } else {
      var front, e := es[..|es| - 1], es[|es| - 1];
      SplitLast(es);
      AskedGo(s, front);
      OneMoreLeaves(s, front, Moved(Asked(s), front), e);
    }
  }

  /** A deletion ends: an undisturbed pass asks for all that is left to go, and once it has gone the
      next undisturbed pass takes the finalizer away. */
  method DeletionEnds(initial: Api, ops: seq<Op>, gone: seq<Event>) returns (first: PassResult, second: PassResult, ghost last: Api)
    requires Inv(initial) && HasOurFinalizer(initial) && initial.obj.value.deleting && !Clean(initial)
    requires OnlyLeaving(gone) && NamespaceGone in gone && forall key | key in initial.owned :: BindingGone(key) in gone
    ensures first == Error && second == FinalizerRemoved
    ensures !HasOurFinalizer(last) && Clean(last) && !last.role && !last.roleBinding
  {
    var c := new Cluster(_ => [], _ => Delivered, initial);
    first := Process(c, ops);
    AskedGo(initial, gone);
    MovedKeeps(c.s, gone);
    assert Clean(Moved(c.s, gone)) by {
      assert Moved(c.s, gone).owned == map[];
    }
    c := new Cluster(_ => [], _ => Delivered, Moved(c.s, gone));
    second := Process(c, ops);
    last := c.s;
    RemovalIsExact(initial.obj.value.finalizers, FINALIZER);
  }
}
