/** The konnector's table of cluster controllers, one per kubeconfig, shared by the service
    bindings that use it (bind/pkg/konnector/konnector_reconcile.go). */
module Konnector {
  import opened JsonDoc

  datatype BindingName = BindingName(text: string)

  datatype Kubeconfig = Kubeconfig(text: string)

  const NO_KUBECONFIG := Kubeconfig("")

  datatype SecretLookup = Found(data: map<string, Kubeconfig>) | NotFound | Unavailable

  /** What loading a kubeconfig yields: whether it parses, whether its current context exists,
      the namespace of that context, and whether a REST config can be built from it. */
  datatype LoadedConfig = LoadedConfig(parses: bool, hasContext: bool, namespace: string, buildsClient: bool)

  /** One reconciliation of a binding: the secret key, what the secret lookup says, and whether
      the constructor of a cluster controller would succeed. */
  datatype Pass = Pass(name: BindingName, key: string, secret: SecretLookup, ctorOk: bool)

  function KubeconfigOf(p: Pass): Kubeconfig {
    if p.secret.Found? && p.key in p.secret.data then p.secret.data[p.key] else NO_KUBECONFIG
  }

  class ControllerContext {
    const kubeconfig: Kubeconfig
    /** The provider namespace that the cluster controller is constructed for. */
    const namespace: string
    /** The binding whose pass created the context; its callback looks the table up by this name. */
    const founder: BindingName
    var serviceBindings: set<BindingName>
    var cancelled: bool
    var starts: nat

    constructor (kubeconfig: Kubeconfig, namespace: string, founder: BindingName)
      ensures this.kubeconfig == kubeconfig && this.namespace == namespace && this.founder == founder
      ensures serviceBindings == {founder} && !cancelled && starts == 0
    {
      this.kubeconfig, this.namespace, this.founder := kubeconfig, namespace, founder;
      serviceBindings, cancelled, starts := {founder}, false, 0;
    }
  }

  /** The plain map the table refines: a pass removes the binding or sets its kubeconfig. */
  function PassView(view: map<BindingName, Kubeconfig>, p: Pass, usable: Kubeconfig -> bool): map<BindingName, Kubeconfig> {
    if p.secret.Unavailable? then view
    else if usable(KubeconfigOf(p)) then view[p.name := KubeconfigOf(p)]
    else view - {p.name}
  }

  function RunView(view: map<BindingName, Kubeconfig>, passes: seq<Pass>, usable: Kubeconfig -> bool): map<BindingName, Kubeconfig> {
    if passes == [] then view
    else PassView(RunView(view, passes[..|passes| - 1], usable), passes[|passes| - 1], usable)
  }

  lemma RunStep(view: map<BindingName, Kubeconfig>, passes: seq<Pass>, i: nat, usable: Kubeconfig -> bool)
    requires i < |passes|
    ensures RunView(view, passes[..i + 1], usable) == PassView(RunView(view, passes[..i], usable), passes[i], usable)
  {
    assert passes[..i + 1][..i] == passes[..i];
  }

  lemma SetAfterDrop(before: map<BindingName, Kubeconfig>, after: map<BindingName, Kubeconfig>, n: BindingName, k: Kubeconfig)
    requires after == before || after == before - {n}
    ensures after[n := k] == before[n := k]
    ensures n !in after ==> after == before - {n}
  {
  }

  class Reconciler {
    var controllers: map<BindingName, ControllerContext>
    const controlPlaneMode: bool
    const rootNamespace: string
    const load: Kubeconfig -> LoadedConfig
    /** Every context ever created. */
    ghost var created: set<ControllerContext>
    /** The plain map from bindings to kubeconfigs that the table stands for. */
    ghost var view: map<BindingName, Kubeconfig>

    predicate Usable(kubeconfig: Kubeconfig) {
      && kubeconfig != NO_KUBECONFIG
      && (controlPlaneMode ||
          (var cfg := load(kubeconfig); cfg.parses && cfg.hasContext && cfg.namespace != "" && cfg.buildsClient))
    }

    /** The table is exact: memberships, sharing and cancellation agree with it. */
    ghost predicate Exact()
      reads this, created
    {
      && view.Keys == controllers.Keys
      && (forall n <- controllers :: controllers[n] in created && controllers[n].kubeconfig == view[n])
      && (forall n, m {:trigger view[n], view[m]} | n in view && m in view && view[n] == view[m] :: controllers[n] == controllers[m])
      && (forall c, n | c in created :: n in c.serviceBindings <==> n in controllers && controllers[n] == c)
      && (forall c | c in created :: c.cancelled <==> c.serviceBindings == {})
    }

    ghost predicate Valid()
      reads this, created
    {
      && Exact()
      && (forall n <- view :: Usable(view[n]))
      && (forall c | c in created :: c.starts <= 1)
      && (forall c | c in created :: c.namespace == if controlPlaneMode then rootNamespace else load(c.kubeconfig).namespace)
    }

    constructor (controlPlaneMode: bool, rootNamespace: string, load: Kubeconfig -> LoadedConfig)
      ensures Valid() && controllers == map[] && created == {}
      ensures this.controlPlaneMode == controlPlaneMode && this.rootNamespace == rootNamespace && this.load == load
    {
      this.controlPlaneMode, this.rootNamespace, this.load := controlPlaneMode, rootNamespace, load;
      controllers, created, view := map[], {}, map[];
    }

    /** The membership callback handed to the cluster controller of the context founded by
        founder; None stands for the nil dereference. */
    function Callback(founder: BindingName, svcBinding: BindingName): Option<bool>
      reads this, set n | n in controllers :: controllers[n]
    {
      if founder in controllers then Some(svcBinding in controllers[founder].serviceBindings) else None
    }

    /** Stops using the context with the old kubeconfig; the last binding to leave cancels it. */
    method Detach(name: BindingName)
      requires Exact() && name in controllers
      modifies this`controllers, this`view, controllers[name]
      ensures Exact()
      ensures controllers == old(controllers) - {name} && view == old(view) - {name}
      ensures forall c | c in created :: c.starts == old(c.starts) && (old(c.cancelled) ==> c.cancelled)
    {
      var ctx := controllers[name];
      ctx.serviceBindings := ctx.serviceBindings - {name};
      if ctx.serviceBindings == {} {
        ctx.cancelled := true;
      }
      controllers, view := controllers - {name}, view - {name};
      forall c, n | c in created ensures n in c.serviceBindings <==> n in controllers && controllers[n] == c {
        assert n in old(c.serviceBindings) <==> n in old(controllers) && old(controllers)[n] == c;
      }
    }

    /** Leaves a context whose kubeconfig is not the current one any more. */
    method DetachStale(name: BindingName, kubeconfig: Kubeconfig)
      requires Valid()
      modifies this`controllers, this`view, created
      ensures Valid()
      ensures view == if name in old(view) && old(view)[name] != kubeconfig then old(view) - {name} else old(view)
      ensures kubeconfig in view.Values <==> kubeconfig in old(view).Values
      ensures name in controllers ==> controllers[name].kubeconfig == kubeconfig
      ensures forall c | c in created :: c.starts == old(c.starts) && (old(c.cancelled) ==> c.cancelled)
    {
      ghost var before := view;
      if name in controllers && controllers[name].kubeconfig != kubeconfig {
        Detach(name);
        assert view == before - {name};
        if kubeconfig in before.Values {
          var n :| n in before && before[n] == kubeconfig;
          assert n in view && view[n] == kubeconfig;
        }
      }
    }

    /** Looks for a context with the kubeconfig, visiting the table in an arbitrary order. */
    method Find(kubeconfig: Kubeconfig) returns (found: Option<ControllerContext>, ghost at: BindingName)
      ensures found.Some? ==> at in controllers && controllers[at] == found.value && found.value.kubeconfig == kubeconfig
      ensures found.None? ==> forall n <- controllers :: controllers[n].kubeconfig != kubeconfig
    {
      var todo := controllers.Keys;
      while todo != {}
        invariant todo <= controllers.Keys
        invariant forall n | n in controllers && n !in todo :: controllers[n].kubeconfig != kubeconfig
        decreases |todo|
      {
        var n :| n in todo;
        todo := todo - {n};
        if controllers[n].kubeconfig == kubeconfig {
          return Some(controllers[n]), n;
        }
      }
      return None, BindingName("");
    }

    /** Joins an existing context with the kubeconfig, if there is one. */
    method JoinExisting(name: BindingName, kubeconfig: Kubeconfig) returns (joined: bool)
      requires Valid() && (name in controllers ==> controllers[name].kubeconfig == kubeconfig)
      modifies this`controllers, this`view, created
      ensures Valid()
      ensures joined ==> Usable(kubeconfig)
      ensures joined <==> kubeconfig in old(view).Values
      ensures view == if joined then old(view)[name := kubeconfig] else old(view)
      ensures !joined ==> controllers == old(controllers) && name !in controllers
                          && forall n <- controllers :: controllers[n].kubeconfig != kubeconfig
      ensures forall c | c in created :: c.starts == old(c.starts) && c.cancelled == old(c.cancelled)
    {
      var existing, at := Find(kubeconfig);
      if existing.Some? {
        assert at in view && view[at] == kubeconfig;
        Attach(name, existing.value, at);
        return true;
      }
      assert forall n <- view :: view[n] != kubeconfig;
      return false;
    }

    /** Adds the binding to an existing context. */
    method Attach(name: BindingName, ctx: ControllerContext, ghost at: BindingName)
      requires Exact() && at in controllers && controllers[at] == ctx
      requires name in controllers ==> controllers[name] == ctx
      modifies this`controllers, this`view, ctx
      ensures Exact()
      ensures controllers == old(controllers)[name := ctx] && view == old(view)[name := ctx.kubeconfig]
      ensures ctx.starts == old(ctx.starts) && ctx.cancelled == old(ctx.cancelled)
    {
      assert at in ctx.serviceBindings;
      controllers, view := controllers[name := ctx], view[name := ctx.kubeconfig];
      ctx.serviceBindings := ctx.serviceBindings + {name};
    }

    /** Puts a new context into the table. */
    method Insert(name: BindingName, ctx: ControllerContext)
      requires Exact() && name !in controllers && ctx !in created
      requires forall n <- controllers :: controllers[n].kubeconfig != ctx.kubeconfig
      requires ctx.serviceBindings == {name} && !ctx.cancelled
      modifies this`controllers, this`view, this`created
      ensures Exact()
      ensures controllers == old(controllers)[name := ctx] && created == old(created) + {ctx}
      ensures view == old(view)[name := ctx.kubeconfig]
    {
      controllers, view := controllers[name := ctx], view[name := ctx.kubeconfig];
      created := created + {ctx};
    }

    /** Puts a new context into the table and, if its controller can be built, starts it. */
    method StartNew(name: BindingName, kubeconfig: Kubeconfig, namespace: string, ctorOk: bool) returns (err: bool)
      requires Exact() && name !in controllers
      requires forall n <- controllers :: controllers[n].kubeconfig != kubeconfig
      modifies this`controllers, this`view, this`created
      ensures Exact() && err == !ctorOk
      ensures view == old(view)[name := kubeconfig]
      ensures Started(name, ctorOk, old(created)) && fresh(controllers[name]) && controllers[name].namespace == namespace
    {
      var ctx := new ControllerContext(kubeconfig, namespace, name);
      Insert(name, ctx);
      err := !ctorOk;
      if ctorOk {
        ctx.starts := ctx.starts + 1;
      }
    }

    /** The part of a pass under the lock, once the kubeconfig is known. */
    method Ensure(name: BindingName, kubeconfig: Kubeconfig, ctorOk: bool) returns (err: bool)
      requires Valid()
      modifies this`controllers, this`view, this`created, created
      ensures Valid()
      ensures view == if Usable(kubeconfig) then old(view)[name := kubeconfig] else old(view) - {name}
      ensures forall c | c in old(created) :: c.starts == old(c.starts) && (old(c.cancelled) ==> c.cancelled)
      ensures if Usable(kubeconfig) && kubeconfig !in old(view).Values
              then Started(name, ctorOk, old(created)) && fresh(controllers[name]) && err == !ctorOk
              else created == old(created) && !err
    {
      ghost var before := view;

      // the binding leaves a context whose kubeconfig it does not name any more
      DetachStale(name, kubeconfig);
      SetAfterDrop(before, view, name, kubeconfig);

      // without a kubeconfig the binding stays out of the table
      err := false;
      if kubeconfig != NO_KUBECONFIG {
        err := Obtain(name, kubeconfig, ctorOk);
      }
    }

    method Obtain(name: BindingName, kubeconfig: Kubeconfig, ctorOk: bool) returns (err: bool)
      requires Valid() && kubeconfig != NO_KUBECONFIG && (name in controllers ==> controllers[name].kubeconfig == kubeconfig)
      modifies this`controllers, this`view, this`created, created
      ensures Valid()
      ensures view == if Usable(kubeconfig) then old(view)[name := kubeconfig] else old(view)
      ensures !Usable(kubeconfig) ==> name !in old(view)
      ensures forall c | c in old(created) :: c.starts == old(c.starts) && c.cancelled == old(c.cancelled)
      ensures if Usable(kubeconfig) && kubeconfig !in old(view).Values
              then Started(name, ctorOk, old(created)) && fresh(controllers[name]) && err == !ctorOk
              else created == old(created) && !err
    {
      // a context that runs on this kubeconfig is shared
      var joined := JoinExisting(name, kubeconfig);
      if joined {
        return false;
      }
      err := CreateNew(name, kubeconfig, ctorOk);
    }

    /** Creates a context for a kubeconfig that can be used; another one is left to the controller
        that reports conditions. */
    method CreateNew(name: BindingName, kubeconfig: Kubeconfig, ctorOk: bool) returns (err: bool)
      requires Valid() && kubeconfig != NO_KUBECONFIG && name !in controllers
      requires forall n <- controllers :: controllers[n].kubeconfig != kubeconfig
      modifies this`controllers, this`view, this`created
      ensures Valid()
      ensures view == if Usable(kubeconfig) then old(view)[name := kubeconfig] else old(view)
      ensures if Usable(kubeconfig) then Started(name, ctorOk, old(created)) && fresh(controllers[name]) && err == !ctorOk
              else created == old(created) && !err
      ensures controlPlaneMode ==> name in controllers && view == old(view)[name := kubeconfig]
      ensures !controlPlaneMode ==>
                var cfg := load(kubeconfig);
                && (name in controllers <==> cfg.parses && cfg.hasContext && cfg.namespace != "" && cfg.buildsClient)
                && (name in controllers ==> view == old(view)[name := kubeconfig])
                && (name !in controllers ==> view == old(view))
      ensures name in controllers ==> controllers[name].namespace == if controlPlaneMode then rootNamespace else load(kubeconfig).namespace
    {
      var providerNamespace := "";
      if controlPlaneMode {
        providerNamespace := rootNamespace;
      } else {
        var cfg := load(kubeconfig);
        if !cfg.parses || !cfg.hasContext || cfg.namespace == "" || !cfg.buildsClient {
          return false;
        }
        providerNamespace := cfg.namespace;
      }
      err := StartNew(name, kubeconfig, providerNamespace, ctorOk);
    }

    /** Exactly one context is new, founded by the binding and started unless its constructor failed. */
    ghost predicate Started(name: BindingName, ctorOk: bool, before: set<ControllerContext>)
      reads this, created
    {
      && name in controllers && controllers[name] in created && controllers[name] !in before
      && created == before + {controllers[name]}
      && controllers[name].founder == name && controllers[name].starts == if ctorOk then 1 else 0
    }

    /** One pass. A kubeconfig that was read is mapped, in control-plane mode whatever it holds,
        otherwise exactly if it parses, has its current context, names a namespace and builds a
        client; where none was read the binding is mapped nowhere. */
    method Reconcile(p: Pass) returns (err: bool)
      requires Valid()
      modifies this`controllers, this`view, this`created, created
      ensures Valid()
      ensures view == PassView(old(view), p, Usable)
      ensures Mapped(view, p) && forall n | n != p.name :: (n in view <==> n in old(view)) && (n in view ==> view[n] == old(view)[n])
      ensures created >= old(created) && fresh(created - old(created))
      ensures forall c | c in old(created) :: c.starts == old(c.starts) && (old(c.cancelled) ==> c.cancelled)
      ensures if !p.secret.Unavailable? && Usable(KubeconfigOf(p)) && KubeconfigOf(p) !in old(view).Values
              then Started(p.name, p.ctorOk, old(created)) && err == !p.ctorOk
              else created == old(created) && err == p.secret.Unavailable?
      ensures p.ctorOk ==> forall c | c in created && c !in old(created) :: c.starts == 1
    {
      var kubeconfig := NO_KUBECONFIG;
      if p.secret.Unavailable? {
        return true;
      } else if p.secret.NotFound? {
      } else {
        kubeconfig := if p.key in p.secret.data then p.secret.data[p.key] else NO_KUBECONFIG;
      }
      err := Ensure(p.name, kubeconfig, p.ctorOk);
    }

    /** How a binding is mapped by a pass that could read its secret, or saw that there is none. */
    predicate Mapped(view: map<BindingName, Kubeconfig>, p: Pass) {
      match p.secret
      case Unavailable => true
      case NotFound => p.name !in view
      case Found(data) =>
        if p.key !in data || data[p.key].text == "" then p.name !in view
        else if controlPlaneMode then p.name in view && view[p.name] == data[p.key]
        else
          var cfg := load(data[p.key]);
          && (p.name in view <==> cfg.parses && cfg.hasContext && cfg.namespace != "" && cfg.buildsClient)
          && (p.name in view ==> view[p.name] == data[p.key])
    }

    /** The live contexts are the image of the plain map, one for each kubeconfig in it. */
    lemma LiveContextsAreTheImage()
      requires Valid()
      ensures forall c | c in created :: !c.cancelled <==> exists n :: n in controllers && controllers[n] == c
      ensures forall k :: k in view.Values <==> exists c :: c in created && !c.cancelled && c.kubeconfig == k
      ensures forall c, d | c in created && d in created && !c.cancelled && !d.cancelled && c.kubeconfig == d.kubeconfig :: c == d
    {
      forall c | c in created && !c.cancelled ensures exists n :: n in controllers && controllers[n] == c {
        var n :| n in c.serviceBindings;
        assert n in controllers && controllers[n] == c;
      }
      forall k | k in view.Values ensures exists c :: c in created && !c.cancelled && c.kubeconfig == k {
        var n :| n in view && view[n] == k;
        assert n in controllers[n].serviceBindings;
      }
      forall k | exists c :: c in created && !c.cancelled && c.kubeconfig == k ensures k in view.Values {
        var c :| c in created && !c.cancelled && c.kubeconfig == k;
        var n :| n in c.serviceBindings;
        assert n in view && view[n] == k;
      }
    }

    /** The callback of a context answers that context's own members, for every binding it can
        be asked about, if and only if the founding binding still maps to the context. */
    lemma CallbackIsExact(c: ControllerContext)
      requires Valid() && c in created
      ensures (forall s :: Callback(c.founder, s) == Some(s in c.serviceBindings))
              <==> c.founder in controllers && controllers[c.founder] == c
    {
      if forall s :: Callback(c.founder, s) == Some(s in c.serviceBindings) {
        assert Callback(c.founder, c.founder) == Some(c.founder in c.serviceBindings);
      }
    }

    /** Any number of passes: the table refines the plain map, no context starts twice, and each
        one starts exactly once when no constructor fails. Every binding is mapped as its own last
        pass that was not refused the secret demands, and every controller is constructed for the
        namespace of its kubeconfig, in control-plane mode for the root namespace. */
    method Run(passes: seq<Pass>)
      requires Valid()
      modifies this`controllers, this`view, this`created, created
      ensures Valid() && fresh(created - old(created)) && created >= old(created)
      ensures view == RunView(old(view), passes, Usable)
      ensures forall n | LastRead(passes, n).Some? :: Mapped(view, LastRead(passes, n).value)
      ensures forall c | c in created :: c.namespace == if controlPlaneMode then rootNamespace else load(c.kubeconfig).namespace
      ensures forall c | c in old(created) :: c.starts == old(c.starts) && (old(c.cancelled) ==> c.cancelled)
      ensures (forall p <- passes :: p.ctorOk) ==> forall c | c in created - old(created) :: c.starts == 1
    {
      ghost var ok := forall p <- passes :: p.ctorOk;
      for i := 0 to |passes|
        invariant Valid() && fresh(created - old(created)) && created >= old(created)
        invariant view == RunView(old(view), passes[..i], Usable)
        invariant forall c | c in old(created) :: c.starts == old(c.starts) && (old(c.cancelled) ==> c.cancelled)
        invariant ok ==> forall c | c in created && c !in old(created) :: c.starts == 1
      {
        RunStep(old(view), passes, i, Usable);
        ghost var before := created;
        assert forall c | c in before :: c.starts <= 1 && (c !in old(created) && ok ==> c.starts == 1);
        var err := Reconcile(passes[i]);
        assert ok ==> passes[i].ctorOk;
        assert created >= before;
      }
      assert passes[..|passes|] == passes;
      AllMapped(old(view), passes);
    }

    lemma AllMapped(before: map<BindingName, Kubeconfig>, passes: seq<Pass>)
      ensures forall n | LastRead(passes, n).Some? :: Mapped(RunView(before, passes, Usable), LastRead(passes, n).value)
    {
      forall n | LastRead(passes, n).Some? ensures Mapped(RunView(before, passes, Usable), LastRead(passes, n).value) {
        LastReadMaps(before, passes, n);
      }
    }

    lemma LastReadMaps(before: map<BindingName, Kubeconfig>, passes: seq<Pass>, n: BindingName)
      requires LastRead(passes, n).Some?
      ensures Mapped(RunView(before, passes, Usable), LastRead(passes, n).value)
    {
      LastReadDecides(before, passes, Usable, n);
    }
  }

  /** In control-plane mode the contents of a kubeconfig play no part: reconcilers that differ in how
      they load it map every binding alike. */
  lemma {:induction false} LoadPlaysNoPart(r: Reconciler, s: Reconciler, view: map<BindingName, Kubeconfig>, passes: seq<Pass>)
    requires r.controlPlaneMode && s.controlPlaneMode
    ensures RunView(view, passes, r.Usable) == RunView(view, passes, s.Usable)
    decreases |passes|
  {
    if passes != [] {
      LoadPlaysNoPart(r, s, view, passes[..|passes| - 1]);
    }
  }

  /** The last pass of a binding that could read its secret. */
  function LastRead(passes: seq<Pass>, name: BindingName): (r: Option<Pass>)
    ensures r.Some? ==> r.value.name == name && !r.value.secret.Unavailable? && r.value in passes
  {
    if passes == [] then None
    else
      var p := passes[|passes| - 1];
      if p.name == name && !p.secret.Unavailable? then Some(p) else LastRead(passes[..|passes| - 1], name)
  }

  lemma {:induction false} LastReadIsLast(passes: seq<Pass>, name: BindingName)
    ensures LastRead(passes, name) == None <==> forall p <- passes :: p.name == name ==> p.secret.Unavailable?
    ensures LastRead(passes, name).Some? ==> exists i | 0 <= i < |passes| ::
              passes[i] == LastRead(passes, name).value
              && forall j | i < j < |passes| :: passes[j].name == name ==> passes[j].secret.Unavailable?
    decreases |passes|
  {
    if passes != [] {
      var n := |passes| - 1;
      SplitLast(passes);
      LastReadIsLast(passes[..n], name);
      if LastRead(passes, name).Some? {
        if passes[n].name == name && !passes[n].secret.Unavailable? {
          assert passes[n] == LastRead(passes, name).value;
        } else {
          var i :| 0 <= i < n && passes[..n][i] == LastRead(passes, name).value
                   && forall j | i < j < n :: passes[..n][j].name == name ==> passes[..n][j].secret.Unavailable?;
          assert passes[i] == LastRead(passes, name).value;
          assert forall j | i < j < n :: passes[j] == passes[..n][j];
        }
      }
    }
  }

  /** Whatever the order and the other bindings do, a binding is mapped by its own last pass that
      could read the secret: to that kubeconfig when it is usable, and nowhere otherwise. */
  lemma {:induction false} LastReadDecides(view: map<BindingName, Kubeconfig>, passes: seq<Pass>, usable: Kubeconfig -> bool, name: BindingName)
    ensures var r := RunView(view, passes, usable);
            match LastRead(passes, name)
            case None => (name in r <==> name in view) && (name in r ==> r[name] == view[name])
            case Some(p) => (name in r <==> usable(KubeconfigOf(p))) && (name in r ==> r[name] == KubeconfigOf(p))
    decreases |passes|
  {
    if passes != [] {
      LastReadDecides(view, passes[..|passes| - 1], usable, name);
    }
  }

  /** When the founder leaves a context that another binding uses, the context keeps running, but
      its callback finds no table entry under the founder's name. */
  method FounderLeaves(r: Reconciler, b: BindingName, key: string) returns (ctx: ControllerContext)
    requires r.Valid() && b in r.controllers && r.controllers[b].founder != b
    requires var a := r.controllers[b].founder; a in r.controllers && r.controllers[a] == r.controllers[b]
    modifies r`controllers, r`view, r`created, r.created
    ensures r.Valid() && ctx == old(r.controllers[b]) && ctx in r.created && !ctx.cancelled && b in ctx.serviceBindings
    ensures r.Callback(ctx.founder, b) == None
  {
    ctx := r.controllers[b];
    var a := ctx.founder;
    ghost var before := r.view;
    r.LiveContextsAreTheImage();
    assert b in ctx.serviceBindings && !ctx.cancelled;
    var err := r.Reconcile(Pass(a, key, NotFound, true));
    assert r.view == before - {a};
    assert b in r.view && r.view[b] == before[b];
    ghost var now := r.controllers[b];
    assert b in now.serviceBindings && !now.cancelled;
    assert now in old(r.created) && !old(now.cancelled) && now.kubeconfig == ctx.kubeconfig;
  }

  /** Such a context is reachable: a founds it, b joins it, a leaves. */
  method FounderLeavesRun(kubeconfig: Kubeconfig, root: string, load: Kubeconfig -> LoadedConfig) returns (r: Reconciler, ctx: ControllerContext)
    requires kubeconfig != NO_KUBECONFIG
    ensures r.Valid() && ctx in r.created && !ctx.cancelled && ctx.founder == BindingName("a")
    ensures BindingName("b") in ctx.serviceBindings && r.Callback(ctx.founder, BindingName("b")) == None
  {
    var a, b := BindingName("a"), BindingName("b");
    r := new Reconciler(true, root, load);
    var secret := Found(map["kubeconfig" := kubeconfig]);
    var err := r.Reconcile(Pass(a, "kubeconfig", secret, true));
    assert a in r.view && r.view[a] == kubeconfig;
    err := r.Reconcile(Pass(b, "kubeconfig", secret, true));
    assert r.view[a] == r.view[b];
    ctx := FounderLeaves(r, b, "kubeconfig");
  }
}
