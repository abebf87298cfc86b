/** The Run and uninstall methods of the FluentD, Fluent Bit, forwarder/aggregator and events
    reader reconcilers: ordered effects on the cluster, the condition list and the list of
    components whose start the cycle still has to wait for. */
module Components {
  import opened Wrappers
  import opened LoggingServiceTypes
  import S = Status
  import opened StatusUpdaters
  import opened ApiServer
  import opened Reconcilers

  datatype Component = Component(name: Name, status: S.Reason)

  /** The list of pending components, shared by pointer. */
  class ComponentList {
    var list: seq<Component>

    constructor ()
      ensures list == []
    {
      list := [];
    }

    method SwapRemove(i: nat)
      requires i < |list|
      modifies this
      ensures list == old(list)[i := old(list)[|old(list)| - 1]][..|old(list)| - 1]
    {
      list := list[i := list[|list| - 1]];
      list := list[..|list| - 1];
    }
  }

  datatype Wait = Ready | NotStarted | Unreadable

  /** How the work of a cycle turns out that is not a call on the managed objects: resolving
      credentials and rendering a configuration, building an object, the wait for the
      aggregator's pods. Each is done at most once in a cycle. */
  datatype LocalWork = LocalWork(rendered: Name -> bool, built: Key -> bool, aggregator: Wait)
  {
    /** What FluentD and plain Fluent Bit need, each under its own name. */
    predicate DaemonSetWorks(name: Name) {
      rendered(name) && built(Key(DaemonSet, name)) && built(Key(Service, name))
    }

    predicate AggregatorWorks() {
      rendered(AggregatorName) && built(Key(StatefulSet, AggregatorName)) && aggregator.Ready? && built(Key(Service, AggregatorName))
    }

    predicate EventsReaderWorks() {
      built(Key(Deployment, EventsReaderName)) && built(Key(Service, EventsReaderName))
    }
  }

  /** What every component reconciler holds. `manifest` stands for the object builders: the
      desired object of a key, a fixed function of the spec. */
  datatype Context = Context(client: Client, status: StatusUpdater, pending: ComponentList, manifest: Key -> Obj, local: LocalWork) {
    ghost predicate Ready()
      reads client, status
    {
      client.Valid() && status.Valid() && S.Cycle in Reasons(status.conditions)
    }
  }

  // ------------------------------------------------------------------ managed objects

  function FluentdKeys(): set<Key> {
    {Key(Secret, FluentdName), Key(DaemonSet, FluentdName), Key(Service, FluentdName)}
  }

  function PlainKeys(): set<Key> {
    {Key(Secret, FluentbitName), Key(DaemonSet, FluentbitName), Key(Service, FluentbitName)}
  }

  function AggregatorKeys(): set<Key> {
    {Key(Secret, AggregatorName), Key(StatefulSet, AggregatorName), Key(Service, AggregatorName)}
  }

  function ForwarderKeys(): set<Key> {
    {Key(ConfigMap, ForwarderName), Key(DaemonSet, ForwarderName), Key(Service, ForwarderName)}
  }

  function ForwarderAggregatorKeys(): set<Key> {
    AggregatorKeys() + ForwarderKeys()
  }

  function EventsReaderKeys(): set<Key> {
    {Key(Deployment, EventsReaderName), Key(Service, EventsReaderName)}
  }

  function Legacy(name: Name): Key {
    Key(ConfigMap, name)
  }

  /** Deleted on uninstall, never created by the operator. */
  function EventsReaderAccount(): Key {
    Key(ServiceAccount, EventsReaderName)
  }

  /** A component's objects after an undisturbed run: `install` is applied, `remove` is gone. */
  ghost predicate Effect(install: set<Key>, remove: set<Key>, manifest: Key -> Obj, was: Objects, now: Objects) {
    && SameExcept(was, now, install + remove)
    && (forall k | k in remove :: k !in now)
    && (forall k | k in install :: k in now && Applied(k.kind, Lookup(was, k), manifest(k), now[k].obj))
  }

  /** What a run does to the objects when the operator is the only writer: in any case it
      touches only its own keys, and if nothing went wrong it has its full effect. */
  ghost predicate ClusterStep(clean: bool, install: set<Key>, remove: set<Key>, manifest: Key -> Obj, was: Objects, now: Objects) {
    SameExcept(was, now, install + remove) && (clean ==> Effect(install, remove, manifest, was, now))
  }

  lemma ClusterCompose(clean: bool, install: set<Key>, remove: set<Key>, clean': bool, install': set<Key>, remove': set<Key>,
                       install'': set<Key>, remove'': set<Key>, manifest: Key -> Obj, was: Objects, mid: Objects, now: Objects)
    requires ClusterStep(clean, install, remove, manifest, was, mid) && ClusterStep(clean', install', remove', manifest, mid, now)
    requires (install + remove) !! (install' + remove')
    requires install'' == install + install' && remove'' == remove + remove'
    ensures ClusterStep(clean && clean', install'', remove'', manifest, was, now)
  {
  }

  /** Aggregator, then forwarder. The second half alone can touch the forwarder's Service. */
  lemma HalvesCompose(clean: bool, clean': bool, manifest: Key -> Obj, was: Objects, mid: Objects, now: Objects)
    requires ClusterStep(clean, AggregatorKeys(), {Legacy(AggregatorName)}, manifest, was, mid)
    requires ClusterStep(clean', ForwarderKeys(), {}, manifest, mid, now)
    ensures ClusterStep(clean && clean', ForwarderAggregatorKeys(), {Legacy(AggregatorName)}, manifest, was, now)
    ensures SameAt(was, mid, Key(Service, ForwarderName))
  {
    ClusterCompose(clean, AggregatorKeys(), {Legacy(AggregatorName)}, clean', ForwarderKeys(), {},
                   ForwarderAggregatorKeys(), {Legacy(AggregatorName)}, manifest, was, mid, now);
  }

  // ------------------------------------------------------------------ status of a run

  /** Failures reported under other reasons stay. */
  ghost predicate FailuresStay(was: seq<S.Condition>, now: seq<S.Condition>, reasons: set<S.Reason>) {
    forall r | r !in reasons && S.IsStatusFailed(was, r) :: S.IsStatusFailed(now, r)
  }

  /** How a Run changes the condition list: only what it says about its own reasons. */
  ghost predicate StatusStep(was: seq<S.Condition>, now: seq<S.Condition>, wasOps: seq<S.Op>, nowOps: seq<S.Op>, reasons: set<S.Reason>) {
    && Extends(wasOps, nowOps, reasons)
    && Reasons(now) - reasons == Reasons(was) - reasons
    && (S.Cycle in Reasons(was) ==> S.Cycle in Reasons(now))
    && FailuresStay(was, now, reasons)
  }

  lemma StatusStepCompose(was: seq<S.Condition>, mid: seq<S.Condition>, now: seq<S.Condition>,
                          wasOps: seq<S.Op>, midOps: seq<S.Op>, nowOps: seq<S.Op>, reasons: set<S.Reason>, more: set<S.Reason>)
    requires StatusStep(was, mid, wasOps, midOps, reasons) && StatusStep(mid, now, midOps, nowOps, more) && more <= reasons
    ensures StatusStep(was, now, wasOps, nowOps, reasons)
  {
    forall i | |wasOps| <= i < |nowOps|
      ensures TouchesOnly(nowOps[i].action, reasons)
    {
      assert i < |midOps| ==> nowOps[i] == midOps[i];
    }
    assert Reasons(now) - reasons == (Reasons(now) - more) - reasons;
    assert Reasons(mid) - reasons == (Reasons(mid) - more) - reasons;
  }

  lemma UpsertIsStep(l: seq<S.Condition>, c: S.Condition)
    ensures FailuresStay(l, S.Upserted(l, c), {c.reason})
  {
    forall r | r != c.reason && S.IsStatusFailed(l, r)
      ensures S.IsStatusFailed(S.Upserted(l, c), r)
    {
      UpsertKeepsFailures(l, c, r);
    }
  }

  method StartStatus(status: StatusUpdater, reason: S.Reason, message: string)
    requires status.Valid() && S.Cycle in Reasons(status.conditions)
    requires !reason.Cycle? && !reason.MonitoringAgent?
    modifies status
    ensures status.Valid() && StatusStep(old(status.conditions), status.conditions, old(status.ops), status.ops, {reason})
    ensures status.conditions == if S.IsStatusFailed(old(status.conditions), reason) then old(status.conditions)
                                 else S.Upserted(old(status.conditions), S.Condition(S.InProgress, false, reason, message, status.clock))
  {
    if !S.IsStatusFailed(status.conditions, reason) {
      status.UpdateStatus(reason, S.InProgress, false, message);
      UpsertIsStep(old(status.conditions), S.Condition(S.InProgress, false, reason, message, status.clock));
    }
  }

  method FailStatus(status: StatusUpdater, reason: S.Reason, message: string)
    requires status.Valid() && S.Cycle in Reasons(status.conditions)
    requires !reason.Cycle? && !reason.MonitoringAgent?
    modifies status
    ensures status.Valid() && StatusStep(old(status.conditions), status.conditions, old(status.ops), status.ops, {reason})
    ensures S.IsStatusFailed(status.conditions, reason)
    ensures forall r | S.IsStatusFailed(old(status.conditions), r) :: S.IsStatusFailed(status.conditions, r)
  {
    status.UpdateStatus(reason, S.Failed, false, message);
    UpsertedReasons(old(status.conditions), S.Condition(S.Failed, false, reason, message, status.clock));
    forall r | S.IsStatusFailed(old(status.conditions), r)
      ensures S.IsStatusFailed(status.conditions, r)
    {
      UpsertKeepsFailures(old(status.conditions), S.Condition(S.Failed, false, reason, message, status.clock), r);
    }
  }

  method DropStatus(status: StatusUpdater, reason: S.Reason)
    requires status.Valid() && !reason.Cycle?
    modifies status
    ensures status.Valid() && StatusStep(old(status.conditions), status.conditions, old(status.ops), status.ops, {reason})
    ensures Reasons(status.conditions) == Reasons(old(status.conditions)) - {reason}
    ensures forall r | r != reason && S.IsStatusFailed(old(status.conditions), r) :: S.IsStatusFailed(status.conditions, r)
  {
    var found := status.RemoveStatus(reason);
    forall r | r != reason && S.IsStatusFailed(old(status.conditions), r)
      ensures S.IsStatusFailed(status.conditions, r)
    {
      RemovalKeepsFailures(old(status.conditions), reason, r);
    }
  }

  // ------------------------------------------------------------------ FluentD

  class FluentdReconciler {
    const ctx: Context

    constructor (ctx: Context)
      ensures this.ctx == ctx
    {
      this.ctx := ctx;
    }

    method Run(cr: LoggingService) returns (err: Option<string>)
      requires ctx.Ready()
      modifies ctx.client, ctx.status, ctx.pending
      ensures ctx.Ready() && ctx.client.failures >= old(ctx.client.failures)
      ensures StatusStep(old(ctx.status.conditions), ctx.status.conditions, old(ctx.status.ops), ctx.status.ops, {S.Fluentd})
      ensures ctx.pending.list == old(ctx.pending.list) +
                if err.None? && cr.fluentd.Some? then [Component(FluentdName, S.Fluentd)] else []
      ensures cr.fluentd.None? ==> err.None? && S.Fluentd !in Reasons(ctx.status.conditions)
      ensures !ctx.client.contended ==>
                ClusterStep(ctx.client.failures == old(ctx.client.failures) && err.None?,
                            if cr.fluentd.Some? then FluentdKeys() else {},
                            if cr.fluentd.Some? then {Legacy(FluentdName)} else FluentdKeys() + {Legacy(FluentdName)},
                            ctx.manifest, old(ctx.client.objects), ctx.client.objects)
      ensures !ctx.client.contended && ctx.client.failures == old(ctx.client.failures) ==>
                (err.None? <==> (cr.fluentd.Some? ==> ctx.local.DaemonSetWorks(FluentdName)))
      ensures !ctx.client.contended && ctx.client.failures == old(ctx.client.failures) && err.Some? ==>
                SameAt(old(ctx.client.objects), ctx.client.objects, Key(Service, FluentdName))
    {
      StartStatus(ctx.status, S.Fluentd, "Start reconcile of Fluentd");
      if cr.fluentd.Some? {
        err := InstallDaemonSet(ctx, FluentdName);
        if err.None? {
          ctx.pending.list := ctx.pending.list + [Component(FluentdName, S.Fluentd)];
        }
      } else {
        Uninstall();
        DropStatus(ctx.status, S.Fluentd);
        err := None;
      }
    }

    /** Errors are logged and the next object is tried. */
    method Uninstall()
      requires ctx.client.Valid()
      modifies ctx.client
      ensures ctx.client.Valid() && ctx.client.failures >= old(ctx.client.failures)
      ensures !ctx.client.contended ==>
                ClusterStep(ctx.client.failures == old(ctx.client.failures), {}, FluentdKeys() + {Legacy(FluentdName)},
                            ctx.manifest, old(ctx.client.objects), ctx.client.objects)
    {
      var e := DeleteIfExists(ctx.client, Key(DaemonSet, FluentdName));
      e := DeleteIfExists(ctx.client, Key(Secret, FluentdName));
      if e.None? {
        e := DeleteIfExists(ctx.client, Legacy(FluentdName));
      }
      e := DeleteIfExists(ctx.client, Legacy(FluentdName));
      e := DeleteIfExists(ctx.client, Key(Service, FluentdName));
    }
  }

  /** handleConfigSecret: credentials are resolved and the configuration is rendered, either
      of which may fail; then the Secret is written and the ConfigMap that held the
      configuration in older releases is deleted. */
  method HandleConfigSecret(ctx: Context, name: Name) returns (err: Option<string>)
    requires ctx.client.Valid()
    modifies ctx.client
    ensures ctx.client.Valid() && ctx.client.failures >= old(ctx.client.failures)
    ensures !ctx.client.contended ==>
              ClusterStep(ctx.client.failures == old(ctx.client.failures) && err.None?,
                          {Key(Secret, name)}, {Legacy(name)},
                          ctx.manifest, old(ctx.client.objects), ctx.client.objects)
    ensures !ctx.client.contended && ctx.client.failures == old(ctx.client.failures) ==>
              (err.None? <==> ctx.local.rendered(name))
  {
    if !ctx.local.rendered(name) {
      return Some("cannot resolve credentials or render the configuration");
    }
    var changed, e := CreateOrUpdateConfigSecret(ctx.client, Key(Secret, name), ctx.manifest(Key(Secret, name)));
    if e.Some? {
      return Some("cannot create or update the config secret");
    }
    e := DeleteIfExists(ctx.client, Legacy(name));
    return if e.Some? then Some("cannot delete the legacy config map") else None;
  }

  /** Config Secret, DaemonSet, Service: the installation FluentD and plain Fluent Bit share. */
  method InstallDaemonSet(ctx: Context, name: Name) returns (err: Option<string>)
    requires ctx.client.Valid()
    modifies ctx.client
    ensures ctx.client.Valid() && ctx.client.failures >= old(ctx.client.failures)
    ensures !ctx.client.contended ==>
              ClusterStep(ctx.client.failures == old(ctx.client.failures) && err.None?,
                          {Key(Secret, name), Key(DaemonSet, name), Key(Service, name)}, {Legacy(name)},
                          ctx.manifest, old(ctx.client.objects), ctx.client.objects)
    ensures !ctx.client.contended && ctx.client.failures == old(ctx.client.failures) ==>
              (err.None? <==> ctx.local.DaemonSetWorks(name))
    ensures !ctx.client.contended && ctx.client.failures == old(ctx.client.failures) && err.Some? ==>
              SameAt(old(ctx.client.objects), ctx.client.objects, Key(Service, name))
  {
    ghost var was := ctx.client.objects;
    err := HandleConfigSecret(ctx, name);
    if err.Some? {
      return;
    }
    ghost var quiet, mid := ctx.client.failures == old(ctx.client.failures), ctx.client.objects;
    err := HandleWorkloadAndService(ctx, name);
    if !ctx.client.contended {
      ClusterCompose(quiet, {Key(Secret, name)}, {Legacy(name)},
                     ctx.client.failures == old(ctx.client.failures) && err.None?, {Key(DaemonSet, name), Key(Service, name)}, {},
                     {Key(Secret, name), Key(DaemonSet, name), Key(Service, name)}, {Legacy(name)},
                     ctx.manifest, was, mid, ctx.client.objects);
    }
  }

  method HandleWorkloadAndService(ctx: Context, name: Name) returns (err: Option<string>)
    requires ctx.client.Valid()
    modifies ctx.client
    ensures ctx.client.Valid() && ctx.client.failures >= old(ctx.client.failures)
    ensures !ctx.client.contended ==>
              ClusterStep(ctx.client.failures == old(ctx.client.failures) && err.None?, {Key(DaemonSet, name), Key(Service, name)}, {},
                          ctx.manifest, old(ctx.client.objects), ctx.client.objects)
    ensures !ctx.client.contended && ctx.client.failures == old(ctx.client.failures) ==>
              (err.None? <==> ctx.local.built(Key(DaemonSet, name)) && ctx.local.built(Key(Service, name)))
    ensures !ctx.client.contended && ctx.client.failures == old(ctx.client.failures) && err.Some? ==>
              SameAt(old(ctx.client.objects), ctx.client.objects, Key(Service, name))
  {
    err := Handle(ctx, Key(DaemonSet, name));
    if err.Some? {
      return;
    }
    ghost var quiet, mid := ctx.client.failures == old(ctx.client.failures), ctx.client.objects;
    err := Handle(ctx, Key(Service, name));
    if !ctx.client.contended {
      ClusterCompose(quiet, {Key(DaemonSet, name)}, {}, ctx.client.failures == old(ctx.client.failures) && err.None?,
                     {Key(Service, name)}, {}, {Key(DaemonSet, name), Key(Service, name)}, {},
                     ctx.manifest, old(ctx.client.objects), mid, ctx.client.objects);
    }
  }

  /** Deletes the objects in order. Errors are logged and the next object is tried. */
  method DeleteAll(client: Client, keys: seq<Key>)
    requires client.Valid()
    modifies client
    ensures client.Valid() && client.failures >= old(client.failures)
    ensures !client.contended ==> SameExcept(old(client.objects), client.objects, set k | k in keys)
    ensures !client.contended && client.failures == old(client.failures) ==> forall k | k in keys :: k !in client.objects
  {
    for i := 0 to |keys|
      invariant client.Valid() && client.failures >= old(client.failures)
      invariant !client.contended ==> SameExcept(old(client.objects), client.objects, set k | k in keys[..i])
      invariant !client.contended && client.failures == old(client.failures) ==> forall k | k in keys[..i] :: k !in client.objects
    {
      assert keys[..i + 1] == keys[..i] + [keys[i]];
      var e := DeleteIfExists(client, keys[i]);
    }
    assert keys[..|keys|] == keys;
  }

  /** A handler that builds one object and creates or updates it. */
  method Handle(ctx: Context, k: Key) returns (err: Option<string>)
    requires ctx.client.Valid() && !k.kind.Secret? && !k.kind.ConfigMap?
    modifies ctx.client
    ensures ctx.client.Valid() && ctx.client.failures >= old(ctx.client.failures)
    ensures !ctx.client.contended ==>
              ClusterStep(ctx.client.failures == old(ctx.client.failures) && err.None?, {k}, {},
                          ctx.manifest, old(ctx.client.objects), ctx.client.objects)
    ensures !ctx.client.contended && ctx.client.failures == old(ctx.client.failures) ==>
              (err.None? <==> ctx.local.built(k))
    ensures !ctx.client.contended && ctx.client.failures == old(ctx.client.failures) && err.Some? ==>
              ctx.client.objects == old(ctx.client.objects)
  {
    if !ctx.local.built(k) {
      return Some("cannot build the object");
    }
    var e := CreateOrUpdate(ctx.client, k, ctx.manifest(k));
    return if e.Some? then Some("cannot create or update the object") else None;
  }

  // ------------------------------------------------------------------ Fluent Bit, plain mode

  class FluentbitReconciler {
    const ctx: Context

    constructor (ctx: Context)
      ensures this.ctx == ctx
    {
      this.ctx := ctx;
    }

    method Run(cr: LoggingService) returns (err: Option<string>)
      requires ctx.Ready()
      modifies ctx.client, ctx.status, ctx.pending
      ensures ctx.Ready() && ctx.client.failures >= old(ctx.client.failures)
      ensures StatusStep(old(ctx.status.conditions), ctx.status.conditions, old(ctx.status.ops), ctx.status.ops, {S.Fluentbit})
      ensures ctx.pending.list == old(ctx.pending.list) +
                if err.None? && cr.PlainFluentbit() then [Component(FluentbitName, S.Fluentbit)] else []
      ensures !cr.PlainFluentbit() ==> err.None? && S.Fluentbit !in Reasons(ctx.status.conditions)
      ensures !ctx.client.contended ==>
                ClusterStep(ctx.client.failures == old(ctx.client.failures) && err.None?,
                            if cr.PlainFluentbit() then PlainKeys() else {},
                            if cr.PlainFluentbit() then {Legacy(FluentbitName)} else PlainKeys() + {Legacy(FluentbitName)},
                            ctx.manifest, old(ctx.client.objects), ctx.client.objects)
      ensures !ctx.client.contended && ctx.client.failures == old(ctx.client.failures) ==>
                (err.None? <==> (cr.PlainFluentbit() ==> ctx.local.DaemonSetWorks(FluentbitName)))
      ensures !ctx.client.contended && ctx.client.failures == old(ctx.client.failures) && err.Some? ==>
                SameAt(old(ctx.client.objects), ctx.client.objects, Key(Service, FluentbitName))
    {
      StartStatus(ctx.status, S.Fluentbit, "Start reconcile of Fluentbit");
      if cr.fluentbit.Some? && (cr.fluentbit.value.aggregator.None? || !cr.fluentbit.value.aggregator.value.install) {
        err := InstallDaemonSet(ctx, FluentbitName);
        if err.None? {
          ctx.pending.list := ctx.pending.list + [Component(FluentbitName, S.Fluentbit)];
        }
      } else {
        Uninstall();
        DropStatus(ctx.status, S.Fluentbit);
        err := None;
      }
    }

    method Uninstall()
      requires ctx.client.Valid()
      modifies ctx.client
      ensures ctx.client.Valid() && ctx.client.failures >= old(ctx.client.failures)
      ensures !ctx.client.contended ==>
                ClusterStep(ctx.client.failures == old(ctx.client.failures), {}, PlainKeys() + {Legacy(FluentbitName)},
                            ctx.manifest, old(ctx.client.objects), ctx.client.objects)
    {
      DeleteAll(ctx.client, [Key(DaemonSet, FluentbitName), Key(Secret, FluentbitName),
                             Legacy(FluentbitName), Key(Service, FluentbitName)]);
    }
  }

  // ------------------------------------------------------------------ Fluent Bit, forwarder and aggregator

  class HAFluentReconciler {
    const ctx: Context

    constructor (ctx: Context)
      ensures this.ctx == ctx
    {
      this.ctx := ctx;
    }

    method Run(cr: LoggingService) returns (err: Option<string>)
      requires ctx.Ready()
      modifies ctx.client, ctx.status, ctx.pending
      ensures ctx.Ready() && ctx.client.failures >= old(ctx.client.failures)
      ensures StatusStep(old(ctx.status.conditions), ctx.status.conditions, old(ctx.status.ops), ctx.status.ops, {S.HAFluent})
      ensures ctx.pending.list == old(ctx.pending.list) +
                if err.None? && cr.HighAvailability() then [Component(ForwarderName, S.HAFluent)] else []
      ensures !cr.HighAvailability() ==> err.None? && S.HAFluent !in Reasons(ctx.status.conditions)
      ensures cr.HighAvailability() && cr.AggregatorMisconfigured() ==>
                err.Some? && ctx.client.objects == old(ctx.client.objects)
      ensures !ctx.client.contended ==>
                ClusterStep(ctx.client.failures == old(ctx.client.failures) && err.None?,
                            if cr.HighAvailability() then ForwarderAggregatorKeys() else {},
                            if cr.HighAvailability() then {Legacy(AggregatorName)} else ForwarderAggregatorKeys() + {Legacy(AggregatorName)},
                            ctx.manifest, old(ctx.client.objects), ctx.client.objects)
      ensures !ctx.client.contended && ctx.client.failures == old(ctx.client.failures) ==>
                (err.None? <==> (cr.HighAvailability() ==> !cr.AggregatorMisconfigured() && ctx.local.AggregatorWorks() && ctx.local.DaemonSetWorks(ForwarderName)))
      ensures !ctx.client.contended && ctx.client.failures == old(ctx.client.failures) && err.Some? ==>
                SameAt(old(ctx.client.objects), ctx.client.objects, Key(Service, ForwarderName))
    {
      StartStatus(ctx.status, S.HAFluent, "Start reconcile of Fluentbit-Forwarder-Aggregator");
      if cr.HighAvailability() {
        err := InstallAndWatch(cr);
      } else {
        Uninstall();
        DropStatus(ctx.status, S.HAFluent);
        err := None;
      }
    }

    method InstallAndWatch(cr: LoggingService) returns (err: Option<string>)
      requires ctx.Ready() && cr.HighAvailability()
      modifies ctx.client, ctx.status, ctx.pending
      ensures ctx.Ready() && ctx.client.failures >= old(ctx.client.failures)
      ensures StatusStep(old(ctx.status.conditions), ctx.status.conditions, old(ctx.status.ops), ctx.status.ops, {S.HAFluent})
      ensures ctx.pending.list == old(ctx.pending.list) + if err.None? then [Component(ForwarderName, S.HAFluent)] else []
      ensures cr.AggregatorMisconfigured() ==> err.Some? && ctx.client.objects == old(ctx.client.objects)
      ensures !ctx.client.contended ==>
                ClusterStep(ctx.client.failures == old(ctx.client.failures) && err.None?,
                            ForwarderAggregatorKeys(), {Legacy(AggregatorName)},
                            ctx.manifest, old(ctx.client.objects), ctx.client.objects)
      ensures !ctx.client.contended && ctx.client.failures == old(ctx.client.failures) ==>
                (err.None? <==> !cr.AggregatorMisconfigured() && ctx.local.AggregatorWorks() && ctx.local.DaemonSetWorks(ForwarderName))
      ensures !ctx.client.contended && ctx.client.failures == old(ctx.client.failures) && err.Some? ==>
                SameAt(old(ctx.client.objects), ctx.client.objects, Key(Service, ForwarderName))
    {
      if cr.AggregatorMisconfigured() {
        return Some("configuration error: graylogHost and graylogPort are required with Graylog output");
      }
      err := Install();
      if err.None? {
        ctx.pending.list := ctx.pending.list + [Component(ForwarderName, S.HAFluent)];
      }
    }

    method Install() returns (err: Option<string>)
      requires ctx.Ready()
      modifies ctx.client, ctx.status
      ensures ctx.Ready() && ctx.client.failures >= old(ctx.client.failures)
      ensures StatusStep(old(ctx.status.conditions), ctx.status.conditions, old(ctx.status.ops), ctx.status.ops, {S.HAFluent})
      ensures !ctx.client.contended ==>
                ClusterStep(ctx.client.failures == old(ctx.client.failures) && err.None?,
                            ForwarderAggregatorKeys(), {Legacy(AggregatorName)},
                            ctx.manifest, old(ctx.client.objects), ctx.client.objects)
      ensures !ctx.client.contended && ctx.client.failures == old(ctx.client.failures) ==>
                (err.None? <==> ctx.local.AggregatorWorks() && ctx.local.DaemonSetWorks(ForwarderName))
      ensures !ctx.client.contended && ctx.client.failures == old(ctx.client.failures) && err.Some? ==>
                SameAt(old(ctx.client.objects), ctx.client.objects, Key(Service, ForwarderName))
    {
      err := HandleAggregator();
      if err.Some? {
        return;
      }
      ghost var quiet, mid := ctx.client.failures == old(ctx.client.failures), ctx.client.objects;
      err := HandleForwarder();
      if !ctx.client.contended {
        HalvesCompose(quiet, ctx.client.failures == old(ctx.client.failures) && err.None?, ctx.manifest, old(ctx.client.objects), mid, ctx.client.objects);
      }
    }

    /** The first half of the installation: config Secret, StatefulSet and its start, Service. */
    method HandleAggregator() returns (err: Option<string>)
      requires ctx.Ready()
      modifies ctx.client, ctx.status
      ensures ctx.Ready() && ctx.client.failures >= old(ctx.client.failures)
      ensures StatusStep(old(ctx.status.conditions), ctx.status.conditions, old(ctx.status.ops), ctx.status.ops, {S.HAFluent})
      ensures !ctx.client.contended ==>
                ClusterStep(ctx.client.failures == old(ctx.client.failures) && err.None?,
                            AggregatorKeys(), {Legacy(AggregatorName)},
                            ctx.manifest, old(ctx.client.objects), ctx.client.objects)
      ensures !ctx.client.contended && ctx.client.failures == old(ctx.client.failures) ==>
                (err.None? <==> ctx.local.AggregatorWorks())
    {
      err := HandleSecretAndStatefulSet();
      if err.Some? {
        return;
      }
      ghost var quiet, mid := ctx.client.failures == old(ctx.client.failures), ctx.client.objects;
      err := WaitForAggregator();
      if err.Some? {
        return;
      }
      err := Handle(ctx, Key(Service, AggregatorName));
      if !ctx.client.contended {
        ClusterCompose(quiet, {Key(Secret, AggregatorName), Key(StatefulSet, AggregatorName)}, {Legacy(AggregatorName)},
                       ctx.client.failures == old(ctx.client.failures) && err.None?, {Key(Service, AggregatorName)}, {},
                       AggregatorKeys(), {Legacy(AggregatorName)},
                       ctx.manifest, old(ctx.client.objects), mid, ctx.client.objects);
      }
    }

    method HandleSecretAndStatefulSet() returns (err: Option<string>)
      requires ctx.client.Valid()
      modifies ctx.client
      ensures ctx.client.Valid() && ctx.client.failures >= old(ctx.client.failures)
      ensures !ctx.client.contended ==>
                ClusterStep(ctx.client.failures == old(ctx.client.failures) && err.None?,
                            {Key(Secret, AggregatorName), Key(StatefulSet, AggregatorName)}, {Legacy(AggregatorName)},
                            ctx.manifest, old(ctx.client.objects), ctx.client.objects)
      ensures !ctx.client.contended && ctx.client.failures == old(ctx.client.failures) ==>
                (err.None? <==> ctx.local.rendered(AggregatorName) && ctx.local.built(Key(StatefulSet, AggregatorName)))
    {
      err := HandleConfigSecret(ctx, AggregatorName);
      if err.Some? {
        return;
      }
      ghost var quiet, mid := ctx.client.failures == old(ctx.client.failures), ctx.client.objects;
      err := Handle(ctx, Key(StatefulSet, AggregatorName));
      if !ctx.client.contended {
        ClusterCompose(quiet, {Key(Secret, AggregatorName)}, {Legacy(AggregatorName)},
                       ctx.client.failures == old(ctx.client.failures) && err.None?, {Key(StatefulSet, AggregatorName)}, {},
                       {Key(Secret, AggregatorName), Key(StatefulSet, AggregatorName)}, {Legacy(AggregatorName)},
                       ctx.manifest, old(ctx.client.objects), mid, ctx.client.objects);
      }
    }

    /** Polls until the aggregator pods are ready, the poll fails, or time runs out. */
    method WaitForAggregator() returns (err: Option<string>)
      requires ctx.status.Valid() && S.Cycle in Reasons(ctx.status.conditions)
      modifies ctx.status
      ensures ctx.status.Valid()
      ensures StatusStep(old(ctx.status.conditions), ctx.status.conditions, old(ctx.status.ops), ctx.status.ops, {S.HAFluent})
      ensures err.None? <==> ctx.local.aggregator.Ready?
      ensures ctx.local.aggregator.NotStarted? ==> S.IsStatusFailed(ctx.status.conditions, S.HAFluent)
      ensures !ctx.local.aggregator.NotStarted? ==> ctx.status.conditions == old(ctx.status.conditions)
    {
      if ctx.local.aggregator.Unreadable? {
        return Some("cannot read the aggregator");
      }
      if ctx.local.aggregator.NotStarted? {
        FailStatus(ctx.status, S.HAFluent, "Fluent bit aggregator is not started");
        return Some("fluent bit aggregator is not started");
      }
      return None;
    }

    /** The second half: config map, DaemonSet, Service. */
    method HandleForwarder() returns (err: Option<string>)
      requires ctx.client.Valid()
      modifies ctx.client
      ensures ctx.client.Valid() && ctx.client.failures >= old(ctx.client.failures)
      ensures !ctx.client.contended ==>
                ClusterStep(ctx.client.failures == old(ctx.client.failures) && err.None?,
                            ForwarderKeys(), {},
                            ctx.manifest, old(ctx.client.objects), ctx.client.objects)
      ensures !ctx.client.contended && ctx.client.failures == old(ctx.client.failures) ==>
                (err.None? <==> ctx.local.DaemonSetWorks(ForwarderName))
      ensures !ctx.client.contended && ctx.client.failures == old(ctx.client.failures) && err.Some? ==>
                SameAt(old(ctx.client.objects), ctx.client.objects, Key(Service, ForwarderName))
    {
      err := HandleForwarderConfigMap();
      if err.Some? {
        return;
      }
      ghost var quiet, mid := ctx.client.failures == old(ctx.client.failures), ctx.client.objects;
      err := HandleWorkloadAndService(ctx, ForwarderName);
      if !ctx.client.contended {
        ClusterCompose(quiet, {Key(ConfigMap, ForwarderName)}, {}, ctx.client.failures == old(ctx.client.failures) && err.None?,
                       {Key(DaemonSet, ForwarderName), Key(Service, ForwarderName)}, {},
                       ForwarderKeys(), {},
                       ctx.manifest, old(ctx.client.objects), mid, ctx.client.objects);
      }
    }

    method HandleForwarderConfigMap() returns (err: Option<string>)
      requires ctx.client.Valid()
      modifies ctx.client
      ensures ctx.client.Valid() && ctx.client.failures >= old(ctx.client.failures)
      ensures !ctx.client.contended ==>
                ClusterStep(ctx.client.failures == old(ctx.client.failures) && err.None?, {Key(ConfigMap, ForwarderName)}, {},
                            ctx.manifest, old(ctx.client.objects), ctx.client.objects)
      ensures !ctx.client.contended && ctx.client.failures == old(ctx.client.failures) ==>
                (err.None? <==> ctx.local.rendered(ForwarderName))
    {
      if !ctx.local.rendered(ForwarderName) {
        return Some("cannot render the forwarder configuration");
      }
      var updated, e := UpdateConfigMap(ctx.client, Key(ConfigMap, ForwarderName), ctx.manifest(Key(ConfigMap, ForwarderName)));
      return if e.Some? then Some("cannot create or update the forwarder config map") else None;
    }

    method Uninstall()
      requires ctx.client.Valid()
      modifies ctx.client
      ensures ctx.client.Valid() && ctx.client.failures >= old(ctx.client.failures)
      ensures !ctx.client.contended ==>
                ClusterStep(ctx.client.failures == old(ctx.client.failures), {}, ForwarderAggregatorKeys() + {Legacy(AggregatorName)},
                            ctx.manifest, old(ctx.client.objects), ctx.client.objects)
    {
      DeleteAll(ctx.client, [Key(DaemonSet, ForwarderName), Key(ConfigMap, ForwarderName), Key(Service, ForwarderName),
                             Key(StatefulSet, AggregatorName), Key(Secret, AggregatorName), Legacy(AggregatorName), Key(Service, AggregatorName)]);
    }
  }

  // ------------------------------------------------------------------ events reader

  class EventsReaderReconciler {
    const ctx: Context

    constructor (ctx: Context)
      ensures this.ctx == ctx
    {
      this.ctx := ctx;
    }

    method Run(cr: LoggingService) returns (err: Option<string>)
      requires ctx.Ready()
      modifies ctx.client, ctx.status, ctx.pending
      ensures ctx.Ready() && ctx.client.failures >= old(ctx.client.failures)
      ensures StatusStep(old(ctx.status.conditions), ctx.status.conditions, old(ctx.status.ops), ctx.status.ops, {S.EventsReader})
      ensures ctx.pending.list == old(ctx.pending.list) +
                if err.None? && cr.eventsReader then [Component(EventsReaderName, S.EventsReader)] else []
      ensures !cr.eventsReader ==> err.None? && S.EventsReader !in Reasons(ctx.status.conditions)
      ensures !ctx.client.contended ==>
                ClusterStep(ctx.client.failures == old(ctx.client.failures) && err.None?,
                            if cr.eventsReader then EventsReaderKeys() else {},
                            if cr.eventsReader then {} else EventsReaderKeys() + {EventsReaderAccount()},
                            ctx.manifest, old(ctx.client.objects), ctx.client.objects)
      ensures !ctx.client.contended && ctx.client.failures == old(ctx.client.failures) ==>
                (err.None? <==> (cr.eventsReader ==> ctx.local.EventsReaderWorks()))
      ensures !ctx.client.contended && ctx.client.failures == old(ctx.client.failures) && err.Some? ==>
                SameAt(old(ctx.client.objects), ctx.client.objects, Key(Service, EventsReaderName))
    {
      StartStatus(ctx.status, S.EventsReader, "Start reconcile of Events Reader");
      if cr.eventsReader {
        err := Install();
        if err.None? {
          ctx.pending.list := ctx.pending.list + [Component(EventsReaderName, S.EventsReader)];
        }
      } else {
        Uninstall();
        DropStatus(ctx.status, S.EventsReader);
        err := None;
      }
    }

    method Install() returns (err: Option<string>)
      requires ctx.client.Valid()
      modifies ctx.client
      ensures ctx.client.Valid() && ctx.client.failures >= old(ctx.client.failures)
      ensures !ctx.client.contended ==>
                ClusterStep(ctx.client.failures == old(ctx.client.failures) && err.None?, EventsReaderKeys(), {},
                            ctx.manifest, old(ctx.client.objects), ctx.client.objects)
      ensures !ctx.client.contended && ctx.client.failures == old(ctx.client.failures) ==>
                (err.None? <==> ctx.local.EventsReaderWorks())
      ensures !ctx.client.contended && ctx.client.failures == old(ctx.client.failures) && err.Some? ==>
                SameAt(old(ctx.client.objects), ctx.client.objects, Key(Service, EventsReaderName))
    {
      err := Handle(ctx, Key(Deployment, EventsReaderName));
      if err.Some? {
        return;
      }
      err := Handle(ctx, Key(Service, EventsReaderName));
    }

    method Uninstall()
      requires ctx.client.Valid()
      modifies ctx.client
      ensures ctx.client.Valid() && ctx.client.failures >= old(ctx.client.failures)
      ensures !ctx.client.contended ==>
                ClusterStep(ctx.client.failures == old(ctx.client.failures), {}, EventsReaderKeys() + {EventsReaderAccount()},
                            ctx.manifest, old(ctx.client.objects), ctx.client.objects)
    {
      DeleteAll(ctx.client, [Key(Deployment, EventsReaderName),
                             Key(Service, EventsReaderName), EventsReaderAccount()]);
    }
  }
}
