/** The reconcile cycle of the operator (loggingservice_controller.go): the component
    reconcilers in order, the wait for what they started, the cycle status and the backoff. */
module Reconcile {
  import opened Wrappers
  import opened LoggingServiceTypes
  import S = Status
  import opened StatusUpdaters
  import opened ApiServer
  import opened Components
  import opened Collectors
  import opened Waiter
  import P = Provisioning
  import GraylogServer
  import GraylogTables
  import Backoff

  function PolicyOf(contentDeployPolicy: string): P.Policy {
    if contentDeployPolicy == "only-create" then P.OnlyCreate
    else if contentDeployPolicy == "force-update" then P.ForceUpdate
    else P.OtherPolicy
  }

  // ------------------------------------------------------------------ Graylog

  /** What a cycle does to the Graylog server: nothing without Graylog or under "skip", else one
      attempt at provisioning, which is complete if the cycle succeeds. */
  ghost predicate Provisioned(plan: P.Plan, cr: LoggingService, ok: bool, was: GraylogServer.Store, now: GraylogServer.Store)
    requires GraylogTables.Agree(plan.tables)
  {
    if cr.graylog.None? || cr.graylog.value.contentDeployPolicy == "skip" then now == was
    else
      var policy := PolicyOf(cr.graylog.value.contentDeployPolicy);
      P.RunEvolves(plan, policy, was, now) && (ok ==> P.RunSettled(plan, policy, was, now))
  }

  /** What keeps Graylog's content from being provided, apart from Graylog's own objects and from
      failing requests. */
  ghost predicate GraylogWorks(plan: P.Plan, cr: LoggingService, db: GraylogServer.Store)
    requires GraylogTables.Agree(plan.tables)
  {
    cr.graylog.Some? && cr.graylog.value.contentDeployPolicy != "skip" ==>
      P.Completable(plan, PolicyOf(cr.graylog.value.contentDeployPolicy), db)
  }

  class GraylogReconciler {
    const status: StatusUpdater
    const server: GraylogServer.Server

    constructor (status: StatusUpdater, server: GraylogServer.Server)
      ensures this.status == status && this.server == server
    {
      this.status, this.server := status, server;
    }

    /** Graylog's own Kubernetes objects and credentials are not modelled: handling them
        either works or fails; `deployed` says which. Uninstalling only logs its errors. */
    method Run(cr: LoggingService, plan: P.Plan) returns (err: Option<string>, ghost deployed: bool)
      requires status.Valid() && S.Cycle in Reasons(status.conditions) && server.Valid() && GraylogTables.Agree(plan.tables)
      modifies status, server
      ensures status.Valid() && server.Valid()
      ensures StatusStep(old(status.conditions), status.conditions, old(status.ops), status.ops, {S.Graylog})
      ensures err.None? ==> S.Graylog !in Reasons(status.conditions)
      ensures (cr.graylog.None? ==> deployed) && (!deployed ==> err.Some?)
      ensures Provisioned(plan, cr, err.None?, old(server.db), server.db)
      ensures server.failures >= old(server.failures)
      ensures deployed && server.failures == old(server.failures) ==> (err.None? <==> GraylogWorks(plan, cr, old(server.db)))
    {
      StartStatus(status, S.Graylog, "Start reconcile of Graylog");
      err, deployed := Deploy(cr, plan);
      if err.Some? {
        return;
      }
      ghost var conditions, ops := status.conditions, status.ops;
      DropStatus(status, S.Graylog);
      StatusStepCompose(old(status.conditions), conditions, status.conditions, old(status.ops), ops, status.ops, {S.Graylog}, {S.Graylog});
    }

    method Deploy(cr: LoggingService, plan: P.Plan) returns (err: Option<string>, ghost deployed: bool)
      requires server.Valid() && GraylogTables.Agree(plan.tables)
      modifies server
      ensures server.Valid()
      ensures (cr.graylog.None? ==> deployed) && (!deployed ==> err.Some?)
      ensures Provisioned(plan, cr, err.None?, old(server.db), server.db)
      ensures server.failures >= old(server.failures)
      ensures deployed && server.failures == old(server.failures) ==> (err.None? <==> GraylogWorks(plan, cr, old(server.db)))
    {
      deployed := true;
      if cr.graylog.None? {
        return None, true;
      }
      var works: bool := *;
      if !works {
        P.IdleRunEvolves(plan, PolicyOf(cr.graylog.value.contentDeployPolicy), server.db);
        return Some("cannot deploy Graylog"), false;
      }
      if cr.graylog.value.contentDeployPolicy != "skip" {
        var ok := Configure(PolicyOf(cr.graylog.value.contentDeployPolicy), plan);
        if !ok {
          return Some("cannot configure Graylog"), true;
        }
      }
      return None, true;
    }

    /** One attempt through a connector of its own. */
    method Configure(policy: P.Policy, plan: P.Plan) returns (ok: bool)
      requires server.Valid() && GraylogTables.Agree(plan.tables)
      modifies server
      ensures server.Valid() && P.RunEvolves(plan, policy, old(server.db), server.db)
      ensures ok ==> P.RunSettled(plan, policy, old(server.db), server.db)
      ensures server.failures >= old(server.failures)
      ensures server.failures == old(server.failures) ==> (ok <==> P.Completable(plan, policy, old(server.db)))
    {
      var connector := new P.Connector(server, plan);
      ok := connector.ConfigureGraylog(policy);
    }
  }

  // ------------------------------------------------------------------ one cycle

  /** Every reason in `reasons` that still has a status belongs to a pending component. */
  ghost predicate Covered(reasons: set<S.Reason>, conditions: seq<S.Condition>, pending: seq<Component>) {
    forall r | r in reasons && r in Reasons(conditions) :: r in StatusesOf(pending)
  }

  lemma CoveredStep(reasons: set<S.Reason>, r: S.Reason, was: seq<S.Condition>, now: seq<S.Condition>,
                    wasPending: seq<Component>, nowPending: seq<Component>)
    requires Covered(reasons, was, wasPending)
    requires Reasons(now) - {r} == Reasons(was) - {r} && wasPending <= nowPending
    requires r in Reasons(now) ==> r in StatusesOf(nowPending)
    ensures Covered(reasons + {r}, now, nowPending)
  {
    forall x | x in reasons + {r} && x in Reasons(now)
      ensures x in StatusesOf(nowPending)
    {
      if x != r {
        assert x in Reasons(now) - {r};
        assert x in StatusesOf(wasPending);
        var c :| c in wasPending && c.status == x;
        assert c in nowPending;
      }
    }
  }

  /** The reason a collector's failure is reported under: that of the forwarder and aggregator under
      the one of Fluent Bit. */
  function FailureOf(x: Collector): S.Reason {
    match x
    case FluentD => S.Fluentd
    case PlainFluentBit => S.Fluentbit
    case ForwarderAggregator => S.Fluentbit
    case EventsReader => S.EventsReader
  }

  /** What a cycle that has installed a collector waits for. */
  function AwaitedAs(x: Collector): Component {
    match x
    case FluentD => Component(FluentdName, S.Fluentd)
    case PlainFluentBit => Component(FluentbitName, S.Fluentbit)
    case ForwarderAggregator => Component(ForwarderName, S.HAFluent)
    case EventsReader => Component(EventsReaderName, S.EventsReader)
  }

  function Awaited(x: Collector, ok: bool, cr: LoggingService): seq<Component> {
    if ok && Chosen(x, cr) then [AwaitedAs(x)] else []
  }

  function AwaitedTwo(x: Collector, y: Collector, cr: LoggingService, local: LocalWork): seq<Component> {
    Awaited(x, WorksFor(x, cr, local), cr) + Awaited(y, WorksFor(y, cr, local), cr)
  }

  /** Every chosen collector that works, in the order of the cycle. */
  function AwaitedAll(cr: LoggingService, local: LocalWork): seq<Component> {
    AwaitedTwo(FluentD, PlainFluentBit, cr, local) + AwaitedTwo(ForwarderAggregator, EventsReader, cr, local)
  }

  /** The failure of every collector that does not work is reported. */
  ghost predicate Shown(xs: set<Collector>, cr: LoggingService, local: LocalWork, conditions: seq<S.Condition>) {
    forall x | x in xs && !WorksFor(x, cr, local) :: S.IsStatusFailed(conditions, FailureOf(x))
  }

  /** Two collectors, one after the other: the second leaves the first's failure alone. */
  lemma TwoShown(x: Collector, y: Collector, own: S.Reason, okX: bool, okY: bool, cr: LoggingService, local: LocalWork,
                 mid: seq<S.Condition>, now: seq<S.Condition>, l0: seq<Component>, l1: seq<Component>, l2: seq<Component>)
    requires (okX <==> WorksFor(x, cr, local)) && (okY <==> WorksFor(y, cr, local))
    requires (!okX ==> S.IsStatusFailed(mid, FailureOf(x))) && (!okY ==> S.IsStatusFailed(now, FailureOf(y)))
    requires FailuresStay(mid, now, {own}) && FailureOf(x) != own
    requires l1 == l0 + Awaited(x, okX, cr) && l2 == l1 + Awaited(y, okY, cr)
    ensures Shown({x, y}, cr, local, now) && l2 == l0 + AwaitedTwo(x, y, cr, local)
  {
  }

  lemma HalvesShown(cr: LoggingService, local: LocalWork, mid: seq<S.Condition>, now: seq<S.Condition>,
                    l0: seq<Component>, l1: seq<Component>, l2: seq<Component>)
    requires Shown({FluentD, PlainFluentBit}, cr, local, mid) && Shown({ForwarderAggregator, EventsReader}, cr, local, now)
    requires FailuresStay(mid, now, {S.HAFluent, S.EventsReader})
    requires l1 == l0 + AwaitedTwo(FluentD, PlainFluentBit, cr, local) && l2 == l1 + AwaitedTwo(ForwarderAggregator, EventsReader, cr, local)
    ensures Shown(ALL, cr, local, now) && l2 == l0 + AwaitedAll(cr, local)
  {
    forall x: Collector | !WorksFor(x, cr, local)
      ensures S.IsStatusFailed(now, FailureOf(x))
    {
      assert x in {FluentD, PlainFluentBit} || x in {ForwarderAggregator, EventsReader};
    }
  }

  lemma FailuresCompose(was: seq<S.Condition>, mid: seq<S.Condition>, now: seq<S.Condition>, a: set<S.Reason>, b: set<S.Reason>, all: set<S.Reason>)
    requires FailuresStay(was, mid, a) && FailuresStay(mid, now, b) && a <= all && b <= all
    ensures FailuresStay(was, now, all)
  {
  }

  /** The wait concerns no reason under which a collector's failure is reported, nor Graylog's. */
  lemma FailureNotAwaited(x: Collector, cr: LoggingService, local: LocalWork)
    ensures !WorksFor(x, cr, local) ==> FailureOf(x) !in StatusesOf(AwaitedAll(cr, local))
    ensures S.Graylog !in StatusesOf(AwaitedAll(cr, local))
  {
    forall c | c in AwaitedAll(cr, local)
      ensures exists y: Collector :: c == AwaitedAs(y) && Chosen(y, cr) && WorksFor(y, cr, local)
    {
      assert c in Awaited(FluentD, WorksFor(FluentD, cr, local), cr) || c in Awaited(PlainFluentBit, WorksFor(PlainFluentBit, cr, local), cr)
        || c in Awaited(ForwarderAggregator, WorksFor(ForwarderAggregator, cr, local), cr)
        || c in Awaited(EventsReader, WorksFor(EventsReader, cr, local), cr);
    }
  }

  /** The contract shared by the steps of a cycle that deploy one component. */
  ghost predicate Deployed(ok: bool, own: S.Reason, touched: set<S.Reason>, was: seq<S.Condition>, now: seq<S.Condition>,
                           wasOps: seq<S.Op>, nowOps: seq<S.Op>, wasPending: seq<Component>, nowPending: seq<Component>) {
    && StatusStep(was, now, wasOps, nowOps, touched)
    && (ok ==> Reasons(now) - {own} == Reasons(was) - {own} && (own in Reasons(now) ==> own in StatusesOf(nowPending)))
    && wasPending <= nowPending
    && (Waitable(wasPending) ==> Waitable(nowPending))
  }

  method DeployFluentd(ctx: Context, cr: LoggingService) returns (ok: bool)
    requires ctx.Ready()
    modifies ctx.client, ctx.status, ctx.pending
    ensures ctx.Ready() && ctx.client.failures >= old(ctx.client.failures)
    ensures Deployed(ok, S.Fluentd, {S.Fluentd}, old(ctx.status.conditions), ctx.status.conditions,
                     old(ctx.status.ops), ctx.status.ops, old(ctx.pending.list), ctx.pending.list)
    ensures !Chosen(FluentD, cr) ==> ok
    ensures !ok ==> S.IsStatusFailed(ctx.status.conditions, S.Fluentd)
    ensures ctx.pending.list == old(ctx.pending.list) + Awaited(FluentD, ok, cr)
    ensures !ctx.client.contended ==>
              Part({FluentD}, ctx.client.failures == old(ctx.client.failures), cr, ctx.local, ctx.manifest, old(ctx.client.objects), ctx.client.objects)
    ensures !ctx.client.contended && ctx.client.failures == old(ctx.client.failures) ==> (ok <==> WorksFor(FluentD, cr, ctx.local))
  {
    var fluentd := new FluentdReconciler(ctx);
    var err := fluentd.Run(cr);
    ok := err.None?;
    if !ctx.client.contended {
      OnePart(FluentD, ctx.client.failures == old(ctx.client.failures), ok, cr, ctx.local, ctx.manifest, old(ctx.client.objects), ctx.client.objects);
    }
    ghost var conditions, ops := ctx.status.conditions, ctx.status.ops;
    if err.Some? {
      FailStatus(ctx.status, S.Fluentd, "Reason: " + err.value);
      StatusStepCompose(old(ctx.status.conditions), conditions, ctx.status.conditions, old(ctx.status.ops), ops, ctx.status.ops, {S.Fluentd}, {S.Fluentd});
    }
  }

  method DeployFluentbit(ctx: Context, cr: LoggingService) returns (ok: bool)
    requires ctx.Ready()
    modifies ctx.client, ctx.status, ctx.pending
    ensures ctx.Ready() && ctx.client.failures >= old(ctx.client.failures)
    ensures Deployed(ok, S.Fluentbit, {S.Fluentbit}, old(ctx.status.conditions), ctx.status.conditions,
                     old(ctx.status.ops), ctx.status.ops, old(ctx.pending.list), ctx.pending.list)
    ensures !Chosen(PlainFluentBit, cr) ==> ok
    ensures !ok ==> S.IsStatusFailed(ctx.status.conditions, S.Fluentbit)
    ensures ctx.pending.list == old(ctx.pending.list) + Awaited(PlainFluentBit, ok, cr)
    ensures !ctx.client.contended ==>
              Part({PlainFluentBit}, ctx.client.failures == old(ctx.client.failures), cr, ctx.local, ctx.manifest, old(ctx.client.objects), ctx.client.objects)
    ensures !ctx.client.contended && ctx.client.failures == old(ctx.client.failures) ==> (ok <==> WorksFor(PlainFluentBit, cr, ctx.local))
  {
    var fluentbit := new FluentbitReconciler(ctx);
    var err := fluentbit.Run(cr);
    ok := err.None?;
    if !ctx.client.contended {
      OnePart(PlainFluentBit, ctx.client.failures == old(ctx.client.failures), ok, cr, ctx.local, ctx.manifest, old(ctx.client.objects), ctx.client.objects);
    }
    ghost var conditions, ops := ctx.status.conditions, ctx.status.ops;
    if err.Some? {
      FailStatus(ctx.status, S.Fluentbit, "Reason: " + err.value);
      StatusStepCompose(old(ctx.status.conditions), conditions, ctx.status.conditions, old(ctx.status.ops), ops, ctx.status.ops, {S.Fluentbit}, {S.Fluentbit});
    }
  }

  /** A failure of the forwarder and aggregator is reported under the Fluent Bit reason. */
  method DeployHAFluent(ctx: Context, cr: LoggingService) returns (ok: bool)
    requires ctx.Ready()
    modifies ctx.client, ctx.status, ctx.pending
    ensures ctx.Ready() && ctx.client.failures >= old(ctx.client.failures)
    ensures Deployed(ok, S.HAFluent, {S.HAFluent, S.Fluentbit}, old(ctx.status.conditions), ctx.status.conditions,
                     old(ctx.status.ops), ctx.status.ops, old(ctx.pending.list), ctx.pending.list)
    ensures !Chosen(ForwarderAggregator, cr) ==> ok
    ensures !ok ==> S.IsStatusFailed(ctx.status.conditions, S.Fluentbit)
    ensures FailuresStay(old(ctx.status.conditions), ctx.status.conditions, {S.HAFluent})
    ensures ctx.pending.list == old(ctx.pending.list) + Awaited(ForwarderAggregator, ok, cr)
    ensures !ctx.client.contended ==>
              Part({ForwarderAggregator}, ctx.client.failures == old(ctx.client.failures), cr, ctx.local, ctx.manifest, old(ctx.client.objects), ctx.client.objects)
    ensures !ctx.client.contended && ctx.client.failures == old(ctx.client.failures) ==> (ok <==> WorksFor(ForwarderAggregator, cr, ctx.local))
  {
    var forwarderAggregator := new HAFluentReconciler(ctx);
    var err := forwarderAggregator.Run(cr);
    ok := err.None?;
    if !ctx.client.contended {
      OnePart(ForwarderAggregator, ctx.client.failures == old(ctx.client.failures), ok, cr, ctx.local, ctx.manifest, old(ctx.client.objects), ctx.client.objects);
    }
    ghost var conditions, ops := ctx.status.conditions, ctx.status.ops;
    StatusStepCompose(old(ctx.status.conditions), old(ctx.status.conditions), conditions, old(ctx.status.ops), old(ctx.status.ops), ops, {S.HAFluent, S.Fluentbit}, {S.HAFluent});
    if err.Some? {
      FailStatus(ctx.status, S.Fluentbit, "Reason: " + err.value);
      StatusStepCompose(old(ctx.status.conditions), conditions, ctx.status.conditions, old(ctx.status.ops), ops, ctx.status.ops, {S.HAFluent, S.Fluentbit}, {S.Fluentbit});
    }
  }

  method DeployEventsReader(ctx: Context, cr: LoggingService) returns (ok: bool)
    requires ctx.Ready()
    modifies ctx.client, ctx.status, ctx.pending
    ensures ctx.Ready() && ctx.client.failures >= old(ctx.client.failures)
    ensures Deployed(ok, S.EventsReader, {S.EventsReader}, old(ctx.status.conditions), ctx.status.conditions,
                     old(ctx.status.ops), ctx.status.ops, old(ctx.pending.list), ctx.pending.list)
    ensures !Chosen(EventsReader, cr) ==> ok
    ensures !ok ==> S.IsStatusFailed(ctx.status.conditions, S.EventsReader)
    ensures ctx.pending.list == old(ctx.pending.list) + Awaited(EventsReader, ok, cr)
    ensures !ctx.client.contended ==>
              Part({EventsReader}, ctx.client.failures == old(ctx.client.failures), cr, ctx.local, ctx.manifest, old(ctx.client.objects), ctx.client.objects)
    ensures !ctx.client.contended && ctx.client.failures == old(ctx.client.failures) ==> (ok <==> WorksFor(EventsReader, cr, ctx.local))
  {
    var eventsReader := new EventsReaderReconciler(ctx);
    var err := eventsReader.Run(cr);
    ok := err.None?;
    if !ctx.client.contended {
      OnePart(EventsReader, ctx.client.failures == old(ctx.client.failures), ok, cr, ctx.local, ctx.manifest, old(ctx.client.objects), ctx.client.objects);
    }
    ghost var conditions, ops := ctx.status.conditions, ctx.status.ops;
    if err.Some? {
      FailStatus(ctx.status, S.EventsReader, "Reason: " + err.value);
      StatusStepCompose(old(ctx.status.conditions), conditions, ctx.status.conditions, old(ctx.status.ops), ops, ctx.status.ops, {S.EventsReader}, {S.EventsReader});
    }
  }

  method DeployGraylog(status: StatusUpdater, server: GraylogServer.Server, cr: LoggingService, plan: P.Plan)
    returns (ok: bool, ghost deployed: bool)
    requires status.Valid() && S.Cycle in Reasons(status.conditions) && server.Valid() && GraylogTables.Agree(plan.tables)
    modifies status, server
    ensures status.Valid() && server.Valid()
    ensures StatusStep(old(status.conditions), status.conditions, old(status.ops), status.ops, {S.Graylog})
    ensures ok ==> S.Graylog !in Reasons(status.conditions)
    ensures !ok ==> S.IsStatusFailed(status.conditions, S.Graylog)
    ensures (cr.graylog.None? ==> deployed) && (!deployed ==> !ok)
    ensures Provisioned(plan, cr, ok, old(server.db), server.db)
    ensures server.failures >= old(server.failures)
    ensures deployed && server.failures == old(server.failures) ==> (ok <==> GraylogWorks(plan, cr, old(server.db)))
  {
    var graylog := new GraylogReconciler(status, server);
    var err: Option<string>;
    err, deployed := graylog.Run(cr, plan);
    ok := err.None?;
    if err.Some? {
      ghost var conditions, ops := status.conditions, status.ops;
      FailStatus(status, S.Graylog, "Reason: " + err.value);
      StatusStepCompose(old(status.conditions), conditions, status.conditions, old(status.ops), ops, status.ops, {S.Graylog}, {S.Graylog});
    }
  }

  // ------------------------------------------------------------------ the components together

  const COMPONENT_REASONS := {S.Graylog, S.Fluentd, S.Fluentbit, S.HAFluent, S.EventsReader}

  /** Where the deployment of components stands: what the conditions say, and that the
      reasons in `done` are settled unless something failed. */
  ghost predicate Progress(ok: bool, done: set<S.Reason>, was: seq<S.Condition>, now: seq<S.Condition>,
                           wasOps: seq<S.Op>, nowOps: seq<S.Op>, pending: seq<Component>) {
    && StatusStep(was, now, wasOps, nowOps, COMPONENT_REASONS)
    && (ok ==> Covered(done, now, pending))
    && Waitable(pending)
  }

  lemma ProgressStep(ok: bool, deployed: bool, done: set<S.Reason>, own: S.Reason, touched: set<S.Reason>,
                     was: seq<S.Condition>, mid: seq<S.Condition>, now: seq<S.Condition>,
                     wasOps: seq<S.Op>, midOps: seq<S.Op>, nowOps: seq<S.Op>, pending: seq<Component>, pending': seq<Component>)
    requires Progress(ok, done, was, mid, wasOps, midOps, pending)
    requires Deployed(deployed, own, touched, mid, now, midOps, nowOps, pending, pending') && touched <= COMPONENT_REASONS
    ensures Progress(ok && deployed, done + {own}, was, now, wasOps, nowOps, pending')
  {
    StatusStepCompose(was, mid, now, wasOps, midOps, nowOps, COMPONENT_REASONS, touched);
    if ok && deployed {
      CoveredStep(done, own, mid, now, pending, pending');
    }
  }

  /** FluentD, then Fluent Bit in plain mode. */
  method DeployNodeCollectors(ctx: Context, cr: LoggingService, ghost c0: seq<S.Condition>, ghost p0: seq<S.Op>, ghost ok0: bool)
    returns (ok: bool)
    requires ctx.Ready()
    requires Progress(ok0, {S.Graylog}, c0, ctx.status.conditions, p0, ctx.status.ops, ctx.pending.list)
    modifies ctx.client, ctx.status, ctx.pending
    ensures ctx.Ready() && ctx.client.failures >= old(ctx.client.failures)
    ensures Progress(ok0 && ok, {S.Graylog, S.Fluentd, S.Fluentbit}, c0, ctx.status.conditions, p0, ctx.status.ops, ctx.pending.list)
    ensures !ctx.client.contended ==>
              Part({FluentD, PlainFluentBit}, ctx.client.failures == old(ctx.client.failures), cr, ctx.local, ctx.manifest, old(ctx.client.objects), ctx.client.objects)
    ensures !ctx.client.contended && ctx.client.failures == old(ctx.client.failures) ==>
              (ok <==> WorksFor(FluentD, cr, ctx.local) && WorksFor(PlainFluentBit, cr, ctx.local))
    ensures FailuresStay(old(ctx.status.conditions), ctx.status.conditions, {S.Fluentd, S.Fluentbit})
    ensures !ctx.client.contended && ctx.client.failures == old(ctx.client.failures) ==>
              Shown({FluentD, PlainFluentBit}, cr, ctx.local, ctx.status.conditions) &&
              ctx.pending.list == old(ctx.pending.list) + AwaitedTwo(FluentD, PlainFluentBit, cr, ctx.local)
  {
    ghost var c, p, l := ctx.status.conditions, ctx.status.ops, ctx.pending.list;
    var okFluentd := DeployFluentd(ctx, cr);
    ProgressStep(ok0, okFluentd, {S.Graylog}, S.Fluentd, {S.Fluentd}, c0, c, ctx.status.conditions, p0, p, ctx.status.ops, l, ctx.pending.list);
    ghost var f, o := ctx.client.failures, ctx.client.objects;
    c, p, l := ctx.status.conditions, ctx.status.ops, ctx.pending.list;
    var okFluentbit := DeployFluentbit(ctx, cr);
    ProgressStep(ok0 && okFluentd, okFluentbit, {S.Graylog, S.Fluentd}, S.Fluentbit, {S.Fluentbit},
                 c0, c, ctx.status.conditions, p0, p, ctx.status.ops, l, ctx.pending.list);
    ok := okFluentd && okFluentbit;
    FailuresCompose(old(ctx.status.conditions), c, ctx.status.conditions, {S.Fluentd}, {S.Fluentbit}, {S.Fluentd, S.Fluentbit});
    if !ctx.client.contended {
      PartsCompose({FluentD}, f == old(ctx.client.failures), {PlainFluentBit}, ctx.client.failures == f, cr, ctx.local, ctx.manifest,
                   old(ctx.client.objects), o, ctx.client.objects);
      assert {FluentD} + {PlainFluentBit} == {FluentD, PlainFluentBit};
      if ctx.client.failures == old(ctx.client.failures) {
        TwoShown(FluentD, PlainFluentBit, S.Fluentbit, okFluentd, okFluentbit, cr, ctx.local, c, ctx.status.conditions,
                 old(ctx.pending.list), l, ctx.pending.list);
      }
    }
  }

  /** Forwarder and aggregator, then the events reader. */
  method DeployCentralCollectors(ctx: Context, cr: LoggingService, ghost c0: seq<S.Condition>, ghost p0: seq<S.Op>, ghost ok0: bool)
    returns (ok: bool)
    requires ctx.Ready()
    requires Progress(ok0, {S.Graylog, S.Fluentd, S.Fluentbit}, c0, ctx.status.conditions, p0, ctx.status.ops, ctx.pending.list)
    modifies ctx.client, ctx.status, ctx.pending
    ensures ctx.Ready() && ctx.client.failures >= old(ctx.client.failures)
    ensures Progress(ok0 && ok, COMPONENT_REASONS, c0, ctx.status.conditions, p0, ctx.status.ops, ctx.pending.list)
    ensures !ctx.client.contended ==>
              Part({ForwarderAggregator, EventsReader}, ctx.client.failures == old(ctx.client.failures), cr, ctx.local, ctx.manifest, old(ctx.client.objects), ctx.client.objects)
    ensures !ctx.client.contended && ctx.client.failures == old(ctx.client.failures) ==>
              (ok <==> WorksFor(ForwarderAggregator, cr, ctx.local) && WorksFor(EventsReader, cr, ctx.local))
    ensures FailuresStay(old(ctx.status.conditions), ctx.status.conditions, {S.HAFluent, S.EventsReader})
    ensures !ctx.client.contended && ctx.client.failures == old(ctx.client.failures) ==>
              Shown({ForwarderAggregator, EventsReader}, cr, ctx.local, ctx.status.conditions) &&
              ctx.pending.list == old(ctx.pending.list) + AwaitedTwo(ForwarderAggregator, EventsReader, cr, ctx.local)
  {
    ghost var c, p, l := ctx.status.conditions, ctx.status.ops, ctx.pending.list;
    var okHAFluent := DeployHAFluent(ctx, cr);
    ProgressStep(ok0, okHAFluent, {S.Graylog, S.Fluentd, S.Fluentbit}, S.HAFluent, {S.HAFluent, S.Fluentbit},
                 c0, c, ctx.status.conditions, p0, p, ctx.status.ops, l, ctx.pending.list);
    ghost var f, o := ctx.client.failures, ctx.client.objects;
    c, p, l := ctx.status.conditions, ctx.status.ops, ctx.pending.list;
    var okEventsReader := DeployEventsReader(ctx, cr);
    ProgressStep(ok0 && okHAFluent, okEventsReader, {S.Graylog, S.Fluentd, S.Fluentbit} + {S.HAFluent}, S.EventsReader, {S.EventsReader},
                 c0, c, ctx.status.conditions, p0, p, ctx.status.ops, l, ctx.pending.list);
    assert {S.Graylog, S.Fluentd, S.Fluentbit} + {S.HAFluent} + {S.EventsReader} == COMPONENT_REASONS;
    ok := okHAFluent && okEventsReader;
    FailuresCompose(old(ctx.status.conditions), c, ctx.status.conditions, {S.HAFluent}, {S.EventsReader}, {S.HAFluent, S.EventsReader});
    if !ctx.client.contended {
      PartsCompose({ForwarderAggregator}, f == old(ctx.client.failures), {EventsReader}, ctx.client.failures == f, cr, ctx.local, ctx.manifest,
                   old(ctx.client.objects), o, ctx.client.objects);
      assert {ForwarderAggregator} + {EventsReader} == {ForwarderAggregator, EventsReader};
      if ctx.client.failures == old(ctx.client.failures) {
        TwoShown(ForwarderAggregator, EventsReader, S.EventsReader, okHAFluent, okEventsReader, cr, ctx.local, c, ctx.status.conditions,
                 old(ctx.pending.list), l, ctx.pending.list);
      }
    }
  }

  method DeployCollectors(ctx: Context, cr: LoggingService, ghost c0: seq<S.Condition>, ghost p0: seq<S.Op>, ghost ok0: bool)
    returns (ok: bool)
    requires ctx.Ready()
    requires Progress(ok0, {S.Graylog}, c0, ctx.status.conditions, p0, ctx.status.ops, ctx.pending.list)
    modifies ctx.client, ctx.status, ctx.pending
    ensures ctx.Ready() && ctx.client.failures >= old(ctx.client.failures)
    ensures Progress(ok0 && ok, COMPONENT_REASONS, c0, ctx.status.conditions, p0, ctx.status.ops, ctx.pending.list)
    ensures !ctx.client.contended ==>
              CycleEffect(ctx.client.failures == old(ctx.client.failures), cr, ctx.local, ctx.manifest, old(ctx.client.objects), ctx.client.objects)
    ensures !ctx.client.contended && ctx.client.failures == old(ctx.client.failures) ==> (ok <==> Works(cr, ctx.local))
    ensures FailuresStay(old(ctx.status.conditions), ctx.status.conditions, {S.Fluentd, S.Fluentbit, S.HAFluent, S.EventsReader})
    ensures !ctx.client.contended && ctx.client.failures == old(ctx.client.failures) ==>
              Shown(ALL, cr, ctx.local, ctx.status.conditions) &&
              ctx.pending.list == old(ctx.pending.list) + AwaitedAll(cr, ctx.local)
  {
    var okNodes := DeployNodeCollectors(ctx, cr, c0, p0, ok0);
    ghost var f, o, c, l := ctx.client.failures, ctx.client.objects, ctx.status.conditions, ctx.pending.list;
    var okCentral := DeployCentralCollectors(ctx, cr, c0, p0, ok0 && okNodes);
    ok := okNodes && okCentral;
    FailuresCompose(old(ctx.status.conditions), c, ctx.status.conditions, {S.Fluentd, S.Fluentbit}, {S.HAFluent, S.EventsReader},
                    {S.Fluentd, S.Fluentbit, S.HAFluent, S.EventsReader});
    if !ctx.client.contended {
      HalvesAreCycle(f == old(ctx.client.failures), ctx.client.failures == f, cr, ctx.local, ctx.manifest, old(ctx.client.objects), o, ctx.client.objects);
      WorksIff(cr, ctx.local);
      if ctx.client.failures == old(ctx.client.failures) {
        HalvesShown(cr, ctx.local, c, ctx.status.conditions, old(ctx.pending.list), l, ctx.pending.list);
      }
    }
  }

  /** All components in the order of the cycle; a failure of one does not stop the next. */
  method DeployComponents(ctx: Context, server: GraylogServer.Server, cr: LoggingService, plan: P.Plan)
    returns (ok: bool, ghost deployed: bool)
    requires ctx.Ready() && server.Valid() && GraylogTables.Agree(plan.tables) && ctx.pending.list == []
    modifies ctx.client, ctx.status, ctx.pending, server
    ensures ctx.Ready() && server.Valid() && ctx.client.failures >= old(ctx.client.failures)
    ensures Progress(ok, COMPONENT_REASONS, old(ctx.status.conditions), ctx.status.conditions, old(ctx.status.ops), ctx.status.ops, ctx.pending.list)
    ensures !ctx.client.contended ==>
              CycleEffect(ctx.client.failures == old(ctx.client.failures), cr, ctx.local, ctx.manifest, old(ctx.client.objects), ctx.client.objects)
    ensures Provisioned(plan, cr, ok, old(server.db), server.db)
    ensures cr.graylog.None? ==> deployed
    ensures server.failures >= old(server.failures)
    ensures !deployed || (server.failures == old(server.failures) && !GraylogWorks(plan, cr, old(server.db))) ==>
              S.IsStatusFailed(ctx.status.conditions, S.Graylog)
    ensures !ctx.client.contended && ctx.client.failures == old(ctx.client.failures) ==>
              Shown(ALL, cr, ctx.local, ctx.status.conditions) && ctx.pending.list == AwaitedAll(cr, ctx.local)
    ensures !ctx.client.contended && ctx.client.failures == old(ctx.client.failures) && ok ==> Works(cr, ctx.local)
    ensures !ctx.client.contended && ctx.client.failures == old(ctx.client.failures) && deployed && server.failures == old(server.failures) ==>
              (ok <==> Works(cr, ctx.local) && GraylogWorks(plan, cr, old(server.db)))
  {
    ghost var c0, p0 := ctx.status.conditions, ctx.status.ops;
    var okGraylog;
    okGraylog, deployed := DeployGraylog(ctx.status, server, cr, plan);
    ProgressStep(true, okGraylog, {}, S.Graylog, {S.Graylog}, c0, c0, ctx.status.conditions, p0, p0, ctx.status.ops, [], []);
    assert {} + {S.Graylog} == {S.Graylog};
    ok := DeployCollectors(ctx, cr, c0, p0, okGraylog);
    ok := okGraylog && ok;
  }

  // ------------------------------------------------------------------ the cycle

  /** The log grew, and nothing it gained reads the resource again or reports the outcome of
      a cycle. */
  ghost predicate NoReport(was: seq<S.Op>, now: seq<S.Op>) {
    && was <= now
    && forall i | |was| <= i < |now| :: !now[i].action.Load? && (now[i].action.Upsert? && now[i].action.c.reason.Cycle? ==> now[i].action.c.phase.InProgress?)
  }

  lemma NoReportChain(was: seq<S.Op>, mid: seq<S.Op>, now: seq<S.Op>, reasons: set<S.Reason>)
    requires NoReport(was, mid) && Extends(mid, now, reasons) && S.Cycle !in reasons
    ensures NoReport(was, now)
  {
    forall i | |was| <= i < |now|
      ensures !now[i].action.Load? && (now[i].action.Upsert? && now[i].action.c.reason.Cycle? ==> now[i].action.c.phase.InProgress?)
    {
      if i < |mid| {
        assert now[i] == mid[i];
      } else {
        assert TouchesOnly(now[i].action, reasons);
      }
    }
  }

  lemma DistinctPair(l: seq<S.Condition>)
    requires S.Distinct(l)
    ensures 2 <= |l| ==> l[0].reason != l[1].reason
  {
  }

  /** When every component was deployed and every awaited one has started, only the cycle
      status is left: whatever earlier failures and truncated sweeps left behind is gone. */
  lemma OnlyCycleRemains(mid: seq<S.Condition>, now: seq<S.Condition>, pending: seq<Component>, started: multiset<Component>)
    requires Covered(COMPONENT_REASONS, mid, pending) && started == multiset(pending)
    requires Reasons(now) - (StatusesOf(pending) + {S.ComponentPending}) == Reasons(mid) - (StatusesOf(pending) + {S.ComponentPending})
    requires forall c | c in started :: c.status !in Reasons(now)
    requires S.ComponentPending !in Reasons(now) && S.Good(now) && S.Cycle in Reasons(now)
    ensures Reasons(now) == {S.Cycle} && |now| == 1
  {
    var awaited := StatusesOf(pending) + {S.ComponentPending};
    forall c | c in pending
      ensures c.status !in Reasons(now)
    {
      assert c in multiset(pending);
    }
    assert Reasons(now) == Reasons(now) - awaited == Reasons(mid) - awaited;
    assert forall r | r in Reasons(now) :: r !in COMPONENT_REASONS;
    assert S.MonitoringAgent !in Reasons(now);
    assert forall r: S.Reason :: r in COMPONENT_REASONS || r == S.Cycle || r == S.MonitoringAgent || r == S.ComponentPending;
    assert forall i | 0 <= i < |now| :: now[i].reason in Reasons(now);
    DistinctPair(now);
  }

  const CYCLE_IN_PROGRESS := "Logging Service reconcile cycle in progress"

  /** The conditions once a cycle has begun: a failed cycle status stays as it is. */
  function Begun(l: seq<S.Condition>, time: int): seq<S.Condition> {
    if S.IsStatusFailed(l, S.Cycle) then l
    else S.Upserted(l, S.Condition(S.InProgress, false, S.Cycle, CYCLE_IN_PROGRESS, time))
  }

  lemma SweepKeepsHead(cr: LoggingService, l: seq<S.Condition>)
    requires S.Good(l) && l != []
    ensures S.Swept(cr, l) != [] && S.Swept(cr, l)[0] == l[0]
  {
    assert S.IsKept(cr, l[0]);
  }

  /** What a cycle leaves first in the condition list. A successful one leaves nothing else,
      whatever it started from. */
  ghost predicate CycleStatus(success: bool, conditions: seq<S.Condition>, time: int) {
    if success then
      conditions == [S.Condition(S.Success, true, S.Cycle, "Reconcile of Logging service succeeded", time)]
    else
      conditions != [] && conditions[0].reason == S.Cycle && conditions[0].phase.Failed?
  }

  /** A failure that was stored sticks: if every patch of the new log entries arrives, the
      first condition is that very failure, transition time included, in every state the
      list goes through, in memory and as stored. */
  ghost predicate Sticky(was: seq<S.Op>, now: seq<S.Op>, stored: seq<S.Condition>) {
    stored != [] && stored[0].phase.Failed? && (forall i | |was| <= i < |now| :: now[i].patched) ==>
      forall k | |was| < k <= |now| ::
        var r := S.Replay(S.Resource([], []), now[..k]);
        r.mem == r.stored && r.mem != [] && r.mem[0] == stored[0]
  }

  /** A resource comes with what the code derives from it, the desired objects and the plan for
      Graylog, and with how the local work of the cycle turns out. */
  datatype ReadResult = Found(cr: LoggingService, manifest: Key -> Obj, local: LocalWork, plan: P.Plan) | NotFound | ReadFailed

  datatype Result = Result(requeueAfter: int, err: bool)

  class LoggingServiceReconciler {
    const client: Client
    const status: StatusUpdater
    const server: GraylogServer.Server
    const clock: Clock
    var timeoutOnFailedReconcile: int
    ghost var outcomes: seq<bool>   // of all cycles so far, true for success

    constructor (client: Client, status: StatusUpdater, server: GraylogServer.Server, clock: Clock)
      ensures this.client == client && this.status == status && this.server == server && this.clock == clock
      ensures timeoutOnFailedReconcile == Backoff.DelayAfter(outcomes) && outcomes == []
    {
      this.client, this.status, this.server, this.clock := client, status, server, clock;
      timeoutOnFailedReconcile, outcomes := Backoff.SECOND, [];
    }

    ghost predicate Valid()
      reads client, status, server
    {
      client.Valid() && status.Valid() && server.Valid()
    }

    /** One reconcile request. `success` is the outcome of the cycle, if there was one, and
        `graylog` says whether Graylog's own objects could be handled. */
    method Reconcile(lookup: ReadResult) returns (result: Result, ghost success: bool, ghost graylog: bool)
      requires Valid() && timeoutOnFailedReconcile == Backoff.DelayAfter(outcomes)
      requires lookup.Found? ==> GraylogTables.Agree(lookup.plan.tables)
      modifies this, client, status, server, clock
      ensures Valid() && timeoutOnFailedReconcile == Backoff.DelayAfter(outcomes)
      ensures outcomes == old(outcomes) + if lookup.Found? then [success] else []
      // Without a resource nothing happens.
      ensures !lookup.Found? ==> result == Result(0, lookup.ReadFailed?)
                                 && status.conditions == old(status.conditions) && status.stored == old(status.stored)
                                 && client.objects == old(client.objects)
      // A failed cycle is retried after the current delay, a successful one is not.
      ensures lookup.Found? ==> result == Result(if success then 0 else Backoff.DelayAfter(old(outcomes)), false)
      ensures lookup.Found? ==> CycleStatus(success, status.conditions, status.clock)
      ensures lookup.Found? && !success ==> Sticky(old(status.ops), status.ops, old(status.stored))
      // Without other writers, the cluster follows the spec.
      ensures lookup.Found? && !client.contended ==>
                CycleEffect(client.failures == old(client.failures), lookup.cr, lookup.local, lookup.manifest, old(client.objects), client.objects)
      ensures lookup.Found? && !client.contended && client.failures == old(client.failures) && success ==> Works(lookup.cr, lookup.local)
      // If nothing stands in its way, a cycle succeeds exactly if every collector works and Graylog's content can be provided.
      ensures lookup.Found? && lookup.cr.graylog.None? ==> graylog
      ensures lookup.Found? && Undisturbed(old(client.failures), old(server.failures), old(clock.now), old(clock.log)) && graylog ==>
                (success <==> Works(lookup.cr, lookup.local) && GraylogWorks(lookup.plan, lookup.cr, old(server.db)))
      // Whatever fails is reported.
      ensures lookup.Found? && !client.contended && client.failures == old(client.failures) ==>
                && Shown(ALL, lookup.cr, lookup.local, status.conditions)
                && GraylogShown(server.failures == old(server.failures), graylog, lookup.plan, lookup.cr, old(server.db), status.conditions)
      // Every cycle is an attempt at provisioning Graylog or leaves it alone.
      ensures if lookup.Found? then Provisioned(lookup.plan, lookup.cr, success, old(server.db), server.db)
              else server.db == old(server.db)
    {
      if lookup.NotFound? {
        return Result(0, false), false, false;
      }
      if lookup.ReadFailed? {
        return Result(0, true), false, false;
      }
      var ok;
      ok, graylog := RunCycle(lookup.cr, lookup.manifest, lookup.local, lookup.plan);
      success := ok;
      result := Requeue(ok);
    }

    /** A failed cycle comes again after the current delay, which then doubles. */
    method Requeue(ok: bool) returns (result: Result)
      requires timeoutOnFailedReconcile == Backoff.DelayAfter(outcomes)
      modifies `timeoutOnFailedReconcile, `outcomes
      ensures outcomes == old(outcomes) + [ok] && timeoutOnFailedReconcile == Backoff.DelayAfter(outcomes)
      ensures result == Result(if ok then 0 else Backoff.DelayAfter(old(outcomes)), false)
    {
      outcomes := outcomes + [ok];
      assert outcomes[..|outcomes| - 1] == old(outcomes);
      if !ok {
        result := Result(timeoutOnFailedReconcile, false);
        timeoutOnFailedReconcile := Backoff.Wrap64(timeoutOnFailedReconcile * 2);
      } else {
        timeoutOnFailedReconcile := Backoff.SECOND;
        result := Result(0, false);
      }
    }

    /** Reads the resource, runs the cycle and reports its outcome. */
    method RunCycle(cr: LoggingService, manifest: Key -> Obj, local: LocalWork, plan: P.Plan) returns (ok: bool, ghost graylog: bool)
      requires Valid() && GraylogTables.Agree(plan.tables)
      modifies client, status, server, clock
      ensures Valid() && client.failures >= old(client.failures)
      ensures CycleStatus(ok, status.conditions, status.clock)
      ensures !ok ==> Sticky(old(status.ops), status.ops, old(status.stored))
      ensures Provisioned(plan, cr, ok, old(server.db), server.db)
      ensures !client.contended ==>
                CycleEffect(client.failures == old(client.failures), cr, local, manifest, old(client.objects), client.objects)
      ensures !client.contended && client.failures == old(client.failures) && ok ==> Works(cr, local)
      ensures cr.graylog.None? ==> graylog
      ensures Undisturbed(old(client.failures), old(server.failures), old(clock.now), old(clock.log)) && graylog ==>
                (ok <==> Works(cr, local) && GraylogWorks(plan, cr, old(server.db)))
      ensures !client.contended && client.failures == old(client.failures) ==>
                Shown(ALL, cr, local, status.conditions) && GraylogShown(server.failures == old(server.failures), graylog, plan, cr, old(server.db), status.conditions)
    {
      ghost var ops, stored := status.ops, status.stored;
      status.Load();
      ghost var ops1 := status.ops;
      ok, graylog := ReconcileLoggingServiceCluster(cr, manifest, local, plan);
      if ok {
        Report(S.Success, true, "Reconcile of Logging service succeeded");
      } else {
        ghost var ops2 := status.ops;
        Report(S.Failed, false, S.CYCLE_FAILED);
        FailingCycleLog(ops, ops1, ops2, status.ops);
        StickyCycle(ops, status.ops, stored);
      }
    }

    lemma FailingCycleLog(ops0: seq<S.Op>, ops1: seq<S.Op>, ops2: seq<S.Op>, ops3: seq<S.Op>)
      requires Logged(ops0, ops1, S.Action.Load) && NoReport(ops1, ops2)
      requires exists c: S.Condition :: c.phase.Failed? && Logged(ops2, ops3, S.Upsert(c))
      ensures |ops0| < |ops3| && ops0 <= ops3 && ops3[|ops0|].action.Load?
      ensures forall i | |ops0| <= i < |ops3| && ops3[i].action.Upsert? && ops3[i].action.c.reason.Cycle? ::
                !ops3[i].action.c.phase.Success?
    {
      assert ops3[|ops0|] == ops2[|ops0|] == ops1[|ops0|];
      forall i | |ops0| <= i < |ops3| && ops3[i].action.Upsert? && ops3[i].action.c.reason.Cycle?
        ensures !ops3[i].action.c.phase.Success?
      {
        if |ops0| < i < |ops2| {
          assert ops3[i] == ops2[i];
        }
      }
    }

    /** The outcome of a cycle becomes the first condition. */
    method Report(phase: S.Phase, ok: bool, message: string)
      requires status.Valid() && S.Cycle in Reasons(status.conditions) && !phase.InProgress?
      requires phase.Failed? ==> message == S.CYCLE_FAILED && !ok
      modifies status
      ensures status.Valid() && status.conditions != []
      ensures status.conditions[0].reason == S.Cycle && status.conditions[0].phase == phase
      ensures Logged(old(status.ops), status.ops, S.Upsert(S.Condition(phase, ok, S.Cycle, message, status.clock)))
      ensures FailuresStay(old(status.conditions), status.conditions, {S.Cycle})
      ensures |old(status.conditions)| == 1 && phase.Success? ==>
                status.conditions == [S.Condition(phase, ok, S.Cycle, message, status.clock)]
    {
      ghost var l := status.conditions;
      assert l != [] && S.GetCondition(l, S.Cycle) == 0;
      status.UpdateStatus(S.Cycle, phase, ok, message);
      UpsertIsStep(l, S.Condition(phase, ok, S.Cycle, message, status.clock));
    }

    lemma StickyCycle(was: seq<S.Op>, now: seq<S.Op>, stored: seq<S.Condition>)
      requires S.Legal(S.Resource([], []), now) && |was| < |now| && was <= now && now[|was|].action.Load?
      requires S.Replay(S.Resource([], []), was).stored == stored
      requires forall i | |was| <= i < |now| && now[i].action.Upsert? && now[i].action.c.reason.Cycle? :: !now[i].action.c.phase.Success?
      ensures Sticky(was, now, stored)
    {
      if stored != [] && stored[0].phase.Failed? && forall i | |was| <= i < |now| :: now[i].patched {
        assert now[..|was|] == was;
        forall k | |was| < k <= |now|
          ensures var r := S.Replay(S.Resource([], []), now[..k]);
                  r.mem == r.stored && r.mem != [] && r.mem[0] == stored[0]
        {
          S.FailureSticks(now, |was|, k);
        }
      }
    }

    /** The start of a cycle: the cycle status, then the sweep. */
    method StartCycle(cr: LoggingService)
      requires status.Valid()
      modifies status
      ensures status.Valid() && S.Cycle in Reasons(status.conditions)
      ensures status.conditions == S.Swept(cr, Begun(old(status.conditions), status.clock))
      ensures NoReport(old(status.ops), status.ops)
    {
      SetInProgress();
      ghost var l, ops := status.conditions, status.ops;
      status.RemoveTemporaryStatuses(cr);
      NoReportSweep(old(status.ops), ops, status.ops, cr);
      SweepKeepsHead(cr, l);
      assert status.conditions[0].reason == S.Cycle;
    }

    method SetInProgress()
      requires status.Valid()
      modifies status
      ensures status.Valid() && S.Cycle in Reasons(status.conditions) && status.conditions != []
      ensures status.conditions == Begun(old(status.conditions), status.clock)
      ensures NoReport(old(status.ops), status.ops)
    {
      ghost var ops := status.ops;
      if !S.IsStatusFailed(status.conditions, S.Cycle) {
        status.UpdateStatus(S.Cycle, S.InProgress, false, CYCLE_IN_PROGRESS);
        NoReportStart(ops, status.ops, S.Condition(S.InProgress, false, S.Cycle, CYCLE_IN_PROGRESS, status.clock));
      }
      assert status.conditions != [];
    }

    lemma NoReportStart(was: seq<S.Op>, now: seq<S.Op>, c: S.Condition)
      requires Logged(was, now, S.Upsert(c)) && c.phase.InProgress?
      ensures NoReport(was, now)
    {
    }

    lemma NoReportSweep(was: seq<S.Op>, mid: seq<S.Op>, now: seq<S.Op>, cr: LoggingService)
      requires NoReport(was, mid) && Logged(mid, now, S.Sweep(cr))
      ensures NoReport(was, now)
    {
      assert forall i | |was| <= i < |mid| :: now[i] == mid[i];
    }

    method ReconcileLoggingServiceCluster(cr: LoggingService, manifest: Key -> Obj, local: LocalWork, plan: P.Plan)
      returns (success: bool, ghost graylog: bool)
      requires Valid() && GraylogTables.Agree(plan.tables)
      modifies client, status, server, clock
      ensures Valid() && client.failures >= old(client.failures)
      ensures S.Cycle in Reasons(status.conditions) && NoReport(old(status.ops), status.ops)
      ensures success ==> |status.conditions| == 1
      ensures !client.contended ==>
                CycleEffect(client.failures == old(client.failures), cr, local, manifest, old(client.objects), client.objects)
      ensures !client.contended && client.failures == old(client.failures) && success ==> Works(cr, local)
      ensures Provisioned(plan, cr, success, old(server.db), server.db)
      ensures cr.graylog.None? ==> graylog
      ensures server.failures >= old(server.failures)
      ensures Undisturbed(old(client.failures), old(server.failures), old(clock.now), old(clock.log)) && graylog ==>
                (success <==> Works(cr, local) && GraylogWorks(plan, cr, old(server.db)))
      ensures !client.contended && client.failures == old(client.failures) ==>
                Shown(ALL, cr, local, status.conditions) && GraylogShown(server.failures == old(server.failures), graylog, plan, cr, old(server.db), status.conditions)
    {
      StartCycle(cr);
      success, graylog := DeployAndAwait(cr, manifest, local, plan);
    }

    /** The cycle after its start: all components, then the wait for those that were deployed. */
    method DeployAndAwait(cr: LoggingService, manifest: Key -> Obj, local: LocalWork, plan: P.Plan)
      returns (success: bool, ghost graylog: bool)
      requires Valid() && GraylogTables.Agree(plan.tables) && S.Cycle in Reasons(status.conditions)
      modifies client, status, server, clock
      ensures Valid() && client.failures >= old(client.failures)
      ensures S.Cycle in Reasons(status.conditions) && forall was :: NoReport(was, old(status.ops)) ==> NoReport(was, status.ops)
      ensures success ==> |status.conditions| == 1
      ensures !client.contended ==>
                CycleEffect(client.failures == old(client.failures), cr, local, manifest, old(client.objects), client.objects)
      ensures !client.contended && client.failures == old(client.failures) && success ==> Works(cr, local)
      ensures Provisioned(plan, cr, success, old(server.db), server.db)
      ensures cr.graylog.None? ==> graylog
      ensures server.failures >= old(server.failures)
      ensures Undisturbed(old(client.failures), old(server.failures), old(clock.now), old(clock.log)) && graylog ==>
                (success <==> Works(cr, local) && GraylogWorks(plan, cr, old(server.db)))
      ensures !client.contended && client.failures == old(client.failures) ==>
                Shown(ALL, cr, local, status.conditions) && GraylogShown(server.failures == old(server.failures), graylog, plan, cr, old(server.db), status.conditions)
    {
      var pending := new ComponentList();
      var ctx := Context(client, status, pending, manifest, local);
      ghost var ops := status.ops;
      var deployed;
      deployed, graylog := DeployComponents(ctx, server, cr, plan);
      forall was | NoReport(was, ops)
        ensures NoReport(was, status.ops)
      {
        NoReportChain(was, ops, status.ops, COMPONENT_REASONS);
      }
      ghost var conditions := status.conditions;
      var started := AwaitComponents(ctx, deployed);
      success := deployed && started;
      if !client.contended && client.failures == old(client.failures) {
        FailuresOutlastWait(cr, local, conditions, status.conditions);
      }
    }

    /** A failure of Graylog is reported. */
    ghost predicate GraylogShown(quiet: bool, graylog: bool, plan: P.Plan, cr: LoggingService, db: GraylogServer.Store, conditions: seq<S.Condition>)
      requires GraylogTables.Agree(plan.tables)
    {
      !graylog || (quiet && !GraylogWorks(plan, cr, db)) ==> S.IsStatusFailed(conditions, S.Graylog)
    }

    lemma FailuresOutlastWait(cr: LoggingService, local: LocalWork, was: seq<S.Condition>, now: seq<S.Condition>)
      requires Shown(ALL, cr, local, was) && FailuresStay(was, now, StatusesOf(AwaitedAll(cr, local)) + {S.ComponentPending})
      ensures Shown(ALL, cr, local, now)
      ensures S.IsStatusFailed(was, S.Graylog) ==> S.IsStatusFailed(now, S.Graylog)
    {
      forall x: Collector
        ensures !WorksFor(x, cr, local) ==> FailureOf(x) !in StatusesOf(AwaitedAll(cr, local)) + {S.ComponentPending}
        ensures S.Graylog !in StatusesOf(AwaitedAll(cr, local))
      {
        FailureNotAwaited(x, cr, local);
      }
      FailureNotAwaited(FluentD, cr, local);
    }

    /** Nothing outside the cycle stood in its way: no other writer, no failing call on the managed
        objects, no failing request to Graylog, and no wait that was given up. */
    ghost predicate Undisturbed(failures: nat, serverFailures: nat, now: int, log: seq<WaitEvent>)
      reads client, server, clock
    {
      && !client.contended && client.failures == failures && server.failures == serverFailures
      && !GaveUp(now, log, clock.now, clock.log)
    }

    /** The last step of a cycle: wait for the pending components. */
    method AwaitComponents(ctx: Context, ghost deployed: bool) returns (ok: bool)
      requires ctx.status == status && status.Valid() && S.Cycle in Reasons(status.conditions)
      requires Waitable(ctx.pending.list) && (deployed ==> Covered(COMPONENT_REASONS, status.conditions, ctx.pending.list))
      modifies status, ctx.pending, clock
      ensures status.Valid() && S.Cycle in Reasons(status.conditions)
      ensures forall was :: NoReport(was, old(status.ops)) ==> NoReport(was, status.ops)
      ensures deployed && ok ==> |status.conditions| == 1
      ensures !ok ==> GaveUp(old(clock.now), old(clock.log), clock.now, clock.log)
      ensures !ok ==> S.IsStatusFailed(status.conditions, S.ComponentPending)
                      || (ctx.pending.list != [] && forall c | c in ctx.pending.list :: S.IsStatusFailed(status.conditions, c.status))
      ensures FailuresStay(old(status.conditions), status.conditions, StatusesOf(old(ctx.pending.list)) + {S.ComponentPending})
    {
      ghost var conditions, ops, l := status.conditions, status.ops, ctx.pending.list;
      ghost var started;
      ok, started := Wait(ctx);
      forall was | NoReport(was, ops)
        ensures NoReport(was, status.ops)
      {
        NoReportChain(was, ops, status.ops, StatusesOf(l) + {S.ComponentPending});
      }
      if deployed && ok {
        OnlyCycleRemains(conditions, status.conditions, l, started);
      }
    }

    /** A wait that fails is reported under a reason of its own. */
    method Wait(ctx: Context) returns (ok: bool, ghost started: multiset<Component>)
      requires ctx.status == status && status.Valid() && S.Cycle in Reasons(status.conditions) && Waitable(ctx.pending.list)
      modifies status, ctx.pending, clock
      ensures status.Valid()
      ensures StatusStep(old(status.conditions), status.conditions, old(status.ops), status.ops,
                         StatusesOf(old(ctx.pending.list)) + {S.ComponentPending})
      ensures ok ==> started == multiset(old(ctx.pending.list)) && S.ComponentPending !in Reasons(status.conditions)
      ensures ok ==> forall c | c in started :: c.status !in Reasons(status.conditions)
      ensures !ok ==> GaveUp(old(clock.now), old(clock.log), clock.now, clock.log)
      ensures !ok ==> S.IsStatusFailed(status.conditions, S.ComponentPending)
                      || (ctx.pending.list != [] && forall c | c in ctx.pending.list :: S.IsStatusFailed(status.conditions, c.status))
    {
      ghost var conditions, ops, l := status.conditions, status.ops, ctx.pending.list;
      var waiter := new ComponentsPendingReconciler(ctx, clock);
      var isStatusSuccess, err, start, rounds := waiter.Run();
      started := Started(rounds);
      if err.Some? {
        ghost var conditions1, ops1 := status.conditions, status.ops;
        FailStatus(status, S.ComponentPending, "Reason: " + err.value);
        StatusStepCompose(conditions, conditions1, status.conditions, ops, ops1, status.ops,
                          StatusesOf(l) + {S.ComponentPending}, {S.ComponentPending});
      }
      ok := err.None? && isStatusSuccess;
      assert ok ==> multiset(ctx.pending.list) == multiset{};
    }
  }
}
