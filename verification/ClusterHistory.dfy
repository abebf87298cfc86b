/** Histories of cycles: the managed objects over any sequence of spec changes and failures, and
    the cycles as attempts at provisioning Graylog. */
module ClusterHistory {
  import opened Wrappers
  import opened LoggingServiceTypes
  import opened ApiServer
  import opened Reconcilers
  import opened Components
  import opened Collectors
  import opened Reconcile
  import P = Provisioning
  import GraylogTables
  import GraylogServer
  import RestartSafety

  /** Everything a collector ever creates or deletes. */
  function Managed(x: Collector): set<Key> {
    KeysOf(x) + LegacyOf(x) + if x.EventsReader? then {EventsReaderAccount()} else {}
  }

  /** One cycle without other writers, successful or not; `quiet`: no call on the managed
      objects failed. */
  datatype Cycle = Cycle(cr: LoggingService, manifest: Key -> Obj, local: LocalWork, quiet: bool) {
    /** Nothing stood in the way of this collector. Graylog may be down, pods may be slow, and
        the other collectors may fail. */
    predicate CleanFor(x: Collector) {
      quiet && WorksFor(x, cr, local)
    }

    predicate Clean() {
      quiet && Works(cr, local)
    }

    /** `Reconcile.LoggingServiceReconciler.Reconcile` promises it. */
    ghost predicate Leads(was: Objects, now: Objects) {
      CycleEffect(quiet, cr, local, manifest, was, now)
    }
  }

  ghost predicate History(cycles: seq<Cycle>, states: seq<Objects>) {
    && |states| == |cycles| + 1
    && forall i | 0 <= i < |cycles| :: cycles[i].Leads(states[i], states[i + 1])
  }

  lemma CycleOf(cycles: seq<Cycle>, states: seq<Objects>, i: nat)
    requires History(cycles, states) && i < |cycles|
    ensures cycles[i].Leads(states[i], states[i + 1])
  {
  }

  /** A collector's objects are installed or removed, one or the other, but for the account. */
  lemma KeysArePartitioned(x: Collector, cr: LoggingService, k: Key)
    requires k in Managed(x)
    ensures k != EventsReaderAccount() ==> (k in Install(x, cr) <==> k !in Remove(x, cr))
    ensures k == EventsReaderAccount() ==> k !in Install(x, cr) && (k in Remove(x, cr) <==> !cr.eventsReader)
    ensures Owner(k) == Some(x)
  {
  }

  /** From any state, whatever went wrong before and whatever becomes of the other collectors, a
      cycle that is clean for a collector leaves each of its objects exactly if the spec asks
      for it, the service account of the events reader excepted. */
  lemma LastCycleDecides(c: Cycle, x: Collector, was: Objects, now: Objects, k: Key)
    requires c.Leads(was, now) && c.CleanFor(x) && k in Managed(x)
    ensures k != EventsReaderAccount() ==> (k in now <==> k in Install(x, c.cr))
    ensures k == EventsReaderAccount() ==> (k in now <==> k in was && c.cr.eventsReader)
  {
    OutcomeOf(x, c.quiet, c.cr, c.local, c.manifest, was, now);
    KeysArePartitioned(x, c.cr, k);
    if k == EventsReaderAccount() && c.cr.eventsReader {
      assert !Touches(ALL, c.cr, k);
    }
  }

  /** A history of any cycles whose last one is clean for the collector. */
  ghost predicate EndsCleanFor(cycles: seq<Cycle>, states: seq<Objects>, x: Collector) {
    History(cycles, states) && cycles != [] && cycles[|cycles| - 1].CleanFor(x)
  }

  /** After any sequence of spec changes, failed calls, failed rendering and slow pods, a cycle
      that is clean for a collector leaves exactly those of its objects that its own spec asks
      for. */
  lemma ObjectsFollowSpec(cycles: seq<Cycle>, states: seq<Objects>, x: Collector, k: Key)
    requires EndsCleanFor(cycles, states, x) && k in Managed(x) && k != EventsReaderAccount()
    ensures k in states[|cycles|] <==> k in Install(x, cycles[|cycles| - 1].cr)
  {
    var n := |cycles|;
    var c, was, now := cycles[n - 1], states[n - 1], states[n];
    CycleOf(cycles, states, n - 1);
    LastCycleDecides(c, x, was, now, k);
  }

  lemma ClearedBefore(c: Cycle, was: Objects)
    requires forall x | Chosen(x, c.cr) :: LastOf(x) !in was
    ensures forall x | !c.CleanFor(x) && c.quiet :: Chosen(x, c.cr) && LastOf(x) !in was && LastOf(x) in Managed(x)
  {
  }

  /** The objects are exactly those the spec asks for. */
  ghost predicate FollowsSpec(cr: LoggingService, objects: Objects) {
    forall x: Collector, k | k in Managed(x) && k != EventsReaderAccount() :: k in objects <==> k in Install(x, cr)
  }

  /** From a state in which the chosen collectors were not complete, a cycle without failing calls
      leaves exactly the objects its spec asks for if and only if every collector works. */
  lemma FollowsSpecIff(c: Cycle, was: Objects, now: Objects)
    requires c.Leads(was, now) && c.quiet && forall x | Chosen(x, c.cr) :: LastOf(x) !in was
    ensures FollowsSpec(c.cr, now) <==> Works(c.cr, c.local)
  {
    if Works(c.cr, c.local) {
      forall x: Collector, k | k in Managed(x) && k != EventsReaderAccount()
        ensures k in now <==> k in Install(x, c.cr)
      {
        LastCycleDecides(c, x, was, now, k);
      }
    } else {
      var x: Collector :| !WorksFor(x, c.cr, c.local);
      ClearedBefore(c, was);
      CompleteIffWorks(x, c.cr, c.local, c.manifest, was, now);
      OutcomeOf(x, c.quiet, c.cr, c.local, c.manifest, was, now);
      assert LastOf(x) in Managed(x) && LastOf(x) in Install(x, c.cr) && LastOf(x) !in now;
    }
  }

  /** A cycle in which no call fails and everything renders, builds and starts, and which yet
      misses what its spec asks for: the aggregator's output is not configured. */
  lemma MisconfiguredAggregatorMisses(cr: LoggingService, manifest: Key -> Obj)
    requires cr.HighAvailability() && cr.AggregatorMisconfigured() && cr.fluentd.None? && !cr.eventsReader
    ensures var c := Cycle(cr, manifest, LocalWork((n: Name) => true, (k: Key) => true, Ready), true);
            c.Leads(map[], map[]) && !FollowsSpec(cr, map[])
  {
    var c := Cycle(cr, manifest, LocalWork((n: Name) => true, (k: Key) => true, Ready), true);
    forall x: Collector
      ensures Outcome(x, true, cr, c.local, manifest, map[], map[])
    {
      assert x.ForwarderAggregator? || !Chosen(x, cr);
    }
    var k, none: Objects := LastOf(ForwarderAggregator), map[];
    assert k in Managed(ForwarderAggregator) && k != EventsReaderAccount();
    assert k in Install(ForwarderAggregator, cr) && k !in none;
    assert !FollowsSpec(cr, none);
  }

  /** Objects that no collector owns are never touched. */
  lemma {:induction false} OthersStay(cycles: seq<Cycle>, states: seq<Objects>, k: Key)
    requires History(cycles, states) && forall x: Collector :: k !in Managed(x)
    ensures Lookup(states[|cycles|], k) == Lookup(states[0], k)
  {
    var n := |cycles|;
    if n > 0 {
      CycleOf(cycles, states, n - 1);
      NotTouched(cycles[n - 1].cr, k);
      OthersStay(cycles[..n - 1], states[..n], k);
    }
  }

  lemma NotTouched(cr: LoggingService, k: Key)
    requires forall x: Collector :: k !in Managed(x)
    ensures !Touches(ALL, cr, k)
  {
    if Owner(k).Some? {
      assert k !in Managed(Owner(k).value);
    }
  }

  /** The operator deletes that service account but never creates it: over any history without
      failing calls it is there exactly if it was there in the beginning and the events reader
      has been chosen throughout, whatever became of any collector. */
  lemma ServiceAccountOutlives(cycles: seq<Cycle>, states: seq<Objects>)
    requires History(cycles, states) && forall i | 0 <= i < |cycles| :: cycles[i].quiet
    ensures EventsReaderAccount() in states[|cycles|] <==>
            EventsReaderAccount() in states[0] && forall i | 0 <= i < |cycles| :: cycles[i].cr.eventsReader
  {
    var present := seq(|states|, i requires 0 <= i < |states| => EventsReaderAccount() in states[i]);
    var chosen := seq(|cycles|, i requires 0 <= i < |cycles| => cycles[i].cr.eventsReader);
    forall i | 0 <= i < |cycles|
      ensures present[i + 1] <==> present[i] && chosen[i]
    {
      CycleOf(cycles, states, i);
      AccountAfter(cycles[i], states[i], states[i + 1]);
    }
    Outlives(present, chosen);
    assert forall i | 0 <= i < |cycles| :: chosen[i] == cycles[i].cr.eventsReader;
  }

  lemma AccountAfter(c: Cycle, was: Objects, now: Objects)
    requires c.Leads(was, now) && c.quiet
    ensures EventsReaderAccount() in now <==> EventsReaderAccount() in was && c.cr.eventsReader
  {
    if c.cr.eventsReader {
      KeysArePartitioned(EventsReader, c.cr, EventsReaderAccount());
      assert !Touches(ALL, c.cr, EventsReaderAccount());
    } else {
      SwitchedOffIsGone(EventsReader, c.cr, c.local, c.manifest, was, now);
    }
  }

  lemma {:induction false} Outlives(present: seq<bool>, chosen: seq<bool>)
    requires |present| == |chosen| + 1
    requires forall i | 0 <= i < |chosen| :: present[i + 1] <==> present[i] && chosen[i]
    ensures present[|chosen|] <==> present[0] && forall i | 0 <= i < |chosen| :: chosen[i]
  {
    var n := |chosen|;
    if n > 0 {
      Outlives(present[..n], chosen[..n - 1]);
      assert present[n] <==> present[n - 1] && chosen[n - 1];
    }
  }

  /** And they are as the builders of the last cycle want them, pod spec and configuration
      included, whatever the earlier cycles wrote; the fields the operator does not own are as the
      cycle found them. */
  lemma ObjectsCarryManifest(cycles: seq<Cycle>, states: seq<Objects>, x: Collector, k: Key)
    requires EndsCleanFor(cycles, states, x) && k in Install(x, cycles[|cycles| - 1].cr)
    ensures var n := |cycles|; var was, now, desired := states[n - 1], states[n], cycles[n - 1].manifest(k);
            && k in now && Carries(k.kind, desired, now[k].obj)
            && (k in was && !k.kind.Secret? && !k.kind.ConfigMap? ==> Keeps(k.kind, was[k].obj, desired, now[k].obj))
  {
    var n := |cycles|;
    var c, was, now := cycles[n - 1], states[n - 1], states[n];
    CycleOf(cycles, states, n - 1);
    OutcomeOf(x, c.quiet, c.cr, c.local, c.manifest, was, now);
    AppliedCarries(k.kind, Lookup(was, k), c.manifest(k), now[k].obj);
  }

  /** Hence two operators whose last cycles are clean for a collector and agree on whether it is
      chosen manage the same objects for it, whatever each went through. */
  lemma SameSpecSameObjects(cycles: seq<Cycle>, states: seq<Objects>, cycles': seq<Cycle>, states': seq<Objects>, x: Collector, k: Key)
    requires EndsCleanFor(cycles, states, x) && EndsCleanFor(cycles', states', x)
    requires Chosen(x, cycles[|cycles| - 1].cr) == Chosen(x, cycles'[|cycles'| - 1].cr)
    requires k in Managed(x) && k != EventsReaderAccount()
    ensures k in states[|cycles|] <==> k in states'[|cycles'|]
  {
    ObjectsFollowSpec(cycles, states, x, k);
    ObjectsFollowSpec(cycles', states', x, k);
  }

  /** Plain Fluent Bit and the forwarder/aggregator pair never coexist after a cycle without
      failed calls, not even if one of them could not be installed; each that works is there
      exactly if the spec chooses it. */
  lemma NeverBothModes(c: Cycle, was: Objects, now: Objects)
    requires c.Leads(was, now) && c.quiet
    ensures !BothModes(now)
    ensures c.CleanFor(PlainFluentBit) ==> (c.cr.PlainFluentbit() <==> Key(DaemonSet, FluentbitName) in now)
    ensures c.CleanFor(ForwarderAggregator) ==> (c.cr.HighAvailability() <==> Key(StatefulSet, AggregatorName) in now)
  {
    ModesExclude(c.cr, c.local, c.manifest, was, now);
    var plain, aggregator := Key(DaemonSet, FluentbitName), Key(StatefulSet, AggregatorName);
    assert plain in Managed(PlainFluentBit) && aggregator in Managed(ForwarderAggregator);
    if c.CleanFor(PlainFluentBit) {
      LastCycleDecides(c, PlainFluentBit, was, now, plain);
    }
    if c.CleanFor(ForwarderAggregator) {
      LastCycleDecides(c, ForwarderAggregator, was, now, aggregator);
    }
  }

  /** Repeating a cycle changes nothing of a collector it is clean for. */
  lemma RepeatChangesNothing(c: Cycle, x: Collector, was: Objects, once: Objects, twice: Objects, k: Key)
    requires c.Leads(was, once) && c.Leads(once, twice) && c.CleanFor(x) && Owner(k) == Some(x)
    ensures Lookup(twice, k) == Lookup(once, k)
  {
    OutcomeOf(x, true, c.cr, c.local, c.manifest, was, once);
    OutcomeOf(x, true, c.cr, c.local, c.manifest, once, twice);
    if k in Install(x, c.cr) {
      AppliedIsIdempotent(k.kind, Lookup(was, k), c.manifest(k), once[k].obj);
    } else if k !in Remove(x, c.cr) {
      assert !Touches(ALL, c.cr, k);
    }
  }

  /** And a cycle that is clean for all of them, repeated, changes no object at all. */
  lemma CleanRepeatChangesNothing(c: Cycle, was: Objects, once: Objects, twice: Objects, k: Key)
    requires c.Leads(was, once) && c.Leads(once, twice) && c.Clean()
    ensures Lookup(twice, k) == Lookup(once, k)
  {
    if Owner(k).Some? {
      RepeatChangesNothing(c, Owner(k).value, was, once, twice, k);
    } else {
      assert !Touches(ALL, c.cr, k);
    }
  }

  // ------------------------------------------------------------------ cycles as attempts

  /** A cycle's attempt; one that leaves Graylog alone is an attempt that did nothing. */
  function AttemptOf(plan: P.Plan, cr: LoggingService): RestartSafety.Run {
    RestartSafety.Run(plan,
      if cr.graylog.None? || cr.graylog.value.contentDeployPolicy == "skip" then P.OnlyCreate
      else PolicyOf(cr.graylog.value.contentDeployPolicy))
  }

  lemma CycleIsAttempt(plan: P.Plan, cr: LoggingService, ok: bool, was: GraylogServer.Store, now: GraylogServer.Store)
    requires GraylogTables.Agree(plan.tables) && Provisioned(plan, cr, ok, was, now)
    ensures P.RunEvolves(plan, AttemptOf(plan, cr).policy, was, now)
  {
    P.IdleRunEvolves(plan, P.OnlyCreate, was);
  }

  /** The cycles of one operator, each with the plan its own resource asks for and whether or not
      it succeeds: `stores[i + 1]` is what cycle `i` left on the Graylog server. */
  ghost predicate ProvisionedBy(t: GraylogTables.Tables, plans: seq<P.Plan>, crs: seq<LoggingService>, oks: seq<bool>, stores: seq<GraylogServer.Store>) {
    && GraylogTables.Agree(t) && |stores| == |crs| + 1 && |oks| == |plans| == |crs|
    && forall i | 0 <= i < |crs| :: plans[i].tables == t && Provisioned(plans[i], crs[i], oks[i], stores[i], stores[i + 1])
  }

  function AttemptsOf(plans: seq<P.Plan>, crs: seq<LoggingService>): seq<RestartSafety.Run>
    requires |plans| == |crs|
  {
    seq(|crs|, i requires 0 <= i < |crs| => AttemptOf(plans[i], crs[i]))
  }

  /** Such cycles are a history of attempts, so what `RestartSafety` proves of attempts holds of
      them. */
  lemma CyclesAreAttempts(t: GraylogTables.Tables, plans: seq<P.Plan>, crs: seq<LoggingService>, oks: seq<bool>, stores: seq<GraylogServer.Store>)
    requires ProvisionedBy(t, plans, crs, oks, stores)
    ensures RestartSafety.Attempts(t, AttemptsOf(plans, crs), stores)
  {
    var runs := AttemptsOf(plans, crs);
    forall i | 0 <= i < |crs|
      ensures runs[i].plan.tables == t && P.RunEvolves(runs[i].plan, runs[i].policy, stores[i], stores[i + 1])
    {
      CycleIsAttempt(plans[i], crs[i], oks[i], stores[i], stores[i + 1]);
    }
  }

  // ------------------------------------------------------------------ what the policy's text means

  /** "only-create" keeps what is there: over any history of cycles whose resources say
      "only-create" or "skip", or ask for no Graylog, no entity that was there before changes,
      the default index set excepted. */
  lemma OnlyCreateText(t: GraylogTables.Tables, plans: seq<P.Plan>, crs: seq<LoggingService>, oks: seq<bool>, stores: seq<GraylogServer.Store>,
                       c: GraylogServer.Collection, id: GraylogServer.Id)
    requires ProvisionedBy(t, plans, crs, oks, stores)
    requires forall i | 0 <= i < |crs| :: crs[i].graylog.None? || crs[i].graylog.value.contentDeployPolicy in {"only-create", "skip"}
    requires id in stores[0].Get(c)
    requires !(c.IndexSets? && stores[0].indexSets[id].title == t.defaultIndexSet)
    ensures id in stores[|crs|].Get(c) && stores[|crs|].Get(c)[id] == stores[0].Get(c)[id]
  {
    CyclesAreAttempts(t, plans, crs, oks, stores);
    RestartSafety.OnlyCreateKeepsBodies(t, AttemptsOf(plans, crs), stores, c, id);
  }

  /** "force-update" overwrites it: if titles were unique, a successful cycle leaves every entity
      of a wanted title freshly rendered. */
  lemma ForceUpdateText(plan: P.Plan, cr: LoggingService, was: GraylogServer.Store, now: GraylogServer.Store,
                        c: GraylogServer.Collection, id: GraylogServer.Id)
    requires GraylogTables.Agree(plan.tables) && Provisioned(plan, cr, true, was, now)
    requires cr.graylog.Some? && cr.graylog.value.contentDeployPolicy == "force-update"
    requires RestartSafety.UniqueTitles(was.Get(c))
    requires id in now.Get(c) && now.Get(c)[id].title in P.Targets(plan, c)
    ensures P.GoodEntry(plan, c, now.Get(c)[id], P.Refs(c, now))
  {
    RestartSafety.ForceUpdateRendersAll(plan, was, now, c);
  }

  /** Either text provides, on success, the stream, the index set and the rule of every stream the
      resource enables. */
  lemma DocumentedTextProvides(plan: P.Plan, cr: LoggingService, was: GraylogServer.Store, now: GraylogServer.Store, s: string)
    requires GraylogTables.Agree(plan.tables) && Provisioned(plan, cr, true, was, now)
    requires cr.graylog.Some? && cr.graylog.value.contentDeployPolicy in {"only-create", "force-update"}
    requires s in plan.enabled && s in plan.tables.indexTitles && s in plan.tables.streamRules
    ensures P.HasTitle(now.streams, s)
    ensures P.HasTitle(now.indexSets, plan.tables.indexTitles[s])
    ensures P.HasTitle(now.rules, plan.tables.streamRules[s])
  {
    RestartSafety.EnabledStreamProvided(plan, PolicyOf(cr.graylog.value.contentDeployPolicy), was, now, s);
  }

  /** Under "skip" and without Graylog nothing changes; under any text but the three, no stream and
      no rule, whether or not the cycle succeeds. */
  lemma UndocumentedText(plan: P.Plan, cr: LoggingService, ok: bool, was: GraylogServer.Store, now: GraylogServer.Store)
    requires GraylogTables.Agree(plan.tables) && Provisioned(plan, cr, ok, was, now)
    ensures cr.graylog.None? || cr.graylog.value.contentDeployPolicy == "skip" ==> now == was
    ensures cr.graylog.Some? && cr.graylog.value.contentDeployPolicy !in {"only-create", "force-update"} ==>
              now.streams == was.streams && now.rules == was.rules
  {
  }
}
