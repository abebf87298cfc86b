/** The four collectors a cycle installs or removes, each on its own: what one of them does to the
    managed objects does not depend on what becomes of the others. */
module Collectors {
  import opened Wrappers
  import opened LoggingServiceTypes
  import opened ApiServer
  import opened Reconcilers
  import opened Components

  datatype Collector = FluentD | PlainFluentBit | ForwarderAggregator | EventsReader

  /** The spec asks for it. */
  predicate Chosen(x: Collector, cr: LoggingService) {
    match x
    case FluentD => cr.fluentd.Some?
    case PlainFluentBit => cr.PlainFluentbit()
    case ForwarderAggregator => cr.HighAvailability()
    case EventsReader => cr.eventsReader
  }

  function KeysOf(x: Collector): set<Key> {
    match x
    case FluentD => FluentdKeys()
    case PlainFluentBit => PlainKeys()
    case ForwarderAggregator => ForwarderAggregatorKeys()
    case EventsReader => EventsReaderKeys()
  }

  /** What a cycle deletes in any case: the ConfigMap of older releases. */
  function LegacyOf(x: Collector): set<Key> {
    match x
    case FluentD => {Legacy(FluentdName)}
    case PlainFluentBit => {Legacy(FluentbitName)}
    case ForwarderAggregator => {Legacy(AggregatorName)}
    case EventsReader => {}
  }

  function Install(x: Collector, cr: LoggingService): set<Key> {
    if Chosen(x, cr) then KeysOf(x) else {}
  }

  /** What a cycle deletes. The service account of the events reader is deleted with it but
      never created. */
  function Remove(x: Collector, cr: LoggingService): set<Key> {
    if Chosen(x, cr) then LegacyOf(x)
    else if x.EventsReader? then EventsReaderKeys() + {EventsReaderAccount()}
    else KeysOf(x) + LegacyOf(x)
  }

  /** The object its installation comes to last. */
  function LastOf(x: Collector): Key {
    match x
    case FluentD => Key(Service, FluentdName)
    case PlainFluentBit => Key(Service, FluentbitName)
    case ForwarderAggregator => Key(Service, ForwarderName)
    case EventsReader => Key(Service, EventsReaderName)
  }

  /** Apart from failing calls, the only things that keep a collector from being installed.
      Neither Graylog, nor another collector, nor a component that is slow to start is among
      them. Removing a collector always works. */
  predicate WorksFor(x: Collector, cr: LoggingService, local: LocalWork) {
    Chosen(x, cr) ==>
      match x
      case FluentD => local.DaemonSetWorks(FluentdName)
      case PlainFluentBit => local.DaemonSetWorks(FluentbitName)
      case ForwarderAggregator => !cr.AggregatorMisconfigured() && local.AggregatorWorks() && local.DaemonSetWorks(ForwarderName)
      case EventsReader => local.EventsReaderWorks()
  }

  predicate Works(cr: LoggingService, local: LocalWork) {
    forall x: Collector :: WorksFor(x, cr, local)
  }

  // ------------------------------------------------------------------ effects

  /** Its objects are as the spec asks. */
  ghost predicate Done(x: Collector, cr: LoggingService, manifest: Key -> Obj, was: Objects, now: Objects) {
    && (forall k | k in Remove(x, cr) :: k !in now)
    && (forall k | k in Install(x, cr) :: k in now && Applied(k.kind, Lookup(was, k), manifest(k), now[k].obj))
  }

  /** What becomes of a collector without failing calls: it is done if it works, and otherwise
      its last object is not touched. */
  ghost predicate Outcome(x: Collector, quiet: bool, cr: LoggingService, local: LocalWork, manifest: Key -> Obj, was: Objects, now: Objects) {
    quiet ==> if WorksFor(x, cr, local) then Done(x, cr, manifest, was, now) else SameAt(was, now, LastOf(x))
  }

  function Owner(k: Key): Option<Collector> {
    match k.name
    case FluentdName => Some(FluentD)
    case FluentbitName => Some(PlainFluentBit)
    case ForwarderName => Some(ForwarderAggregator)
    case AggregatorName => Some(ForwarderAggregator)
    case EventsReaderName => Some(EventsReader)
    case OtherName(_) => None
  }

  lemma OwnerOfKeys(x: Collector, cr: LoggingService, k: Key)
    requires k in Install(x, cr) + Remove(x, cr) || k == LastOf(x)
    ensures Owner(k) == Some(x)
  {
  }

  /** A step may touch this object on behalf of one of the collectors. */
  predicate Touches(xs: set<Collector>, cr: LoggingService, k: Key) {
    Owner(k).Some? && Owner(k).value in xs && k in Install(Owner(k).value, cr) + Remove(Owner(k).value, cr)
  }

  /** A part of a cycle that dealt with the collectors `xs`, the operator being the only writer. */
  ghost predicate Part(xs: set<Collector>, quiet: bool, cr: LoggingService, local: LocalWork, manifest: Key -> Obj, was: Objects, now: Objects) {
    && (forall k | !Touches(xs, cr, k) :: SameAt(was, now, k))
    && (forall x | x in xs :: Outcome(x, quiet, cr, local, manifest, was, now))
  }

  lemma OnePart(x: Collector, quiet: bool, ok: bool, cr: LoggingService, local: LocalWork, manifest: Key -> Obj, was: Objects, now: Objects)
    requires ClusterStep(quiet && ok, Install(x, cr), Remove(x, cr), manifest, was, now)
    requires quiet ==> (ok <==> WorksFor(x, cr, local))
    requires quiet && !ok ==> SameAt(was, now, LastOf(x))
    ensures Part({x}, quiet, cr, local, manifest, was, now)
  {
    forall k | !Touches({x}, cr, k)
      ensures SameAt(was, now, k)
    {
      if k in Install(x, cr) + Remove(x, cr) {
        OwnerOfKeys(x, cr, k);
      }
    }
  }

  /** An outcome looks only at objects of its collector, so it survives what is done for others. */
  lemma OutcomeFramed(x: Collector, quiet: bool, cr: LoggingService, local: LocalWork, manifest: Key -> Obj,
                      before: Objects, was: Objects, now: Objects, after: Objects)
    requires Outcome(x, quiet, cr, local, manifest, was, now)
    requires forall k | Owner(k) == Some(x) :: SameAt(before, was, k) && SameAt(now, after, k)
    ensures Outcome(x, quiet, cr, local, manifest, before, after)
  {
    OwnerOfKeys(x, cr, LastOf(x));
    forall k | k in Install(x, cr)
      ensures SameAt(before, was, k) && SameAt(now, after, k)
    {
      OwnerOfKeys(x, cr, k);
    }
    forall k | k in Remove(x, cr)
      ensures SameAt(now, after, k)
    {
      OwnerOfKeys(x, cr, k);
    }
  }

  lemma PartsCompose(xs: set<Collector>, quiet: bool, ys: set<Collector>, quiet': bool, cr: LoggingService, local: LocalWork, manifest: Key -> Obj,
                     was: Objects, mid: Objects, now: Objects)
    requires Part(xs, quiet, cr, local, manifest, was, mid) && Part(ys, quiet', cr, local, manifest, mid, now) && xs !! ys
    ensures Part(xs + ys, quiet && quiet', cr, local, manifest, was, now)
  {
    forall k | !Touches(xs + ys, cr, k)
      ensures SameAt(was, now, k)
    {
      assert !Touches(xs, cr, k) && !Touches(ys, cr, k);
    }
    forall x | x in xs
      ensures Outcome(x, quiet && quiet', cr, local, manifest, was, now)
    {
      assert forall k | Owner(k) == Some(x) :: !Touches(ys, cr, k);
      OutcomeFramed(x, quiet && quiet', cr, local, manifest, was, was, mid, now);
    }
    forall y | y in ys
      ensures Outcome(y, quiet && quiet', cr, local, manifest, was, now)
    {
      assert forall k | Owner(k) == Some(y) :: !Touches(xs, cr, k);
      OutcomeFramed(y, quiet && quiet', cr, local, manifest, was, mid, now, now);
    }
  }

  const ALL: set<Collector> := {FluentD, PlainFluentBit, ForwarderAggregator, EventsReader}

  /** What a cycle does to the managed objects when the operator is their only writer. `quiet`:
      no call on them failed. Every collector has its own outcome. */
  ghost predicate CycleEffect(quiet: bool, cr: LoggingService, local: LocalWork, manifest: Key -> Obj, was: Objects, now: Objects) {
    Part(ALL, quiet, cr, local, manifest, was, now)
  }

  /** The two halves of a cycle. */
  lemma HalvesAreCycle(quiet: bool, quiet': bool, cr: LoggingService, local: LocalWork, manifest: Key -> Obj, was: Objects, mid: Objects, now: Objects)
    requires Part({FluentD, PlainFluentBit}, quiet, cr, local, manifest, was, mid)
    requires Part({ForwarderAggregator, EventsReader}, quiet', cr, local, manifest, mid, now)
    ensures CycleEffect(quiet && quiet', cr, local, manifest, was, now)
  {
    PartsCompose({FluentD, PlainFluentBit}, quiet, {ForwarderAggregator, EventsReader}, quiet', cr, local, manifest, was, mid, now);
    assert {FluentD, PlainFluentBit} + {ForwarderAggregator, EventsReader} == ALL;
  }

  lemma WorksIff(cr: LoggingService, local: LocalWork)
    ensures Works(cr, local) <==>
            WorksFor(FluentD, cr, local) && WorksFor(PlainFluentBit, cr, local)
            && WorksFor(ForwarderAggregator, cr, local) && WorksFor(EventsReader, cr, local)
  {
  }

  lemma OutcomeOf(x: Collector, quiet: bool, cr: LoggingService, local: LocalWork, manifest: Key -> Obj, was: Objects, now: Objects)
    requires CycleEffect(quiet, cr, local, manifest, was, now)
    ensures Outcome(x, quiet, cr, local, manifest, was, now)
  {
    assert x in ALL;
  }

  /** Both collector modes at once. */
  ghost predicate BothModes(objects: Objects) {
    Key(DaemonSet, FluentbitName) in objects &&
    (Key(DaemonSet, ForwarderName) in objects || Key(StatefulSet, AggregatorName) in objects)
  }

  /** A collector that is not chosen cannot fail, so without failing calls it is gone, even if the
      other mode could not be installed. */
  lemma SwitchedOffIsGone(x: Collector, cr: LoggingService, local: LocalWork, manifest: Key -> Obj, was: Objects, now: Objects)
    requires CycleEffect(true, cr, local, manifest, was, now) && !Chosen(x, cr)
    ensures forall k | k in KeysOf(x) + LegacyOf(x) :: k !in now
    ensures x.EventsReader? ==> EventsReaderAccount() !in now
  {
    OutcomeOf(x, true, cr, local, manifest, was, now);
    assert forall k | k in KeysOf(x) + LegacyOf(x) :: k in Remove(x, cr);
  }

  lemma ModesExclude(cr: LoggingService, local: LocalWork, manifest: Key -> Obj, was: Objects, now: Objects)
    requires CycleEffect(true, cr, local, manifest, was, now)
    ensures !BothModes(now)
  {
    if !Chosen(PlainFluentBit, cr) {
      SwitchedOffIsGone(PlainFluentBit, cr, local, manifest, was, now);
      assert Key(DaemonSet, FluentbitName) in PlainKeys();
    } else {
      SwitchedOffIsGone(ForwarderAggregator, cr, local, manifest, was, now);
      assert Key(DaemonSet, ForwarderName) in ForwarderAggregatorKeys() && Key(StatefulSet, AggregatorName) in ForwarderAggregatorKeys();
    }
  }

  /** Without failing calls, a chosen collector is complete exactly if it works, provided it was
      not already installed: if it does not work its last object is still missing. */
  lemma CompleteIffWorks(x: Collector, cr: LoggingService, local: LocalWork, manifest: Key -> Obj, was: Objects, now: Objects)
    requires CycleEffect(true, cr, local, manifest, was, now) && Chosen(x, cr) && LastOf(x) !in was
    ensures (forall k | k in KeysOf(x) :: k in now) <==> WorksFor(x, cr, local)
  {
    OutcomeOf(x, true, cr, local, manifest, was, now);
    assert LastOf(x) in KeysOf(x);
  }

  // ------------------------------------------------------------------ in the resource's own fields

  /** From any state, a cycle without failing calls in which FluentD's configuration renders and
      its objects can be built: its Secret, DaemonSet and Service are there exactly if the spec has
      FluentD, and the ConfigMap of older releases is gone. */
  lemma FluentdObjects(cr: LoggingService, local: LocalWork, manifest: Key -> Obj, was: Objects, now: Objects, kind: Kind)
    requires CycleEffect(true, cr, local, manifest, was, now)
    requires cr.fluentd.Some? ==>
               local.rendered(FluentdName) && local.built(Key(DaemonSet, FluentdName)) && local.built(Key(Service, FluentdName))
    ensures kind.Secret? || kind.DaemonSet? || kind.Service? ==> (Key(kind, FluentdName) in now <==> cr.fluentd.Some?)
    ensures Key(ConfigMap, FluentdName) !in now
  {
    OutcomeOf(FluentD, true, cr, local, manifest, was, now);
    assert Key(ConfigMap, FluentdName) in Remove(FluentD, cr);
    if kind.Secret? || kind.DaemonSet? || kind.Service? {
      assert Key(kind, FluentdName) in if cr.fluentd.Some? then Install(FluentD, cr) else Remove(FluentD, cr);
    }
  }

  /** The same for plain Fluent Bit, which the spec asks for by Fluent Bit without an aggregator
      to install. */
  lemma FluentbitObjects(cr: LoggingService, local: LocalWork, manifest: Key -> Obj, was: Objects, now: Objects, kind: Kind)
    requires CycleEffect(true, cr, local, manifest, was, now)
    requires cr.fluentbit.Some? && (cr.fluentbit.value.aggregator.None? || !cr.fluentbit.value.aggregator.value.install) ==>
               local.rendered(FluentbitName) && local.built(Key(DaemonSet, FluentbitName)) && local.built(Key(Service, FluentbitName))
    ensures kind.Secret? || kind.DaemonSet? || kind.Service? ==>
              (Key(kind, FluentbitName) in now <==>
               cr.fluentbit.Some? && (cr.fluentbit.value.aggregator.None? || !cr.fluentbit.value.aggregator.value.install))
    ensures Key(ConfigMap, FluentbitName) !in now
  {
    OutcomeOf(PlainFluentBit, true, cr, local, manifest, was, now);
    assert Key(ConfigMap, FluentbitName) in Remove(PlainFluentBit, cr);
    if kind.Secret? || kind.DaemonSet? || kind.Service? {
      assert Key(kind, FluentbitName) in if cr.PlainFluentbit() then Install(PlainFluentBit, cr) else Remove(PlainFluentBit, cr);
    }
  }

  /** The objects of forwarder and aggregator, by kind. */
  predicate IsAggregatorObject(k: Key) {
    || (k.name.AggregatorName? && (k.kind.Secret? || k.kind.StatefulSet? || k.kind.Service?))
    || (k.name.ForwarderName? && (k.kind.ConfigMap? || k.kind.DaemonSet? || k.kind.Service?))
  }

  /** Forwarder and aggregator, with an output to Graylog that has host and port, and an
      aggregator that starts: all six objects are there exactly if the spec installs the
      aggregator. */
  lemma AggregatorObjects(cr: LoggingService, local: LocalWork, manifest: Key -> Obj, was: Objects, now: Objects, k: Key)
    requires CycleEffect(true, cr, local, manifest, was, now) && IsAggregatorObject(k)
    requires forall a | cr.fluentbit.Some? && cr.fluentbit.value.aggregator == Some(a) && a.install ::
               && (a.graylogOutput ==> a.graylogHost != "" && a.graylogPort != 0)
               && local.rendered(AggregatorName) && local.built(Key(StatefulSet, AggregatorName)) && local.aggregator.Ready?
               && local.built(Key(Service, AggregatorName)) && local.rendered(ForwarderName)
               && local.built(Key(DaemonSet, ForwarderName)) && local.built(Key(Service, ForwarderName))
    ensures k in now <==> cr.fluentbit.Some? && cr.fluentbit.value.aggregator.Some? && cr.fluentbit.value.aggregator.value.install
    ensures Key(ConfigMap, AggregatorName) !in now
  {
    OutcomeOf(ForwarderAggregator, true, cr, local, manifest, was, now);
    assert Key(ConfigMap, AggregatorName) in Remove(ForwarderAggregator, cr);
    assert k in if cr.HighAvailability() then Install(ForwarderAggregator, cr) else Remove(ForwarderAggregator, cr);
  }

  /** Without host or port for its Graylog output, or if the aggregator does not start, the
      forwarder's Service is left as it was. */
  lemma AggregatorStops(cr: LoggingService, local: LocalWork, manifest: Key -> Obj, was: Objects, now: Objects, a: AggregatorSpec)
    requires CycleEffect(true, cr, local, manifest, was, now)
    requires cr.fluentbit.Some? && cr.fluentbit.value.aggregator == Some(a) && a.install
    requires (a.graylogOutput && (a.graylogHost == "" || a.graylogPort == 0)) || !local.aggregator.Ready?
    ensures SameAt(was, now, Key(Service, ForwarderName))
  {
    OutcomeOf(ForwarderAggregator, true, cr, local, manifest, was, now);
  }

  /** The events reader's Deployment and Service. */
  lemma EventsReaderObjects(cr: LoggingService, local: LocalWork, manifest: Key -> Obj, was: Objects, now: Objects, kind: Kind)
    requires CycleEffect(true, cr, local, manifest, was, now) && (kind.Deployment? || kind.Service?)
    requires cr.eventsReader ==> local.built(Key(Deployment, EventsReaderName)) && local.built(Key(Service, EventsReaderName))
    ensures Key(kind, EventsReaderName) in now <==> cr.eventsReader
  {
    OutcomeOf(EventsReader, true, cr, local, manifest, was, now);
    var k := Key(kind, EventsReaderName);
    assert k in EventsReaderKeys();
    assert k in if cr.eventsReader then Install(EventsReader, cr) else Remove(EventsReader, cr);
  }

  /** Its service account goes with them, and is not touched while it is chosen. */
  lemma EventsReaderAccountGoes(cr: LoggingService, local: LocalWork, manifest: Key -> Obj, was: Objects, now: Objects)
    requires CycleEffect(true, cr, local, manifest, was, now)
    ensures !cr.eventsReader ==> Key(ServiceAccount, EventsReaderName) !in now
    ensures cr.eventsReader ==> SameAt(was, now, Key(ServiceAccount, EventsReaderName))
  {
    if cr.eventsReader {
      assert !Touches(ALL, cr, Key(ServiceAccount, EventsReaderName));
    } else {
      SwitchedOffIsGone(EventsReader, cr, local, manifest, was, now);
    }
  }
}
