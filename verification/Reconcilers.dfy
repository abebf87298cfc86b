/** Create-or-update of API objects (internal/reconcilers and internal/utils/config_secret.go). */
module Reconcilers {
  import opened Wrappers
  import opened ApiServer

  /** Desired labels win; labels the operator does not know stay. */
  function MergeLabels(existing: Labels, desired: Labels): Labels {
    existing + desired
  }

  /** The update rule of each kind: only the fields the operator owns change. */
  function Mutate(kind: Kind, existing: Obj, desired: Obj): Obj {
    match kind
    case DaemonSet => existing.(
      labels := MergeLabels(existing.labels, desired.labels),
      templateLabels := desired.templateLabels, podSpec := desired.podSpec)
    case Deployment => existing.(
      labels := MergeLabels(existing.labels, desired.labels), selector := desired.selector,
      templateLabels := desired.templateLabels, podSpec := desired.podSpec)
    case StatefulSet => existing.(
      labels := MergeLabels(existing.labels, desired.labels), replicas := desired.replicas,
      templateLabels := desired.templateLabels, podSpec := desired.podSpec)
    case Service => existing.(labels := desired.labels, ports := desired.ports, selector := desired.selector)
    case ServiceAccount => existing.(labels := desired.labels)
    case Secret => if EqualConfig(existing, desired) then existing else desired
    case ConfigMap => if EqualConfig(existing, desired) then existing else desired
  }

  /** Same rendered configuration and same labels. */
  predicate EqualConfig(a: Obj, b: Obj) {
    a.data == b.data && a.labels == b.labels
  }

  // ------------------------------------------------------------------ field by field

  /** Every label that `desired` sets has its value. */
  ghost predicate HasLabels(desired: Labels, labels: Labels) {
    forall key | key in desired :: key in labels && labels[key] == desired[key]
  }

  /** And all other labels are those that were there. */
  ghost predicate KeepsLabels(was: Labels, desired: Labels, labels: Labels) {
    && (forall key | key in labels && key !in desired :: key in was && labels[key] == was[key])
    && (forall key | key in was :: key in labels)
  }

  /** The object is as the operator asks, in every field the operator owns. */
  ghost predicate Carries(kind: Kind, desired: Obj, obj: Obj) {
    && (kind.DaemonSet? || kind.Deployment? || kind.StatefulSet? ==>
          obj.podSpec == desired.podSpec && obj.templateLabels == desired.templateLabels && HasLabels(desired.labels, obj.labels))
    && (kind.Deployment? || kind.Service? ==> obj.selector == desired.selector)
    && (kind.StatefulSet? ==> obj.replicas == desired.replicas)
    && (kind.Service? ==> obj.ports == desired.ports)
    && (kind.Service? || kind.ServiceAccount? || kind.Secret? || kind.ConfigMap? ==> obj.labels == desired.labels)
    && (kind.Secret? || kind.ConfigMap? ==> obj.data == desired.data)
  }

  /** Every field the operator does not own is as it was. */
  ghost predicate Keeps(kind: Kind, was: Obj, desired: Obj, obj: Obj) {
    && obj.annotations == was.annotations && obj.templateAnnotations == was.templateAnnotations && obj.clusterIP == was.clusterIP
    && obj.data == was.data
    && (kind.DaemonSet? || kind.Deployment? || kind.StatefulSet? ==> KeepsLabels(was.labels, desired.labels, obj.labels))
    && (!kind.Deployment? && !kind.Service? ==> obj.selector == was.selector)
    && (!kind.StatefulSet? ==> obj.replicas == was.replicas)
    && (!kind.Service? ==> obj.ports == was.ports)
    && (kind.Service? || kind.ServiceAccount? ==> obj.podSpec == was.podSpec && obj.templateLabels == was.templateLabels)
  }

  lemma LabelsIff(was: Labels, desired: Labels, labels: Labels)
    ensures labels == MergeLabels(was, desired) <==> HasLabels(desired, labels) && KeepsLabels(was, desired, labels)
  {
    var merged := MergeLabels(was, desired);
    if HasLabels(desired, labels) && KeepsLabels(was, desired, labels) {
      assert forall key :: key in labels <==> key in merged;
      assert forall key | key in labels :: labels[key] == merged[key];
    }
  }

  /** An update does both, and nothing else does. */
  lemma MutateIff(kind: Kind, was: Obj, desired: Obj, obj: Obj)
    requires !kind.Secret? && !kind.ConfigMap?
    ensures obj == Mutate(kind, was, desired) <==> Carries(kind, desired, obj) && Keeps(kind, was, desired, obj)
  {
    LabelsIff(was.labels, desired.labels, obj.labels);
    var Obj(labels, annotations, selector, replicas, templateLabels, templateAnnotations, podSpec, ports, clusterIP, data) := obj;
    match kind {
      case DaemonSet =>
      case Deployment =>
      case StatefulSet =>
      case Service =>
      case ServiceAccount =>
    }
  }

  /** A rendered configuration replaces the whole object, unless data and labels are those asked
      for already. */
  lemma ConfigMutateIff(kind: Kind, was: Obj, desired: Obj, obj: Obj)
    requires kind.Secret? || kind.ConfigMap?
    ensures obj == Mutate(kind, was, desired) <==>
            obj == if was.data == desired.data && was.labels == desired.labels then was else desired
    ensures obj == Mutate(kind, was, desired) ==> Carries(kind, desired, obj)
  {
  }

  lemma AppliedCarries(kind: Kind, before: Option<Obj>, desired: Obj, after: Obj)
    requires Applied(kind, before, desired, after)
    ensures Carries(kind, desired, after)
    ensures before.Some? && !kind.Secret? && !kind.ConfigMap? ==> Keeps(kind, before.value, desired, after)
  {
    if before.Some? {
      if kind.Secret? || kind.ConfigMap? {
        ConfigMutateIff(kind, before.value, desired, after);
      } else {
        MutateIff(kind, before.value, desired, after);
      }
    }
  }

  /** What one successful create-or-update leaves, given what was stored before. */
  ghost predicate Applied(kind: Kind, before: Option<Obj>, desired: Obj, after: Obj) {
    match before
    case None => Admitted(kind, desired, after)
    case Some(existing) => after == Mutate(kind, existing, desired)
  }

  function Lookup(objects: Objects, k: Key): Option<Obj> {
    if k in objects then Some(objects[k].obj) else None
  }

  /** The log since `from` ends with an update computed from what was read at `i`. */
  ghost predicate UpdatedFrom(from: nat, log: seq<Event>, i: nat, k: Key, desired: Obj) {
    && from <= i < |log| - 1
    && log[i].Read? && log[i].key == k
    && var w := log[|log| - 1]; w.Wrote? && w.key == k && w.after == Mutate(k.kind, log[i].stored.obj, desired)
  }

  /** And what it replaced is exactly what was read: nobody changed the object in between, so
      no other writer's change was lost. */
  ghost predicate NoLostUpdate(from: nat, log: seq<Event>, k: Key, desired: Obj) {
    exists i :: UpdatedFrom(from, log, i, k, desired) && Exclusive(log, i, k)
  }

  ghost predicate Exclusive(log: seq<Event>, i: nat, k: Key)
    requires i < |log| - 1
  {
    log[i].Read? && log[|log| - 1].Wrote? && log[|log| - 1].before == log[i].stored && Unchanged(log, i + 1, |log| - 1, k)
  }

  ghost predicate Conditional(log: seq<Event>, i: nat)
    requires i < |log| - 1
  {
    log[i].Read? && log[|log| - 1].Wrote? && log[|log| - 1].version == Some(log[i].stored.version)
  }

  /** An update on condition of the version read is exclusive, whoever else writes. */
  lemma ConditionalIsExclusive(start: State, from: nat, log: seq<Event>, i: nat, k: Key, desired: Obj)
    requires Bounded(start) && Legal(start, log) && UpdatedFrom(from, log, i, k, desired) && Conditional(log, i)
    ensures Exclusive(log, i, k) && NoLostUpdate(from, log, k, desired)
  {
    WriteReplacesReadIff(start, log, i, |log| - 1);
  }

  /** An unconditional update is exclusive exactly if nobody changed the object in between;
      otherwise it replaces an object it never saw. */
  lemma UnconditionalLosesIff(start: State, from: nat, log: seq<Event>, i: nat, k: Key, desired: Obj)
    requires Bounded(start) && Legal(start, log) && UpdatedFrom(from, log, i, k, desired)
    ensures Exclusive(log, i, k) <==> log[|log| - 1].before == log[i].stored
    ensures Exclusive(log, i, k) <==> Unchanged(log, i + 1, |log| - 1, k)
  {
    WriteReplacesReadIff(start, log, i, |log| - 1);
  }

  method CreateOrUpdate(c: Client, k: Key, desired: Obj) returns (err: Option<ApiError>)
    requires c.Valid() && !k.kind.Secret? && !k.kind.ConfigMap?
    modifies c
    ensures c.Valid() && c.failures >= old(c.failures) && old(c.log) <= c.log
    ensures err.None? ==> k in c.objects && Carries(k.kind, desired, c.objects[k].obj)
    ensures err.None? ==>
              || (Admitted(k.kind, desired, c.objects[k].obj) && Ends(|old(c.log)|, c.log, Created(k, c.objects[k].obj)))
              || (NoLostUpdate(|old(c.log)|, c.log, k, desired) && c.objects[k].obj == c.log[|c.log| - 1].after)
    ensures !c.contended ==> SameExcept(old(c.objects), c.objects, {k})
    ensures !c.contended && err.None? && c.failures == old(c.failures) ==>
              Applied(k.kind, Lookup(old(c.objects), k), desired, c.objects[k].obj)
    ensures !c.contended && err.Some? ==> c.failures > old(c.failures)
  {
    err := c.Create(k, desired);
    if err.None? {
      return;
    }
    if err.value.AlreadyExists? {
      ghost var log := c.log;
      err := UpdateExisting(c, k, desired);
      if err.None? {
        NoLostUpdateSince(|old(c.log)|, |log|, c.log, k, desired);
      }
    }
  }

  lemma NoLostUpdateSince(from: nat, later: nat, log: seq<Event>, k: Key, desired: Obj)
    requires from <= later && NoLostUpdate(later, log, k, desired)
    ensures NoLostUpdate(from, log, k, desired)
  {
    var i :| UpdatedFrom(later, log, i, k, desired) && Exclusive(log, i, k);
    assert UpdatedFrom(from, log, i, k, desired);
  }

  /** Reads the live object and writes it back with the operator's fields. */
  method UpdateExisting(c: Client, k: Key, desired: Obj) returns (err: Option<ApiError>)
    requires c.Valid() && !k.kind.Secret? && !k.kind.ConfigMap?
    modifies c
    ensures c.Valid() && c.failures >= old(c.failures) && old(c.log) <= c.log
    ensures err.None? ==> k in c.objects && Carries(k.kind, desired, c.objects[k].obj)
    ensures err.None? ==> NoLostUpdate(|old(c.log)|, c.log, k, desired) && c.objects[k].obj == c.log[|c.log| - 1].after
    ensures !c.contended ==> SameExcept(old(c.objects), c.objects, {k})
    ensures !c.contended && err.None? ==> k in old(c.objects) && c.objects[k].obj == Mutate(k.kind, old(c.objects)[k].obj, desired)
    ensures !c.contended && err.Some? && k in old(c.objects) ==> c.failures > old(c.failures)
  {
    var existing := c.Get(k);
    if existing.Err? {
      return Some(existing.error);
    }
    ghost var i := |c.log| - 1;
    var mutated := Mutate(k.kind, existing.value.obj, desired);
    err := c.Update(k, mutated, Some(existing.value.version));
    AppliedCarries(k.kind, Some(existing.value.obj), desired, mutated);
    if err.None? {
      ConditionalIsExclusive(c.start, |old(c.log)|, c.log, i, k, desired);
    }
  }

  /** Reports whether the Secret in the cluster changed. */
  method CreateOrUpdateConfigSecret(c: Client, k: Key, desired: Obj) returns (changed: bool, err: Option<ApiError>)
    requires c.Valid() && k.kind.Secret?
    modifies c
    ensures c.Valid() && c.failures >= old(c.failures) && old(c.log) <= c.log
    ensures err.None? ==> k in c.objects && c.objects[k].obj.data == desired.data && c.objects[k].obj.labels == desired.labels
    ensures err.None? ==>
              || (changed && Ends(|old(c.log)|, c.log, Created(k, desired)))
              || (changed && NoLostUpdate(|old(c.log)|, c.log, k, desired) && c.objects[k].obj == desired)
              || (!changed && Ends(|old(c.log)|, c.log, Read(k, c.objects[k])))
    ensures !c.contended ==> SameExcept(old(c.objects), c.objects, {k})
    ensures !c.contended && err.None? && c.failures == old(c.failures) ==>
              && Applied(k.kind, Lookup(old(c.objects), k), desired, c.objects[k].obj)
              && (changed <==> Lookup(old(c.objects), k) != Some(c.objects[k].obj))
    ensures !c.contended && err.Some? ==> c.failures > old(c.failures)
  {
    err := c.Create(k, desired);
    if err.None? {
      return true, None;
    }
    if !err.value.AlreadyExists? {
      return false, err;
    }
    var existing := c.Get(k);
    if existing.Err? {
      return false, Some(existing.error);
    }
    if EqualConfig(existing.value.obj, desired) {
      return false, None;
    }
    ghost var i := |c.log| - 1;
    err := c.Update(k, desired, Some(existing.value.version));
    changed := err.None?;
    if err.None? {
      ConditionalIsExclusive(c.start, |old(c.log)|, c.log, i, k, desired);
    }
  }

  /** A run of UpdateConfigMap that writes: what it writes never depends on the object it
      replaces, and the write is unconditional. */
  ghost predicate OverwroteConfigMap(from: nat, log: seq<Event>, i: nat, k: Key, desired: Obj) {
    && UpdatedFrom(from, log, i, k, desired) && log[|log| - 1].version.None?
    && !EqualConfig(log[i].stored.obj, desired) && log[|log| - 1].after == desired
  }

  /** The forwarder ConfigMap is written back without a version, so the write is unconditional. */
  method UpdateConfigMap(c: Client, k: Key, desired: Obj) returns (updated: bool, err: Option<ApiError>)
    requires c.Valid() && k.kind.ConfigMap?
    modifies c
    ensures c.Valid() && c.failures >= old(c.failures) && old(c.log) <= c.log
    ensures err.None? ==> k in c.objects && c.objects[k].obj.data == desired.data && c.objects[k].obj.labels == desired.labels
    ensures err.None? ==>
              || (updated && Ends(|old(c.log)|, c.log, Created(k, desired)))
              || (updated && exists i :: OverwroteConfigMap(|old(c.log)|, c.log, i, k, desired))
              || (!updated && Ends(|old(c.log)|, c.log, Read(k, c.objects[k])))
    ensures !c.contended ==> SameExcept(old(c.objects), c.objects, {k})
    ensures !c.contended && err.None? && c.failures == old(c.failures) ==>
              Applied(k.kind, Lookup(old(c.objects), k), desired, c.objects[k].obj)
    ensures !c.contended && err.Some? ==> c.failures > old(c.failures)
  {
    err := c.Create(k, desired);
    if err.None? {
      return true, None;
    }
    if !err.value.AlreadyExists? {
      return false, err;
    }
    var existing := c.Get(k);
    if existing.Err? {
      return false, Some(existing.error);
    }
    if EqualConfig(existing.value.obj, desired) {
      return false, None;
    }
    ghost var i := |c.log| - 1;
    err := c.Update(k, desired, None);
    updated := err.None?;
    if err.None? {
      assert OverwroteConfigMap(|old(c.log)|, c.log, i, k, desired);
    }
  }

  /** A run in which a change is lost: between the read and the write another writer stores
      `theirs`; the operator replaces it without having seen it, and it is gone. The same write
      on condition of the version read would have been refused. */
  lemma ConfigMapChangeCanBeLost(k: Key, was: Obj, theirs: Obj, desired: Obj)
    requires k.kind.ConfigMap? && !EqualConfig(was, desired)
    ensures var start := State(map[k := Stored(was, 0)], 1);
            var log := [Read(k, Stored(was, 0)), Other(k, Some(theirs)), Wrote(k, Stored(theirs, 1), desired, None)];
            && Bounded(start) && Legal(start, log) && OverwroteConfigMap(0, log, 0, k, desired)
            && !Exclusive(log, 0, k)
            && Replay(start, log).objects[k].obj == desired
            && !Enabled(Replay(start, log[..2]), Wrote(k, Stored(theirs, 1), desired, Some(0)))
  {
    var start := State(map[k := Stored(was, 0)], 1);
    var log := [Read(k, Stored(was, 0)), Other(k, Some(theirs)), Wrote(k, Stored(theirs, 1), desired, None)];
    var changed := State(map[k := Stored(theirs, 1)], 2);
    assert start.objects[k := Stored(theirs, 1)] == changed.objects;
    ThreeSteps(start, log[0], log[1], log[2]);
    assert log[..2] == [log[0], log[1]];
    assert Changes(log[1], k);
  }

  method DeleteIfExists(c: Client, k: Key) returns (err: Option<ApiError>)
    requires c.Valid()
    modifies c
    ensures c.Valid() && c.failures >= old(c.failures) && old(c.log) <= c.log
    ensures err.None? ==> k !in c.objects
    ensures !c.contended ==> SameExcept(old(c.objects), c.objects, {k}) && (k in c.objects ==> k in old(c.objects) && c.objects[k] == old(c.objects)[k])
    ensures !c.contended && err.Some? ==> c.failures > old(c.failures)
  {
    var existing := c.Get(k);
    if existing.Err? {
      return if existing.error.NotFound? then None else Some(existing.error);
    }
    err := c.Delete(k);
  }

  // ------------------------------------------------------------------ properties

  /** Applying the same desired object again changes nothing, whatever was there first. */
  lemma AppliedIsIdempotent(kind: Kind, before: Option<Obj>, desired: Obj, after: Obj)
    requires Applied(kind, before, desired, after)
    ensures Mutate(kind, after, desired) == after
  {
    if before.Some? && (kind.DaemonSet? || kind.Deployment? || kind.StatefulSet?) {
      assert MergeLabels(MergeLabels(before.value.labels, desired.labels), desired.labels) == after.labels;
    } else {
      assert MergeLabels(desired.labels, desired.labels) == desired.labels;
    }
  }

  /** The stored object after successive successful reconciles, with no other writer. */
  ghost predicate History(kind: Kind, states: seq<Obj>, desired: seq<Obj>) {
    && |states| == |desired| + 1
    && forall i | 0 <= i < |desired| :: states[i + 1] == Mutate(kind, states[i], desired[i])
  }

  function MergeAll(labels: Labels, desired: seq<Obj>): Labels {
    if desired == [] then labels
    else MergeLabels(MergeAll(labels, desired[..|desired| - 1]), desired[|desired| - 1].labels)
  }

  /** Object `i` is the last of the history to set the label. */
  ghost predicate LastToSet(desired: seq<Obj>, i: nat, key: string) {
    i < |desired| && key in desired[i].labels && forall j | i < j < |desired| :: key !in desired[j].labels
  }

  lemma LastBefore(desired: seq<Obj>, i: nat, key: string)
    requires LastToSet(desired, i, key) && i < |desired| - 1
    ensures LastToSet(desired[..|desired| - 1], i, key) && key !in desired[|desired| - 1].labels
  {
    var init := desired[..|desired| - 1];
    assert forall j | 0 <= j < |init| :: init[j] == desired[j];
  }

  lemma OneMerge(a: Labels, b: Labels, key: string)
    ensures key in MergeLabels(a, b) <==> key in a || key in b
    ensures key in b ==> MergeLabels(a, b)[key] == b[key]
    ensures key !in b && key in a ==> MergeLabels(a, b)[key] == a[key]
  {
  }

  /** A label's value after a history of merges: the last desired object that sets it
      decides. */
  lemma {:induction false} MergeAllLastWins(labels: Labels, desired: seq<Obj>, i: nat, key: string)
    requires LastToSet(desired, i, key)
    ensures key in MergeAll(labels, desired) && MergeAll(labels, desired)[key] == desired[i].labels[key]
  {
    var n := |desired| - 1;
    OneMerge(MergeAll(labels, desired[..n]), desired[n].labels, key);
    if i < n {
      LastBefore(desired, i, key);
      MergeAllLastWins(labels, desired[..n], i, key);
    }
  }

  /** If none does, the initial object does. */
  lemma {:induction false} MergeAllUnset(labels: Labels, desired: seq<Obj>, key: string)
    requires forall i | 0 <= i < |desired| :: key !in desired[i].labels
    ensures key in MergeAll(labels, desired) <==> key in labels
    ensures key in labels ==> MergeAll(labels, desired)[key] == labels[key]
  {
    if desired != [] {
      var n := |desired| - 1;
      OneMerge(MergeAll(labels, desired[..n]), desired[n].labels, key);
      MergeAllUnset(labels, desired[..n], key);
    }
  }

  /** A workload's labels remember the whole history. */
  lemma {:induction false} WorkloadLabelsAccumulate(kind: Kind, states: seq<Obj>, desired: seq<Obj>)
    requires kind.DaemonSet? || kind.Deployment? || kind.StatefulSet?
    requires History(kind, states, desired)
    ensures states[|desired|].labels == MergeAll(states[0].labels, desired)
  {
    if desired != [] {
      var n := |desired| - 1;
      WorkloadLabelsAccumulate(kind, states[..n + 1], desired[..n]);
    }
  }

  /** A workload's pod template and spec depend on the last desired object only; what the operator
      does not own is as the workload was created. */
  lemma {:induction false} WorkloadForgetsHistory(kind: Kind, states: seq<Obj>, desired: seq<Obj>)
    requires kind.DaemonSet? || kind.Deployment? || kind.StatefulSet?
    requires History(kind, states, desired) && desired != []
    ensures var first, last, d := states[0], states[|desired|], desired[|desired| - 1];
            && last.podSpec == d.podSpec && last.templateLabels == d.templateLabels
            && last.selector == (if kind.Deployment? then d.selector else first.selector)
            && last.replicas == (if kind.StatefulSet? then d.replicas else first.replicas)
            && last.annotations == first.annotations && last.templateAnnotations == first.templateAnnotations
            && last.ports == first.ports && last.clusterIP == first.clusterIP && last.data == first.data
  {
    var n := |desired| - 1;
    MutateIff(kind, states[n], desired[n], states[n + 1]);
    if n > 0 {
      WorkloadForgetsHistory(kind, states[..n + 1], desired[..n]);
    }
  }

  /** A Service's labels, ports and selector depend on the last desired object only; its
      cluster IP and annotations are those it was created with. */
  lemma {:induction false} ServiceForgetsHistory(states: seq<Obj>, desired: seq<Obj>)
    requires History(Service, states, desired) && desired != []
    ensures var last, d := states[|desired|], desired[|desired| - 1];
            && last.labels == d.labels && last.ports == d.ports && last.selector == d.selector
            && last.clusterIP == states[0].clusterIP && last.annotations == states[0].annotations
  {
    var n := |desired| - 1;
    assert states[n + 1] == Mutate(Service, states[n], desired[n]);
    if n > 0 {
      ServiceForgetsHistory(states[..n + 1], desired[..n]);
    }
  }
}
