/** The Kubernetes API server as one client sees it: objects with resource versions, calls
    that may fail, and other writers that may act between any two calls. */
module ApiServer {
  import opened Wrappers

  datatype Kind = DaemonSet | Deployment | StatefulSet | Service | ServiceAccount | Secret | ConfigMap

  datatype Name =
    | FluentdName | FluentbitName | ForwarderName | AggregatorName | EventsReaderName
    | OtherName(name: string)

  datatype Key = Key(kind: Kind, name: Name)

  type Labels = map<string, string>

  /** The fields the operator writes, and those it must leave alone. */
  datatype Obj = Obj(
    labels: Labels,
    annotations: Labels,
    selector: Labels,
    replicas: int,
    templateLabels: Labels,
    templateAnnotations: Labels,
    podSpec: string,
    ports: seq<int>,
    clusterIP: string,
    data: map<string, string>)

  datatype Stored = Stored(obj: Obj, version: nat)

  type Objects = map<Key, Stored>

  datatype ApiError = NotFound | AlreadyExists | Conflict | Unavailable

  /** What the server stores for a created object: the object itself, with a cluster IP
      allocated for a Service. */
  ghost predicate Admitted(kind: Kind, desired: Obj, obj: Obj) {
    obj == if kind.Service? then desired.(clusterIP := obj.clusterIP) else desired
  }

  ghost predicate SameAt(was: Objects, now: Objects, k: Key) {
    (k in now <==> k in was) && (k in now ==> now[k] == was[k])
  }

  /** Outside `keys` nothing changed. */
  ghost predicate SameExcept(was: Objects, now: Objects, keys: set<Key>) {
    forall k | k !in keys :: (k in now <==> k in was) && (k in now ==> now[k] == was[k])
  }

  // ------------------------------------------------------------------ what happens to the objects

  datatype State = State(objects: Objects, next: nat)

  /** Everything that happens to the objects, in order, and what the client reads. `version`
      makes an update conditional on the stored one. */
  datatype Event =
    | Other(key: Key, obj: Option<Obj>)   // another writer stores or deletes
    | Created(key: Key, created: Obj)
    | Read(key: Key, stored: Stored)
    | Wrote(key: Key, before: Stored, after: Obj, version: Option<nat>)
    | Deleted(key: Key)

  predicate Changes(e: Event, k: Key) {
    e.key == k && !e.Read?
  }

  predicate Enabled(s: State, e: Event) {
    match e
    case Other(_, _) => true
    case Created(k, _) => k !in s.objects
    case Read(k, stored) => k in s.objects && s.objects[k] == stored
    case Wrote(k, before, _, version) =>
      k in s.objects && s.objects[k] == before && (version.Some? ==> version.value == before.version)
    case Deleted(k) => k in s.objects
  }

  function Put(s: State, k: Key, obj: Obj): State {
    State(s.objects[k := Stored(obj, s.next)], s.next + 1)
  }

  function After(s: State, e: Event): State {
    match e
    case Other(k, Some(obj)) => Put(s, k, obj)
    case Other(k, None) => s.(objects := s.objects - {k})
    case Created(k, obj) => Put(s, k, obj)
    case Read(_, _) => s
    case Wrote(k, _, after, _) => Put(s, k, after)
    case Deleted(k) => s.(objects := s.objects - {k})
  }

  function Replay(s: State, log: seq<Event>): State {
    if log == [] then s else After(Replay(s, log[..|log| - 1]), log[|log| - 1])
  }

  ghost predicate Legal(s: State, log: seq<Event>) {
    log != [] ==> Legal(s, log[..|log| - 1]) && Enabled(Replay(s, log[..|log| - 1]), log[|log| - 1])
  }

  /** A version number is never used twice. */
  ghost predicate Bounded(s: State) {
    forall k | k in s.objects :: s.objects[k].version < s.next
  }

  /** The log leads from `start` to `now`. */
  ghost predicate Explains(start: State, log: seq<Event>, now: State) {
    Bounded(start) && Legal(start, log) && Replay(start, log) == now && Bounded(now)
  }

  /** The last thing that happened, after the first `from` events. */
  predicate Ends(from: nat, log: seq<Event>, e: Event) {
    from < |log| && log[|log| - 1] == e
  }

  lemma ExplainsNext(start: State, log: seq<Event>, now: State, e: Event)
    requires Explains(start, log, now) && Enabled(now, e)
    ensures Explains(start, log + [e], After(now, e))
  {
    assert (log + [e])[..|log|] == log;
  }

  /** Three steps, each possible after the one before. */
  lemma ThreeSteps(s: State, a: Event, b: Event, c: Event)
    requires Bounded(s) && Enabled(s, a) && Enabled(After(s, a), b) && Enabled(After(After(s, a), b), c)
    ensures Legal(s, [a, b, c]) && Replay(s, [a, b, c]) == After(After(After(s, a), b), c)
    ensures Replay(s, [a, b]) == After(After(s, a), b)
  {
    assert [] + [a] == [a] && [a] + [b] == [a, b] && [a, b] + [c] == [a, b, c];
    ExplainsNext(s, [], s, a);
    ExplainsNext(s, [a], After(s, a), b);
    ExplainsNext(s, [a, b], After(After(s, a), b), c);
  }

  lemma {:induction false} PrefixExplained(start: State, log: seq<Event>, i: nat)
    requires Bounded(start) && Legal(start, log) && i <= |log|
    ensures Explains(start, log[..i], Replay(start, log[..i]))
  {
    if i < |log| {
      assert log[..|log| - 1][..i] == log[..i];
      PrefixExplained(start, log[..|log| - 1], i);
    } else if log != [] {
      var init := log[..|log| - 1];
      assert log[..i] == log && init[..|init|] == init;
      PrefixExplained(start, init, |init|);
    }
  }

  lemma StepAt(start: State, log: seq<Event>, i: nat)
    requires Bounded(start) && Legal(start, log) && i < |log|
    ensures Enabled(Replay(start, log[..i]), log[i])
    ensures Replay(start, log[..i + 1]) == After(Replay(start, log[..i]), log[i])
  {
    PrefixExplained(start, log, i + 1);
    assert log[..i + 1][..i] == log[..i];
  }

  ghost predicate Unchanged(log: seq<Event>, i: nat, j: nat, k: Key) {
    forall m | i <= m < j && m < |log| :: !Changes(log[m], k)
  }

  /** Between two points of a run an object stays what it was exactly if nobody changed it: a
      change gives it a version that was never there before, even if it restores the content. */
  lemma {:induction false} SameObjectIff(start: State, log: seq<Event>, i: nat, j: nat, k: Key)
    requires Bounded(start) && Legal(start, log) && i <= j <= |log|
    requires k in Replay(start, log[..i]).objects
    ensures var s, t := Replay(start, log[..i]), Replay(start, log[..j]);
            && s.next <= t.next
            && (Unchanged(log, i, j, k) ==> k in t.objects && t.objects[k] == s.objects[k])
            && (!Unchanged(log, i, j, k) && k in t.objects ==> t.objects[k].version >= s.next)
    decreases j
  {
    if i < j {
      SameObjectIff(start, log, i, j - 1, k);
      StepAt(start, log, j - 1);
      OneStepKeeps(Replay(start, log[..j - 1]), log[j - 1], k);
      assert Unchanged(log, i, j, k) <==> Unchanged(log, i, j - 1, k) && !Changes(log[j - 1], k);
    }
  }

  lemma OneStepKeeps(s: State, e: Event, k: Key)
    ensures After(s, e).next >= s.next
    ensures !Changes(e, k) ==> (k in After(s, e).objects <==> k in s.objects)
    ensures !Changes(e, k) && k in s.objects ==> After(s, e).objects[k] == s.objects[k]
    ensures Changes(e, k) && k in After(s, e).objects ==> After(s, e).objects[k].version == s.next
  {
  }

  /** In every run: a write replaces the very object read before it exactly if nobody changed
      the object in between. A write on condition of the version read always does. */
  lemma WriteReplacesReadIff(start: State, log: seq<Event>, i: nat, j: nat)
    requires Bounded(start) && Legal(start, log) && i < j < |log|
    requires log[i].Read? && log[j].Wrote? && log[i].key == log[j].key
    ensures log[j].before == log[i].stored <==> Unchanged(log, i + 1, j, log[i].key)
    ensures log[j].version == Some(log[i].stored.version) ==> log[j].before == log[i].stored
  {
    var k := log[i].key;
    PrefixExplained(start, log, i);
    StepAt(start, log, i);
    StepAt(start, log, j);
    SameObjectIff(start, log, i + 1, j, k);
    assert log[i].stored.version < Replay(start, log[..i + 1]).next;
  }

  class Client {
    var objects: Objects
    var next: nat
    const contended: bool     // whether other writers exist
    ghost var failures: nat   // calls that failed for no reason the caller could see
    ghost const start: State
    ghost var log: seq<Event>

    ghost predicate Valid()
      reads this
    {
      Explains(start, log, State(objects, next))
    }

    constructor (contended: bool, objects: Objects, next: nat)
      requires Bounded(State(objects, next))
      ensures Valid() && this.objects == objects && this.contended == contended && log == []
    {
      this.contended, this.objects, this.next := contended, objects, next;
      start, log, failures := State(objects, next), [], 0;
    }

    /** Records what just happened to the objects. */
    ghost method Happened(e: Event, was: State)
      requires Explains(start, log, was) && Enabled(was, e) && State(objects, next) == After(was, e)
      modifies `log
      ensures Valid() && log == old(log) + [e]
    {
      ExplainsNext(start, log, was, e);
      log := log + [e];
    }

    /** Other writers create, change and delete objects. */
    method OtherWriters()
      requires Valid()
      modifies `objects, `next, `log
      ensures Valid() && next >= old(next) && old(log) <= log
      ensures !contended ==> objects == old(objects)
    {
      if contended {
        var n: int := *;
        while 0 < n
          invariant Valid() && next >= old(next) && old(log) <= log
        {
          var k: Key, obj: Option<Obj> := *, *;
          ghost var was := State(objects, next);
          if obj.None? {
            objects := objects - {k};
          } else {
            objects := objects[k := Stored(obj.value, next)];
            next := next + 1;
          }
          Happened(Other(k, obj), was);
          n := n - 1;
        }
      }
    }

    method Create(k: Key, obj: Obj) returns (err: Option<ApiError>)
      requires Valid()
      modifies this
      ensures Valid() && next >= old(next) && old(log) <= log && failures >= old(failures)
      ensures err.None? ==> k in objects && Admitted(k.kind, obj, objects[k].obj)
      ensures err.None? ==> Ends(|old(log)|, log, Created(k, objects[k].obj))
      ensures err.Some? && failures == old(failures) ==> err.value.AlreadyExists?
      ensures !contended && err.None? ==> k !in old(objects) && objects == old(objects)[k := objects[k]]
      ensures !contended && err == Some(AlreadyExists) ==> k in old(objects) && objects == old(objects)
      ensures !contended && err.Some? ==> SameExcept(old(objects), objects, {k})
    {
      OtherWriters();
      var reached, answered: bool := *, *;
      if !reached {
        failures := failures + 1;
        return Some(Unavailable);
      }
      if k in objects {
        return Some(AlreadyExists);
      }
      var ip: string := *;
      var stored := if k.kind.Service? then obj.(clusterIP := ip) else obj;
      ghost var was := State(objects, next);
      objects := objects[k := Stored(stored, next)];
      next := next + 1;
      Happened(Created(k, stored), was);
      if !answered {
        failures := failures + 1;
        return Some(Unavailable);
      }
      return None;
    }

    method Get(k: Key) returns (r: Result<Stored, ApiError>)
      requires Valid()
      modifies this
      ensures Valid() && next >= old(next) && old(log) <= log && failures >= old(failures)
      ensures r.Ok? ==> k in objects && objects[k] == r.value
      ensures r.Ok? ==> Ends(|old(log)|, log, Read(k, r.value))
      ensures r == Err(NotFound) ==> k !in objects
      ensures r.Err? && failures == old(failures) ==> r.error.NotFound?
      ensures !contended ==> objects == old(objects)
    {
      OtherWriters();
      var reached: bool := *;
      if !reached {
        failures := failures + 1;
        return Err(Unavailable);
      }
      if k !in objects {
        return Err(NotFound);
      }
      Happened(Read(k, objects[k]), State(objects, next));
      return Ok(objects[k]);
    }

    /** A version makes the update conditional on the stored one. */
    method Update(k: Key, obj: Obj, version: Option<nat>) returns (err: Option<ApiError>)
      requires Valid()
      modifies this
      ensures Valid() && next >= old(next) && old(log) <= log && failures >= old(failures)
      ensures err.None? ==> k in objects && objects[k].obj == obj
      ensures err.None? ==> |log| > |old(log)| && log[|log| - 1].Wrote? && Ends(|old(log)|, log, Wrote(k, log[|log| - 1].before, obj, version))
      ensures err.Some? && failures == old(failures) && !contended ==> k !in old(objects) || (version.Some? && version.value != old(objects)[k].version)
      ensures !contended ==> SameExcept(old(objects), objects, {k})
    {
      OtherWriters();
      var reached, answered: bool := *, *;
      if !reached {
        failures := failures + 1;
        return Some(Unavailable);
      }
      if k !in objects {
        return Some(NotFound);
      }
      if version.Some? && version.value != objects[k].version {
        return Some(Conflict);
      }
      ghost var was := State(objects, next);
      objects := objects[k := Stored(obj, next)];
      next := next + 1;
      Happened(Wrote(k, was.objects[k], obj, version), was);
      if !answered {
        failures := failures + 1;
        return Some(Unavailable);
      }
      return None;
    }

    method Delete(k: Key) returns (err: Option<ApiError>)
      requires Valid()
      modifies this
      ensures Valid() && next >= old(next) && old(log) <= log && failures >= old(failures)
      ensures err.None? ==> k !in objects && Ends(|old(log)|, log, Deleted(k))
      ensures err.Some? && failures == old(failures) && !contended ==> k !in old(objects)
      ensures !contended ==> SameExcept(old(objects), objects, {k})
      ensures !contended ==> (k in objects ==> k in old(objects) && objects[k] == old(objects)[k])
    {
      OtherWriters();
      var reached, answered: bool := *, *;
      if !reached {
        failures := failures + 1;
        return Some(Unavailable);
      }
      if k !in objects {
        return Some(NotFound);
      }
      ghost var was := State(objects, next);
      objects := objects - {k};
      Happened(Deleted(k), was);
      if !answered {
        failures := failures + 1;
        return Some(Unavailable);
      }
      return None;
    }
  }
}
