/** The condition list of a LoggingService (internal/utils/status.go): upsert with dedupe,
    swap-with-last removal and the truncating sweep, over a resource whose status patches
    may fail. */
module Status {
  import opened Wrappers
  import opened LoggingServiceTypes

  /** The condition reasons, pairwise different strings in the source. */
  datatype Reason = Cycle | Graylog | Fluentd | Fluentbit | HAFluent | EventsReader | MonitoringAgent | ComponentPending

  datatype Phase = InProgress | Success | Failed

  datatype Condition = Condition(phase: Phase, status: bool, reason: Reason, message: string, time: int)

  const CYCLE_FAILED := "Reconcile of Logging service failed"

  // ------------------------------------------------------------------ the list operations

  /** Index of the first condition with the reason, or -1. */
  function GetCondition(l: seq<Condition>, r: Reason): (i: int)
    ensures -1 <= i < |l|
    ensures 0 <= i ==> l[i].reason == r && forall j | 0 <= j < i :: l[j].reason != r
    ensures i < 0 ==> forall j | 0 <= j < |l| :: l[j].reason != r
  {
    if l == [] then -1
    else if l[0].reason == r then 0
    else
      var i := GetCondition(l[1..], r);
      assert forall j | 1 <= j < |l| :: l[j] == l[1..][j - 1];
      if i < 0 then -1 else i + 1
  }

  predicate IsStatusFailed(l: seq<Condition>, r: Reason) {
    var i := GetCondition(l, r);
    0 <= i && l[i].phase.Failed?
  }

  /** Equal but for the transition time. */
  predicate IsStatusEqual(a: Condition, b: Condition) {
    a.(time := b.time) == b
  }

  /** A failed condition that says the same again is left alone, transition time included. */
  predicate IsRepeatedFailure(l: seq<Condition>, c: Condition) {
    var i := GetCondition(l, c.reason);
    0 <= i && c.phase.Failed? && IsStatusEqual(c, l[i])
  }

  function Upserted(l: seq<Condition>, c: Condition): seq<Condition> {
    var i := GetCondition(l, c.reason);
    if i < 0 then l + [c] else if IsRepeatedFailure(l, c) then l else l[i := c]
  }

  function Removed(l: seq<Condition>, r: Reason): seq<Condition> {
    var i := GetCondition(l, r);
    if i < 0 then l else l[i := l[|l| - 1]][..|l| - 1]
  }

  /** The conditions the sweep means to keep: the cycle status, and failures of components
      that are still installed. */
  predicate IsKept(cr: LoggingService, c: Condition) {
    c.reason.Cycle? ||
    (c.phase.Failed? &&
     match c.reason
     case Graylog => cr.graylog.Some?
     case Fluentd => cr.fluentd.Some?
     case Fluentbit => cr.fluentbit.Some?
     case EventsReader => cr.eventsReader
     case MonitoringAgent => cr.monitoringAgent.Some? && cr.monitoringAgent.value.influxDBMode
     case ComponentPending => true
     case _ => false)
  }

  function KeptOne(cr: LoggingService, c: Condition): seq<Condition> {
    if IsKept(cr, c) then [c] else []
  }

  function Kept(cr: LoggingService, l: seq<Condition>): (r: seq<Condition>)
    ensures |r| <= |l|
  {
    if l == [] then []
    else KeptOne(cr, l[0]) + Kept(cr, l[1..])
  }

  /** What the sweep does: it drops as many conditions as it should, but always the last. */
  function Swept(cr: LoggingService, l: seq<Condition>): seq<Condition> {
    l[..|Kept(cr, l)|]
  }

  // ------------------------------------------------------------------ runs of operations

  datatype Action =
    | Load                          // a cycle reads the stored resource
    | Upsert(c: Condition)
    | Remove(reason: Reason)
    | Sweep(cr: LoggingService)

  /** An action, and whether the status patch it may send reaches the API server. */
  datatype Op = Op(action: Action, patched: bool)

  /** The condition list in memory and the one the API server stores. */
  datatype Resource = Resource(mem: seq<Condition>, stored: seq<Condition>)

  function Act(a: Action, l: seq<Condition>): seq<Condition> {
    match a
    case Load => l
    case Upsert(c) => Upserted(l, c)
    case Remove(r) => Removed(l, r)
    case Sweep(cr) => Swept(cr, l)
  }

  /** Whether the code sends a patch. */
  predicate Patches(a: Action, l: seq<Condition>) {
    match a
    case Load => false
    case Upsert(c) => !IsRepeatedFailure(l, c)
    case Remove(r) => 0 <= GetCondition(l, r)
    case Sweep(cr) => |Kept(cr, l)| < |l|
  }

  function Step(s: Resource, op: Op): Resource {
    if op.action.Load? then Resource(s.stored, s.stored)
    else
      var mem := Act(op.action, s.mem);
      Resource(mem, if Patches(op.action, s.mem) && op.patched then mem else s.stored)
  }

  function Replay(s: Resource, ops: seq<Op>): Resource {
    if ops == [] then s else Step(Replay(s, ops[..|ops| - 1]), ops[|ops| - 1])
  }

  // ------------------------------------------------------------------ invariants

  ghost predicate Distinct(l: seq<Condition>) {
    forall i, j | 0 <= i < j < |l| :: l[i].reason != l[j].reason
  }

  /** Reasons are pairwise distinct, and a non-empty list starts with the cycle status.
      A failed cycle status always says the same. */
  ghost predicate Good(l: seq<Condition>) {
    && Distinct(l)
    && (l != [] ==> l[0].reason.Cycle?)
    && (l != [] && l[0].phase.Failed? ==> l[0].message == CYCLE_FAILED && !l[0].status)
    && (forall i | 0 <= i < |l| :: !l[i].reason.MonitoringAgent?)
  }

  /** What the operator's code does with the list: the cycle status comes first, is never
      removed, and is not set back to in-progress while it is failed. */
  ghost predicate LegalOp(l: seq<Condition>, a: Action) {
    match a
    case Load => true
    case Sweep(cr) => true
    case Remove(r) => !r.Cycle?
    case Upsert(c) =>
      if c.reason.Cycle? then
        && (c.phase.Failed? ==> c.message == CYCLE_FAILED && !c.status)
        && (c.phase.InProgress? ==> !IsStatusFailed(l, Cycle))
      else !c.reason.MonitoringAgent? && l != []
  }

  ghost predicate Legal(s: Resource, ops: seq<Op>) {
    ops == [] || (Legal(s, ops[..|ops| - 1]) && LegalOp(Replay(s, ops[..|ops| - 1]).mem, ops[|ops| - 1].action))
  }

  /** Being legal is about every step of the run, so every prefix of a legal run is one. */
  lemma {:induction false} LegalPrefix(s: Resource, ops: seq<Op>, n: nat)
    requires n <= |ops| && Legal(s, ops)
    ensures Legal(s, ops[..n])
  {
    if n == |ops| {
      assert ops[..n] == ops;
    } else {
      LegalPrefix(s, ops[..|ops| - 1], n);
      assert ops[..|ops| - 1][..n] == ops[..n];
    }
  }

  lemma LegalExtends(s: Resource, ops: seq<Op>, op: Op)
    requires Legal(s, ops) && LegalOp(Replay(s, ops).mem, op.action)
    ensures Legal(s, ops + [op]) && Replay(s, ops + [op]) == Step(Replay(s, ops), op)
  {
    assert (ops + [op])[..|ops|] == ops;
  }

  lemma GoodAct(l: seq<Condition>, a: Action)
    requires Good(l) && LegalOp(l, a)
    ensures Good(Act(a, l))
  {
  }

  /** The status invariant over every run from an empty list: in memory and as stored,
      whichever patches are lost, reasons stay distinct and the cycle status stays first. */
  lemma {:induction false} StatusInvariant(ops: seq<Op>)
    requires Legal(Resource([], []), ops)
    ensures Good(Replay(Resource([], []), ops).mem) && Good(Replay(Resource([], []), ops).stored)
  {
    if ops != [] {
      var n := |ops| - 1;
      StatusInvariant(ops[..n]);
      GoodAct(Replay(Resource([], []), ops[..n]).mem, ops[n].action);
    }
  }

  /** One step of a run that does not report success leaves a failed cycle status alone. */
  lemma FailureSticksStep(s: Resource, op: Op)
    requires Good(s.mem) && s.mem != [] && s.mem[0].phase.Failed? && s.stored == s.mem
    requires op.patched && LegalOp(s.mem, op.action)
    requires op.action.Upsert? && op.action.c.reason.Cycle? ==> !op.action.c.phase.Success?
    ensures var e := Step(s, op); e.stored == e.mem && e.mem != [] && e.mem[0] == s.mem[0]
  {
    assert GetCondition(s.mem, Cycle) == 0;
    match op.action {
      case Sweep(cr) => assert |Kept(cr, s.mem)| >= 1;
      case _ =>
    }
  }

  /** Sticky failure, over every run of the operator: if a cycle that begins with entry `n`
      of the log reads a failed status, then every later state of the run shows that very
      condition first, transition time included, in memory and as stored, until an action
      reports success. Every patch is assumed to arrive. */
  lemma {:induction false} FailureSticks(ops: seq<Op>, n: nat, k: nat)
    requires Legal(Resource([], []), ops) && n < k <= |ops| && ops[n].action.Load?
    requires forall i | n <= i < k :: ops[i].patched
    requires forall i | n <= i < k && ops[i].action.Upsert? && ops[i].action.c.reason.Cycle? :: !ops[i].action.c.phase.Success?
    requires var r := Replay(Resource([], []), ops[..n]); r.stored != [] && r.stored[0].phase.Failed?
    ensures var was, now := Replay(Resource([], []), ops[..n]), Replay(Resource([], []), ops[..k]);
            now.mem == now.stored && now.mem != [] && now.mem[0] == was.stored[0]
  {
    var before := Replay(Resource([], []), ops[..k - 1]);
    ReplayStep(Resource([], []), ops, k);
    if n + 1 < k {
      FailureSticks(ops, n, k - 1);
      LegalPrefix(Resource([], []), ops, k - 1);
      StatusInvariant(ops[..k - 1]);
      FailureSticksStep(before, ops[k - 1]);
    } else {
      LoadReads(before, ops[n]);
    }
  }

  lemma ReplayStep(s: Resource, ops: seq<Op>, k: nat)
    requires Legal(s, ops) && 0 < k <= |ops|
    ensures Replay(s, ops[..k]) == Step(Replay(s, ops[..k - 1]), ops[k - 1])
    ensures LegalOp(Replay(s, ops[..k - 1]).mem, ops[k - 1].action)
  {
    LegalPrefix(s, ops, k);
    assert ops[..k][..k - 1] == ops[..k - 1];
  }

  lemma LoadReads(s: Resource, op: Op)
    requires op.action.Load?
    ensures Step(s, op) == Resource(s.stored, s.stored)
  {
  }

  // ------------------------------------------------------------------ what an action leaves

  /** Some condition is the same failure as `c`, at whatever time it was reported. */
  ghost predicate Reported(l: seq<Condition>, c: Condition) {
    c.phase.Failed? && exists time :: Condition(Failed, c.status, c.reason, c.message, time) in l
  }

  /** An update changes nothing if this failure is reported already; otherwise it leaves the new
      condition in the place of the old one of its reason, or at the end. */
  lemma UpsertedExact(l: seq<Condition>, c: Condition)
    requires Distinct(l)
    ensures Reported(l, c) ==> Upserted(l, c) == l
    ensures !Reported(l, c) ==>
              && (forall o :: o in Upserted(l, c) <==> o == c || (o in l && o.reason != c.reason))
              && (forall i | 0 <= i < |l| && l[i].reason == c.reason :: |Upserted(l, c)| == |l| && Upserted(l, c)[i] == c)
    ensures forall i | 0 <= i < |l| && l[i].reason != c.reason :: i < |Upserted(l, c)| && Upserted(l, c)[i] == l[i]
  {
    var i, u := GetCondition(l, c.reason), Upserted(l, c);
    if Reported(l, c) {
      var time :| Condition(Failed, c.status, c.reason, c.message, time) in l;
      SameReason(l, i, Condition(Failed, c.status, c.reason, c.message, time));
    } else {
      if 0 <= i {
        assert l[i] == Condition(l[i].phase, l[i].status, c.reason, l[i].message, l[i].time);
      }
      forall o
        ensures o in u <==> o == c || (o in l && o.reason != c.reason)
      {
        UpsertedMember(l, c, o);
      }
    }
  }

  lemma SameReason(l: seq<Condition>, i: int, o: Condition)
    requires Distinct(l) && o in l && i == GetCondition(l, o.reason)
    ensures 0 <= i && l[i] == o
  {
    var k :| 0 <= k < |l| && l[k] == o;
  }

  lemma UpsertedMember(l: seq<Condition>, c: Condition, o: Condition)
    requires Distinct(l) && !IsRepeatedFailure(l, c)
    ensures o in Upserted(l, c) <==> o == c || (o in l && o.reason != c.reason)
  {
    var i, u := GetCondition(l, c.reason), Upserted(l, c);
    if i < 0 {
      assert u == l + [c];
    } else {
      assert u[i] == c;
      if o in l && o.reason != c.reason {
        var k :| 0 <= k < |l| && l[k] == o;
        assert u[k] == o;
      }
      if o in u && o != c {
        var k :| 0 <= k < |u| && u[k] == o;
        assert l[k] == o;
      }
    }
  }

  /** A removal leaves all others, and the cycle status in its place. */
  lemma RemovedExact(l: seq<Condition>, r: Reason)
    requires Distinct(l)
    ensures forall o :: o in Removed(l, r) <==> o in l && o.reason != r
    ensures l != [] && l[0].reason != r ==> Removed(l, r) != [] && Removed(l, r)[0] == l[0]
  {
    var i, n, u := GetCondition(l, r), |l| - 1, Removed(l, r);
    if 0 <= i {
      assert forall k | 0 <= k < n :: u[k] == if k == i then l[n] else l[k];
      forall o
        ensures o in u <==> o in l && o.reason != r
      {
        if o in l && o.reason != r {
          var k :| 0 <= k < |l| && l[k] == o;
          assert u[if k == n then i else k] == o;
        }
        if o in u {
          var k :| 0 <= k < |u| && u[k] == o;
          assert o == l[if k == i then n else k];
        }
      }
    }
  }

  // ------------------------------------------------------------------ the sweep

  /** The filter the sweep stands for: it keeps a condition exactly if it is to be kept. */
  lemma {:induction false} KeptIff(cr: LoggingService, l: seq<Condition>, c: Condition)
    ensures c in Kept(cr, l) <==> c in l && IsKept(cr, c)
  {
    if l != [] {
      KeptIff(cr, l[1..], c);
      assert l == [l[0]] + l[1..];
    }
  }

  /** In the fields of the spec: a failure is kept exactly while the component it is about is
      installed, that of the wait always, and that of the forwarder and aggregator never. */
  lemma KeptFailures(cr: LoggingService, l: seq<Condition>, c: Condition)
    requires c.phase.Failed? && c in l
    ensures c.reason.Graylog? ==> (c in Kept(cr, l) <==> cr.graylog.Some?)
    ensures c.reason.Fluentd? ==> (c in Kept(cr, l) <==> cr.fluentd.Some?)
    ensures c.reason.Fluentbit? ==> (c in Kept(cr, l) <==> cr.fluentbit.Some?)
    ensures c.reason.EventsReader? ==> (c in Kept(cr, l) <==> cr.eventsReader)
    ensures c.reason.MonitoringAgent? ==> (c in Kept(cr, l) <==> cr.monitoringAgent.Some? && cr.monitoringAgent.value.influxDBMode)
    ensures c.reason.ComponentPending? ==> c in Kept(cr, l)
    ensures c.reason.HAFluent? ==> c !in Kept(cr, l)
    ensures c.reason.Cycle? ==> c in Kept(cr, l)
  {
    KeptIff(cr, l, c);
  }

  /** Of the conditions that are no failures only the cycle status is kept. */
  lemma OthersAreTemporary(cr: LoggingService, l: seq<Condition>, c: Condition)
    requires !c.phase.Failed?
    ensures c in Kept(cr, l) <==> c in l && c.reason.Cycle?
  {
    KeptIff(cr, l, c);
  }

  lemma {:induction false} AllKept(cr: LoggingService, l: seq<Condition>)
    requires forall c | c in l :: IsKept(cr, c)
    ensures Kept(cr, l) == l
  {
    if l != [] {
      AllKept(cr, l[1..]);
      assert l[0] in l && l == [l[0]] + l[1..];
    }
  }

  lemma NoneKept(cr: LoggingService, l: seq<Condition>)
    ensures Kept(cr, l) == [] <==> forall c | c in l :: !IsKept(cr, c)
  {
    if Kept(cr, l) == [] {
      forall c | c in l
        ensures !IsKept(cr, c)
      {
        KeptIff(cr, l, c);
      }
    } else {
      var c := Kept(cr, l)[0];
      KeptIff(cr, l, c);
    }
  }

  lemma {:induction false} KeptConcat(cr: LoggingService, a: seq<Condition>, b: seq<Condition>)
    ensures Kept(cr, a + b) == Kept(cr, a) + Kept(cr, b)
  {
    if a == [] {
      assert a + b == b;
    } else {
      KeptConcat(cr, a[1..], b);
      assert (a + b)[1..] == a[1..] + b;
      Associative(KeptOne(cr, a[0]), Kept(cr, a[1..]), Kept(cr, b));
    }
  }

  ghost predicate KeptFirst(cr: LoggingService, l: seq<Condition>) {
    forall i, j | 0 <= i < j < |l| && IsKept(cr, l[j]) :: IsKept(cr, l[i])
  }

  lemma {:induction false} KeptFirstIsPrefix(cr: LoggingService, l: seq<Condition>)
    requires KeptFirst(cr, l)
    ensures Swept(cr, l) == Kept(cr, l)
  {
    if l != [] {
      if IsKept(cr, l[0]) {
        KeptFirstIsPrefix(cr, l[1..]);
      } else {
        forall c | c in l
          ensures !IsKept(cr, c)
        {
          var i :| 0 <= i < |l| && l[i] == c;
        }
        NoneKept(cr, l);
      }
    }
  }

  lemma KeptBefore(cr: LoggingService, l: seq<Condition>, i: nat)
    requires i < |l|
    ensures Kept(cr, l[i..]) == KeptOne(cr, l[i]) + Kept(cr, l[i + 1..])
  {
    assert l[i..][1..] == l[i + 1..];
  }

  lemma PrefixIsKeptFirst(cr: LoggingService, l: seq<Condition>)
    requires Swept(cr, l) == Kept(cr, l)
    ensures KeptFirst(cr, l)
  {
    var n := |Kept(cr, l)|;
    var head, tail := l[..n], l[n..];
    assert l == head + tail;
    HeadKept(cr, l, head);
    KeptConcat(cr, head, tail);
    TailDropped(cr, head, tail);
    SplitIsKeptFirst(cr, head, tail);
  }

  lemma HeadKept(cr: LoggingService, l: seq<Condition>, head: seq<Condition>)
    requires head == Kept(cr, l)
    ensures forall c | c in head :: IsKept(cr, c)
    ensures Kept(cr, head) == head
  {
    forall c | c in head
      ensures IsKept(cr, c)
    {
      KeptIff(cr, l, c);
    }
    AllKept(cr, head);
  }

  lemma TailDropped(cr: LoggingService, head: seq<Condition>, tail: seq<Condition>)
    requires head == Kept(cr, head) + Kept(cr, tail) && Kept(cr, head) == head
    ensures forall c | c in tail :: !IsKept(cr, c)
  {
    assert |Kept(cr, tail)| == 0;
    NoneKept(cr, tail);
  }

  lemma SplitIsKeptFirst(cr: LoggingService, head: seq<Condition>, tail: seq<Condition>)
    requires forall c | c in head :: IsKept(cr, c)
    requires forall c | c in tail :: !IsKept(cr, c)
    ensures KeptFirst(cr, head + tail)
  {
    var l := head + tail;
    forall k | 0 <= k < |l|
      ensures IsKept(cr, l[k]) <==> k < |head|
    {
      if k < |head| {
        assert l[k] == head[k];
      } else {
        assert l[k] == tail[k - |head|];
      }
    }
  }

  /** The sweep equals the filter it stands for exactly when no kept condition follows a
      dropped one. */
  lemma SweepIsFilterIff(cr: LoggingService, l: seq<Condition>)
    ensures Swept(cr, l) == Kept(cr, l) <==>
            forall i, j | 0 <= i < j < |l| && IsKept(cr, l[j]) :: IsKept(cr, l[i])
  {
    if KeptFirst(cr, l) {
      KeptFirstIsPrefix(cr, l);
    }
    if Swept(cr, l) == Kept(cr, l) {
      PrefixIsKeptFirst(cr, l);
    }
  }

  // ------------------------------------------------------------------ a cycle that ends in a loss

  /** Actions whose patches all arrive. */
  function Patched(actions: seq<Action>): seq<Op> {
    if actions == [] then [] else [Op(actions[0], true)] + Patched(actions[1..])
  }

  function ActAll(actions: seq<Action>, l: seq<Condition>): seq<Condition> {
    if actions == [] then l else ActAll(actions[1..], Act(actions[0], l))
  }

  ghost predicate LegalAll(actions: seq<Action>, l: seq<Condition>) {
    actions == [] || (LegalOp(l, actions[0]) && LegalAll(actions[1..], Act(actions[0], l)))
  }

  lemma {:induction false} AllConcat(a: seq<Action>, b: seq<Action>, l: seq<Condition>)
    ensures ActAll(a + b, l) == ActAll(b, ActAll(a, l))
    ensures LegalAll(a + b, l) <==> LegalAll(a, l) && LegalAll(b, ActAll(a, l))
    decreases |a|
  {
    if a == [] {
      assert a + b == b;
    } else {
      AllConcat(a[1..], b, Act(a[0], l));
      TailOfConcat(a, b);
      FirstAct(a, l);
      FirstAct(a + b, l);
    }
  }

  lemma TailOfConcat(a: seq<Action>, b: seq<Action>)
    requires a != []
    ensures (a + b)[0] == a[0] && (a + b)[1..] == a[1..] + b
  {
  }

  lemma FirstAct(actions: seq<Action>, l: seq<Condition>)
    requires actions != []
    ensures ActAll(actions, l) == ActAll(actions[1..], Act(actions[0], l))
    ensures LegalAll(actions, l) <==> LegalOp(l, actions[0]) && LegalAll(actions[1..], Act(actions[0], l))
  {
  }

  /** When every patch arrives, memory and store go through the same lists. */
  lemma {:induction false} PatchedRun(before: seq<Op>, l: seq<Condition>, actions: seq<Action>)
    requires Legal(Resource([], []), before) && Replay(Resource([], []), before) == Resource(l, l) && LegalAll(actions, l)
    ensures Legal(Resource([], []), before + Patched(actions))
    ensures Replay(Resource([], []), before + Patched(actions)) == Resource(ActAll(actions, l), ActAll(actions, l))
    decreases |actions|
  {
    if actions == [] {
      assert before + Patched(actions) == before;
    } else {
      var op := Op(actions[0], true);
      PatchedStep(before, l, actions[0]);
      PatchedRun(before + [op], Act(actions[0], l), actions[1..]);
      Associative(before, [op], Patched(actions[1..]));
    }
  }

  lemma PatchedStep(before: seq<Op>, l: seq<Condition>, a: Action)
    requires Legal(Resource([], []), before) && Replay(Resource([], []), before) == Resource(l, l) && LegalOp(l, a)
    ensures Legal(Resource([], []), before + [Op(a, true)])
    ensures Replay(Resource([], []), before + [Op(a, true)]) == Resource(Act(a, l), Act(a, l))
  {
    LegalExtends(Resource([], []), before, Op(a, true));
    PatchedOne(l, a);
  }

  lemma PatchedOne(l: seq<Condition>, a: Action)
    ensures Step(Resource(l, l), Op(a, true)) == Resource(Act(a, l), Act(a, l))
  {
    UnpatchedIsUnchanged(a, l);
  }

  lemma UnpatchedIsUnchanged(a: Action, l: seq<Condition>)
    ensures !Patches(a, l) ==> Act(a, l) == l
  {
  }

  /** The other components come and go. */
  function ComesAndGoes(r: Reason): seq<Action> {
    [Upsert(Condition(InProgress, false, r, "", 0)), Remove(r)]
  }

  lemma ComesAndGoesLeaves(r: Reason, c: Condition)
    requires c.reason != r && !r.Cycle? && !r.MonitoringAgent?
    ensures LegalAll(ComesAndGoes(r), [c]) && ActAll(ComesAndGoes(r), [c]) == [c]
  {
    var added := Condition(InProgress, false, r, "", 0);
    var actions := ComesAndGoes(r);
    assert Act(actions[0], [c]) == [c, added];
    assert GetCondition([c, added], r) == 1;
    assert Act(actions[1], [c, added]) == [c];
    assert actions[1..] == [actions[1]] && actions[1..][1..] == [];
    assert ActAll([actions[1]], [c, added]) == ActAll([], [c]);
  }

  const STARTED := Condition(InProgress, false, Cycle, "", 0)
  const HA_STARTED := Condition(InProgress, false, HAFluent, "", 0)
  const HA_FAILED := Condition(Failed, false, HAFluent, "", 0)
  const READER_STARTED := Condition(InProgress, false, EventsReader, "", 0)
  const READER_FAILED := Condition(Failed, false, EventsReader, "", 0)
  const PENDING := Condition(InProgress, false, ComponentPending, "", 0)
  const FAILED := Condition(Failed, false, Cycle, CYCLE_FAILED, 0)

  /** A complete first cycle in which neither the forwarder nor the events reader starts in time:
      the resource is read, the cycle begins, Graylog, FluentD and plain Fluent Bit come and go,
      the other two are installed, the wait times out and fails them, and the cycle fails. */
  function FailingCycle(cr: LoggingService): seq<Action> {
    [Load, Upsert(STARTED), Sweep(cr)] + (ComesAndGoes(Graylog) + (ComesAndGoes(Fluentd) + (ComesAndGoes(Fluentbit) + TimedOut())))
  }

  function TimedOut(): seq<Action> {
    [Upsert(HA_STARTED), Upsert(READER_STARTED), Upsert(PENDING), Upsert(HA_FAILED), Upsert(READER_FAILED),
     Remove(ComponentPending), Upsert(FAILED)]
  }

  lemma OneMore(a: Action, rest: seq<Action>, l: seq<Condition>, next: seq<Condition>)
    requires LegalOp(l, a) && Act(a, l) == next && LegalAll(rest, next)
    ensures LegalAll([a] + rest, l) && ActAll([a] + rest, l) == ActAll(rest, next)
  {
    assert ([a] + rest)[1..] == rest;
  }

  lemma IndexIs(l: seq<Condition>, i: nat, r: Reason)
    requires i < |l| && l[i].reason == r && forall j | 0 <= j < i :: l[j].reason != r
    ensures GetCondition(l, r) == i
  {
  }

  /** A started component fails. */
  lemma FailsAt(l: seq<Condition>, i: nat, c: Condition)
    requires i < |l| && l[i].reason == c.reason && l[i].phase != c.phase && forall j | 0 <= j < i :: l[j].reason != c.reason
    ensures Act(Upsert(c), l) == l[i := c]
  {
    IndexIs(l, i, c.reason);
  }

  lemma RemovesLast(l: seq<Condition>, r: Reason)
    requires l != [] && l[|l| - 1].reason == r && forall j | 0 <= j < |l| - 1 :: l[j].reason != r
    ensures Act(Remove(r), l) == l[..|l| - 1]
  {
    IndexIs(l, |l| - 1, r);
  }

  const BOTH_FAILED: seq<Condition> := [STARTED, HA_FAILED, READER_FAILED]

  lemma TimedOutFinishes()
    ensures var rest := [Remove(ComponentPending), Upsert(FAILED)];
            LegalAll(rest, BOTH_FAILED + [PENDING]) && ActAll(rest, BOTH_FAILED + [PENDING]) == [FAILED, HA_FAILED, READER_FAILED]
  {
    FailsAt(BOTH_FAILED, 0, FAILED);
    assert BOTH_FAILED[0 := FAILED] == [FAILED, HA_FAILED, READER_FAILED];
    OneMore(Upsert(FAILED), [], BOTH_FAILED, [FAILED, HA_FAILED, READER_FAILED]);
    RemovesLast(BOTH_FAILED + [PENDING], ComponentPending);
    assert (BOTH_FAILED + [PENDING])[..3] == BOTH_FAILED;
    OneMore(Remove(ComponentPending), [Upsert(FAILED)], BOTH_FAILED + [PENDING], BOTH_FAILED);
  }

  lemma TimedOutFails(rest: seq<Action>)
    requires LegalAll(rest, BOTH_FAILED + [PENDING])
    ensures var l, both := [STARTED, HA_STARTED, READER_STARTED, PENDING], [Upsert(HA_FAILED), Upsert(READER_FAILED)];
            LegalAll(both + rest, l) && ActAll(both + rest, l) == ActAll(rest, BOTH_FAILED + [PENDING])
  {
    var l, next := [STARTED, HA_STARTED, READER_STARTED, PENDING], [STARTED, HA_FAILED, READER_STARTED, PENDING];
    FailsAt(next, 2, READER_FAILED);
    assert next[2 := READER_FAILED] == BOTH_FAILED + [PENDING];
    OneMore(Upsert(READER_FAILED), rest, next, BOTH_FAILED + [PENDING]);
    FailsAt(l, 1, HA_FAILED);
    assert l[1 := HA_FAILED] == next;
    OneMore(Upsert(HA_FAILED), [Upsert(READER_FAILED)] + rest, l, next);
    assert [Upsert(HA_FAILED)] + ([Upsert(READER_FAILED)] + rest) == [Upsert(HA_FAILED), Upsert(READER_FAILED)] + rest;
  }

  lemma TimedOutEnds()
    ensures LegalAll(TimedOut(), [STARTED]) && ActAll(TimedOut(), [STARTED]) == [FAILED, HA_FAILED, READER_FAILED]
  {
    var last, both := [Remove(ComponentPending), Upsert(FAILED)], [Upsert(HA_FAILED), Upsert(READER_FAILED)];
    TimedOutFinishes();
    TimedOutFails(last);
    TimedOutBegins(both + last, [STARTED, HA_STARTED, READER_STARTED], [STARTED, HA_STARTED, READER_STARTED, PENDING]);
    assert TimedOut() == [Upsert(HA_STARTED), Upsert(READER_STARTED), Upsert(PENDING)] + (both + last);
  }

  lemma TimedOutBegins(rest: seq<Action>, l3: seq<Condition>, l4: seq<Condition>)
    requires l3 == [STARTED, HA_STARTED, READER_STARTED] && l4 == l3 + [PENDING] && LegalAll(rest, l4)
    ensures var begins := [Upsert(HA_STARTED), Upsert(READER_STARTED), Upsert(PENDING)];
            LegalAll(begins + rest, [STARTED]) && ActAll(begins + rest, [STARTED]) == ActAll(rest, l4)
  {
    var first, second, third := Upsert(HA_STARTED), Upsert(READER_STARTED), Upsert(PENDING);
    OneMore(third, rest, l3, l4);
    OneMore(second, [third] + rest, [STARTED, HA_STARTED], l3);
    OneMore(first, [second] + ([third] + rest), [STARTED], [STARTED, HA_STARTED]);
    assert [first] + ([second] + ([third] + rest)) == [first, second, third] + rest;
  }

  lemma FailingCycleEnds(cr: LoggingService)
    ensures LegalAll(FailingCycle(cr), []) && ActAll(FailingCycle(cr), []) == [FAILED, HA_FAILED, READER_FAILED]
  {
    TimedOutEnds();
    ComesAndGoesLeaves(Fluentbit, STARTED);
    AllConcat(ComesAndGoes(Fluentbit), TimedOut(), [STARTED]);
    var fluentbit := ComesAndGoes(Fluentbit) + TimedOut();
    ComesAndGoesLeaves(Fluentd, STARTED);
    AllConcat(ComesAndGoes(Fluentd), fluentbit, [STARTED]);
    var fluentd := ComesAndGoes(Fluentd) + fluentbit;
    ComesAndGoesLeaves(Graylog, STARTED);
    AllConcat(ComesAndGoes(Graylog), fluentd, [STARTED]);
    BeginningEnds(cr);
    AllConcat([Load, Upsert(STARTED), Sweep(cr)], ComesAndGoes(Graylog) + fluentd, []);
  }

  lemma BeginningEnds(cr: LoggingService)
    ensures LegalAll([Load, Upsert(STARTED), Sweep(cr)], []) && ActAll([Load, Upsert(STARTED), Sweep(cr)], []) == [STARTED]
  {
    assert Kept(cr, [STARTED]) == [STARTED];
    OneMore(Sweep(cr), [], [STARTED], [STARTED]);
    OneMore(Upsert(STARTED), [Sweep(cr)], [], [STARTED]);
    OneMore(Load, [Upsert(STARTED), Sweep(cr)], [], []);
    assert [Load] + [Upsert(STARTED), Sweep(cr)] == [Load, Upsert(STARTED), Sweep(cr)];
  }

  /** What that cycle leaves is a list on which the two differ. The next cycle reads it, keeps the
      failed cycle status and sweeps: the failure of the events reader is lost, and the stale one
      of the forwarder and aggregator, which the sweep means to drop, survives. */
  lemma SweepCanLoseFailure(cr: LoggingService)
    requires cr.eventsReader
    ensures Legal(Resource([], []), Patched(FailingCycle(cr)))
    ensures var r := Replay(Resource([], []), Patched(FailingCycle(cr)));
            && r.mem == r.stored == [FAILED, HA_FAILED, READER_FAILED]
            && Kept(cr, r.stored) == [FAILED, READER_FAILED] && Swept(cr, r.stored) == [FAILED, HA_FAILED]
  {
    FailingCycleEnds(cr);
    PatchedRun([], [], FailingCycle(cr));
    assert [] + Patched(FailingCycle(cr)) == Patched(FailingCycle(cr));
    KeptOfThree(cr, FAILED, HA_FAILED, READER_FAILED);
  }

  lemma KeptOfThree(cr: LoggingService, a: Condition, b: Condition, c: Condition)
    requires IsKept(cr, a) && !IsKept(cr, b) && IsKept(cr, c)
    ensures Kept(cr, [a, b, c]) == [a, c]
  {
    assert [a, b, c][1..] == [b, c] && [b, c][1..] == [c] && [c][1..] == [];
    assert Kept(cr, [c]) == [c];
    assert Kept(cr, [b, c]) == [c];
  }
}
