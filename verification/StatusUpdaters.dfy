/** The object that owns the condition list. A ghost log records every action, so that the
    lemmas about runs in `Status` speak about every state the list goes through. */
module StatusUpdaters {
  import opened LoggingServiceTypes
  import opened Status

  function Reasons(l: seq<Condition>): set<Reason> {
    set i | 0 <= i < |l| :: l[i].reason
  }

  lemma UpsertedReasons(l: seq<Condition>, c: Condition)
    ensures Reasons(Upserted(l, c)) == Reasons(l) + {c.reason}
    ensures GetCondition(Upserted(l, c), c.reason) >= 0
    ensures c.phase.Failed? ==> IsStatusFailed(Upserted(l, c), c.reason)
  {
    var r, i := Upserted(l, c), GetCondition(l, c.reason);
    if i < 0 {
      assert r[|l|] == c;
      assert forall k | 0 <= k < |l| :: r[k] == l[k];
    } else {
      assert forall k | 0 <= k < |l| && k != i :: r[k] == l[k];
      assert r[i].reason == c.reason;
    }
  }

  lemma RemovedReasons(l: seq<Condition>, reason: Reason)
    requires Distinct(l)
    ensures Reasons(Removed(l, reason)) == Reasons(l) - {reason}
  {
    var r, i, n := Removed(l, reason), GetCondition(l, reason), |l| - 1;
    if 0 <= i {
      assert forall k | 0 <= k < n :: r[k] == if k == i then l[n] else l[k];
      forall x | x in Reasons(l) - {reason}
        ensures x in Reasons(r)
      {
        var k :| 0 <= k < |l| && l[k].reason == x;
        assert r[if k == n then i else k].reason == x;
      }
    }
  }

  /** An update touches no failure but that of its own reason, and a failing one not even that. */
  lemma UpsertKeepsFailures(l: seq<Condition>, c: Condition, reason: Reason)
    requires (c.reason != reason || c.phase.Failed?) && IsStatusFailed(l, reason)
    ensures IsStatusFailed(Upserted(l, c), reason)
  {
    var i, r := GetCondition(l, reason), Upserted(l, c);
    assert r[i].reason == reason && forall j | 0 <= j < i :: r[j].reason == l[j].reason;
  }

  lemma RemovalKeepsFailures(l: seq<Condition>, removed: Reason, reason: Reason)
    requires Distinct(l) && removed != reason && IsStatusFailed(l, reason)
    ensures IsStatusFailed(Removed(l, removed), reason)
  {
    var i, k, n, r := GetCondition(l, reason), GetCondition(l, removed), |l| - 1, Removed(l, removed);
    if 0 <= k {
      var at := if i == n then k else i;
      assert r[at] == l[i];
      assert forall j | 0 <= j < n && j != at :: r[j].reason != reason;
    }
  }

  ghost predicate TouchesOnly(a: Action, reasons: set<Reason>) {
    match a
    case Upsert(c) => c.reason in reasons
    case Remove(r) => r in reasons
    case _ => false
  }

  /** The log grew by actions on these reasons only. */
  ghost predicate Extends(was: seq<Op>, now: seq<Op>, reasons: set<Reason>) {
    was <= now && forall i | |was| <= i < |now| :: TouchesOnly(now[i].action, reasons)
  }

  /** The log grew by exactly this action. */
  ghost predicate Logged(was: seq<Op>, now: seq<Op>, action: Action) {
    |now| == |was| + 1 && was <= now && now[|was|].action == action
  }

  class StatusUpdater {
    var conditions: seq<Condition>
    var stored: seq<Condition>
    var clock: int
    ghost var ops: seq<Op>

    ghost predicate Valid()
      reads this
    {
      && Legal(Resource([], []), ops)
      && Replay(Resource([], []), ops) == Resource(conditions, stored)
      && Good(conditions) && Good(stored)
    }

    constructor ()
      ensures Valid() && conditions == [] && stored == [] && ops == []
    {
      conditions, stored, clock, ops := [], [], 0, [];
    }

    /** Ends an action on `was`: sends the list to the API server if it changed (the patch
        may be lost) and logs the action. */
    method Commit(ghost action: Action, ghost was: Resource, isStatusChanged: bool)
      requires Legal(Resource([], []), ops) && Replay(Resource([], []), ops) == was
      requires !action.Load? && LegalOp(was.mem, action)
      requires conditions == Act(action, was.mem) && stored == was.stored
      requires isStatusChanged == Patches(action, was.mem)
      modifies `stored, `ops
      ensures Valid() && Logged(old(ops), ops, action)
    {
      var arrived: bool := *;
      if isStatusChanged && arrived {
        stored := conditions;
      }
      Log(Op(action, arrived), was);
    }

    ghost method Log(op: Op, was: Resource)
      requires Legal(Resource([], []), ops) && Replay(Resource([], []), ops) == was
      requires LegalOp(was.mem, op.action)
      requires Step(was, op) == Resource(conditions, stored)
      modifies `ops
      ensures Valid() && ops == old(ops) + [op]
    {
      LegalExtends(Resource([], []), ops, op);
      ops := ops + [op];
      StatusInvariant(ops);
    }

    /** A new cycle reads the stored resource. */
    method Load()
      requires Valid()
      modifies this
      ensures Valid() && conditions == stored == old(stored)
      ensures Logged(old(ops), ops, Action.Load)
    {
      ghost var was := Resource(conditions, stored);
      conditions := stored;
      Log(Op(Action.Load, true), was);
    }

    method UpdateStatus(reason: Reason, phase: Phase, status: bool, message: string)
      requires Valid()
      requires reason.Cycle? && phase.Failed? ==> message == CYCLE_FAILED && !status
      requires reason.Cycle? && phase.InProgress? ==> !IsStatusFailed(conditions, Cycle)
      requires !reason.Cycle? ==> !reason.MonitoringAgent? && conditions != []
      modifies this
      ensures Valid() && clock >= old(clock)
      ensures conditions == Upserted(old(conditions), Condition(phase, status, reason, message, clock))
      ensures Logged(old(ops), ops, Upsert(Condition(phase, status, reason, message, clock)))
      ensures Reasons(conditions) == Reasons(old(conditions)) + {reason}
    {
      var now: int := *;
      clock := if now < clock then clock else now;
      Apply(Condition(phase, status, reason, message, clock));
    }

    method Apply(condition: Condition)
      requires Valid() && LegalOp(conditions, Upsert(condition))
      modifies `conditions, `stored, `ops
      ensures Valid() && conditions == Upserted(old(conditions), condition)
      ensures Logged(old(ops), ops, Upsert(condition))
      ensures Reasons(conditions) == Reasons(old(conditions)) + {condition.reason}
    {
      ghost var was := Resource(conditions, stored);
      var isStatusChanged := PutCondition(condition);
      UpsertedReasons(was.mem, condition);
      Commit(Upsert(condition), was, isStatusChanged);
    }

    method PutCondition(condition: Condition) returns (isStatusChanged: bool)
      modifies `conditions
      ensures conditions == Upserted(old(conditions), condition)
      ensures isStatusChanged <==> !IsRepeatedFailure(old(conditions), condition)
    {
      var index := GetCondition(conditions, condition.reason);
      isStatusChanged := false;
      if 0 <= index {
        if !(condition.phase.Failed? && IsStatusEqual(condition, conditions[index])) {
          conditions := conditions[index := condition];
          isStatusChanged := true;
        }
      } else {
        conditions := conditions + [condition];
        isStatusChanged := true;
      }
    }

    method RemoveStatus(reason: Reason) returns (found: bool)
      requires Valid() && !reason.Cycle?
      modifies this
      ensures Valid() && clock == old(clock)
      ensures conditions == Removed(old(conditions), reason)
      ensures found <==> 0 <= GetCondition(old(conditions), reason)
      ensures Logged(old(ops), ops, Remove(reason))
      ensures Reasons(conditions) == Reasons(old(conditions)) - {reason}
    {
      ghost var was := Resource(conditions, stored);
      var index := GetCondition(conditions, reason);
      found := 0 <= index;
      if found {
        conditions := conditions[index := conditions[|conditions| - 1]];
        conditions := conditions[..|conditions| - 1];
      }
      RemovedReasons(was.mem, reason);
      Commit(Remove(reason), was, found);
    }

    /** The sweep at the start of a cycle. */
    method RemoveTemporaryStatuses(cr: LoggingService)
      requires Valid()
      modifies this
      ensures Valid() && clock == old(clock)
      ensures conditions == Swept(cr, old(conditions))
      ensures Logged(old(ops), ops, Sweep(cr))
    {
      ghost var was := Resource(conditions, stored);
      var isStatusChanged := CutTemporaryStatuses(cr);
      Commit(Sweep(cr), was, isStatusChanged);
    }

    /** Walks down the list and, for every condition it does not keep, cuts off the last one. */
    method CutTemporaryStatuses(cr: LoggingService) returns (isStatusChanged: bool)
      modifies `conditions
      ensures conditions == Swept(cr, old(conditions))
      ensures isStatusChanged <==> |Kept(cr, old(conditions))| < |old(conditions)|
    {
      ghost var l := conditions;
      isStatusChanged := false;
      var i := |conditions| - 1;
      while 0 <= i
        invariant -1 <= i < |l|
        invariant conditions == l[..i + 1 + |Kept(cr, l[i + 1..])|]
        invariant isStatusChanged <==> |conditions| < |l|
      {
        KeptBefore(cr, l, i);
        if !IsKept(cr, conditions[i]) {
          conditions := conditions[..|conditions| - 1];
          isStatusChanged := true;
        }
        i := i - 1;
      }
      assert l[0..] == l;
    }
  }
}
