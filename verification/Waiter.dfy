/** The wait for pending components (internal/utils/waiter.go): repeated downward passes that
    drop started components by swapping in the last one, until none is left or time is up. */
module Waiter {
  import opened Wrappers
  import S = Status
  import opened StatusUpdaters
  import opened Components

  // In seconds.
  const COMPONENT_PENDING_TIMEOUT := 300
  const INTERVAL := 10
  const INITIAL_DELAY := 5

  /** One answer about one component. */
  datatype Check = Check(component: Component, available: bool)

  datatype WaitEvent = Slept(seconds: nat) | Looked(time: int) | Asked(check: Check) | Unanswered(component: Component)

  /** Time never runs backwards, and a sleep lasts at least as long as asked. A ghost log records
      the sleeps, the looks at the clock, the answers about components and the lack of one. */
  class Clock {
    var now: int
    ghost var log: seq<WaitEvent>

    constructor ()
      ensures log == []
    {
      now, log := 0, [];
    }

    method Now() returns (t: int)
      modifies this
      ensures t == now >= old(now) && log == old(log) + [Looked(t)]
    {
      var elapsed: int := *;
      now := now + if elapsed < 0 then 0 else elapsed;
      t := now;
      log := log + [Looked(t)];
    }

    method Sleep(seconds: nat)
      modifies this
      ensures now >= old(now) + seconds && log == old(log) + [Slept(seconds)]
    {
      var extra: int := *;
      now := now + seconds + if extra < 0 then 0 else extra;
      log := log + [Slept(seconds)];
    }
  }

  /** The components with the given answer. */
  function Answered(checks: seq<Check>, available: bool): seq<Component> {
    if checks == [] then []
    else
      var rest := Answered(checks[..|checks| - 1], available);
      if checks[|checks| - 1].available == available then rest + [checks[|checks| - 1].component] else rest
  }

  lemma AnsweredAppend(checks: seq<Check>, c: Check)
    ensures Answered(checks + [c], c.available) == Answered(checks, c.available) + [c.component]
    ensures Answered(checks + [c], !c.available) == Answered(checks, !c.available)
  {
    assert (checks + [c])[..|checks|] == checks;
  }

  /** The answers split the questions: a component is listed under the answer it got. */
  lemma {:induction false} AnsweredIff(checks: seq<Check>, c: Component, available: bool)
    ensures c in Answered(checks, available) <==> Check(c, available) in checks
    ensures |Answered(checks, true)| + |Answered(checks, false)| == |checks|
  {
    if checks != [] {
      var n := |checks| - 1;
      AnsweredIff(checks[..n], c, available);
      assert checks == checks[..n] + [checks[n]];
    }
  }

  function Questions(checks: seq<Check>): seq<WaitEvent> {
    seq(|checks|, i requires 0 <= i < |checks| => Asked(checks[i]))
  }

  lemma QuestionsAppend(log: seq<WaitEvent>, checks: seq<Check>, c: Check)
    ensures log + Questions(checks + [c]) == log + Questions(checks) + [Asked(c)]
  {
    assert Questions(checks + [c]) == Questions(checks) + [Asked(c)];
  }

  // ------------------------------------------------------------------ rounds of the poll loop

  /** A round: when it began, what was pending, the answers, what is pending after it, and whether
      every question could be answered. */
  datatype Round = Round(at: int, before: seq<Component>, checks: seq<Check>, after: seq<Component>, complete: bool)

  /** A round begins while something is pending and the timeout has not passed. */
  ghost predicate IsRound(start: int, r: Round) {
    r.before != [] && r.at - start < COMPONENT_PENDING_TIMEOUT && PassResult(r.before, r.after, r.checks, r.complete)
  }

  /** Complete rounds, each on what the one before left; `current` is pending after the last. */
  ghost predicate Rounds(start: int, l: seq<Component>, rounds: seq<Round>, current: seq<Component>) {
    if rounds == [] then current == l
    else
      var r := rounds[|rounds| - 1];
      IsRound(start, r) && r.complete && current == r.after && Rounds(start, l, rounds[..|rounds| - 1], r.before)
  }

  /** How the wait for `l` goes: round after round until a question fails, until nothing is
      pending, or else until time is up. */
  ghost predicate Waited(start: int, l: seq<Component>, rounds: seq<Round>, left: seq<Component>, timedOut: bool, failed: bool) {
    if !failed then Rounds(start, l, rounds, left) && (timedOut <==> left != [])
    else
      && rounds != [] && !timedOut
      && var r := rounds[|rounds| - 1];
         IsRound(start, r) && !r.complete && left == r.after && Rounds(start, l, rounds[..|rounds| - 1], r.before)
  }

  /** The question that a pass which is not complete gets no answer to. */
  function NextUnanswered(l: seq<Component>, checks: seq<Check>, complete: bool): seq<WaitEvent> {
    if complete || |checks| >= |l| then [] else [Unanswered(l[|l| - 1 - |checks|])]
  }

  ghost predicate PassLogged(was: seq<WaitEvent>, now: seq<WaitEvent>, l: seq<Component>, checks: seq<Check>, complete: bool) {
    now == if complete then was + Questions(checks) else was + Questions(checks) + NextUnanswered(l, checks, false)
  }

  lemma LastQuestion(l: seq<Component>, i: nat, checks: seq<Check>)
    requires i < |l| && PassOrder(l, i, checks)
    ensures NextUnanswered(l, checks, false) == [Unanswered(l[i])]
  {
  }

  /** Each round looks at the clock, asks, and sleeps if it goes on. */
  function RoundLogged(log: seq<WaitEvent>, r: Round): seq<WaitEvent> {
    var asked := log + [Looked(r.at)] + Questions(r.checks);
    if !r.complete then asked + NextUnanswered(r.before, r.checks, false)
    else if r.after != [] then asked + [Slept(INTERVAL)]
    else asked
  }

  /** The log after these rounds. */
  function LogAfter(log: seq<WaitEvent>, rounds: seq<Round>): seq<WaitEvent> {
    if rounds == [] then log else RoundLogged(LogAfter(log, rounds[..|rounds| - 1]), rounds[|rounds| - 1])
  }

  lemma {:induction false} LogGrows(log: seq<WaitEvent>, rounds: seq<Round>)
    ensures |LogAfter(log, rounds)| >= |log|
  {
    if rounds != [] {
      LogGrows(log, rounds[..|rounds| - 1]);
    }
  }

  /** Since then, a question went unanswered or time ran out. */
  ghost predicate GaveUp(was: int, wasLog: seq<WaitEvent>, now: int, nowLog: seq<WaitEvent>) {
    || now >= was + INITIAL_DELAY + COMPONENT_PENDING_TIMEOUT
    || exists i :: |wasLog| <= i < |nowLog| && nowLog[i].Unanswered?
  }

  /** A wait that failed got no answer to its last question. */
  lemma FailedIsLogged(was: seq<WaitEvent>, now: seq<WaitEvent>, start: int, l: seq<Component>, rounds: seq<Round>, left: seq<Component>, end: int)
    requires Waited(start, l, rounds, left, false, true) && LoggedWait(was, now, start, rounds, false, end)
    ensures |now| > |was| && now[|now| - 1].Unanswered?
  {
    LogGrows(was + [Slept(INITIAL_DELAY), Looked(start)], rounds[..|rounds| - 1]);
  }

  /** The whole wait: a delay, a look at the clock, the rounds, and a last look when time is up. */
  ghost predicate LoggedWait(was: seq<WaitEvent>, now: seq<WaitEvent>, start: int, rounds: seq<Round>, timedOut: bool, end: int) {
    var log := LogAfter(was + [Slept(INITIAL_DELAY), Looked(start)], rounds);
    now == if timedOut then log + [Looked(end)] else log
  }

  /** The components found started, in all rounds. */
  function Started(rounds: seq<Round>): multiset<Component> {
    if rounds == [] then multiset{}
    else Started(rounds[..|rounds| - 1]) + multiset(Answered(rounds[|rounds| - 1].checks, true))
  }

  lemma RoundAppend(start: int, l: seq<Component>, rounds: seq<Round>, r: Round, log: seq<WaitEvent>)
    requires Rounds(start, l, rounds, r.before) && IsRound(start, r)
    ensures r.complete ==> Rounds(start, l, rounds + [r], r.after)
    ensures !r.complete ==> Waited(start, l, rounds + [r], r.after, false, true)
    ensures LogAfter(log, rounds + [r]) == RoundLogged(LogAfter(log, rounds), r)
    ensures Started(rounds + [r]) == Started(rounds) + multiset(Answered(r.checks, true))
  {
    assert (rounds + [r])[..|rounds|] == rounds;
  }

  lemma PassIsLogged(log: seq<WaitEvent>, r: Round, was: seq<WaitEvent>, mid: seq<WaitEvent>)
    requires was == log + [Looked(r.at)] && PassLogged(was, mid, r.before, r.checks, r.complete)
    ensures RoundLogged(log, r) == if r.complete && r.after != [] then mid + [Slept(INTERVAL)] else mid
  {
  }

  lemma {:induction false} RoundsConserve(start: int, l: seq<Component>, rounds: seq<Round>, current: seq<Component>)
    requires Rounds(start, l, rounds, current)
    ensures multiset(current) + Started(rounds) == multiset(l)
  {
    if rounds != [] {
      var r := rounds[|rounds| - 1];
      RoundsConserve(start, l, rounds[..|rounds| - 1], r.before);
    }
  }

  /** A wait that does not fail ends in time exactly if every component was found started in some
      round; otherwise the last round has found the rest waiting. */
  lemma StartedIff(start: int, l: seq<Component>, rounds: seq<Round>, left: seq<Component>, timedOut: bool)
    requires Waited(start, l, rounds, left, timedOut, false)
    ensures !timedOut <==> Started(rounds) == multiset(l)
    ensures forall c | c in left && rounds != [] :: Check(c, false) in rounds[|rounds| - 1].checks
  {
    RoundsConserve(start, l, rounds, left);
    if left != [] {
      assert left[0] in multiset(left);
    }
    if rounds != [] {
      var r := rounds[|rounds| - 1];
      forall c | c in left
        ensures Check(c, false) in r.checks
      {
        AnsweredIff(r.checks, c, false);
        assert c in multiset(left);
      }
    }
  }

  function StatusesOf(l: seq<Component>): set<S.Reason> {
    set c | c in l :: c.status
  }

  /** No component waits under the cycle status or under that of the wait itself. */
  ghost predicate Waitable(l: seq<Component>) {
    forall c | c in l :: !c.status.Cycle? && !c.status.ComponentPending? && !c.status.MonitoringAgent?
  }

  predicate AllFailed(l: seq<Component>, conditions: seq<S.Condition>) {
    forall c | c in l :: S.IsStatusFailed(conditions, c.status)
  }

  lemma PendingStatuses(l: seq<Component>, pending: seq<Component>, started: multiset<Component>)
    requires multiset(pending) + started == multiset(l) && Waitable(l)
    ensures Waitable(pending) && StatusesOf(pending) <= StatusesOf(l)
  {
    forall c | c in pending
      ensures c in l
    {
      assert c in multiset(pending);
      assert c in multiset(l);
    }
  }

  class ComponentsPendingReconciler {
    const ctx: Context
    const clock: Clock

    constructor (ctx: Context, clock: Clock)
      ensures this.ctx == ctx && this.clock == clock
    {
      this.ctx, this.clock := ctx, clock;
    }

    /** IsDaemonSetAvailable or IsDeploymentReplicasSynchronised, as the component asks. */
    method IsAvailable(component: Component) returns (available: bool, err: Option<string>)
      modifies clock`log
      ensures clock.log == old(clock.log) + [if err.None? then Asked(Check(component, available)) else Unanswered(component)]
    {
      available := *;
      var failed: bool := *;
      if failed {
        clock.log := clock.log + [Unanswered(component)];
        return available, Some("cannot read the component");
      }
      err := None;
      clock.log := clock.log + [Asked(Check(component, available))];
    }

    /** One pass over the list, from its end to its start: every component is asked exactly
        once, and a pass without error leaves exactly those that are not available. */
    method CheckPass() returns (err: Option<string>, ghost checks: seq<Check>)
      requires ctx.status.Valid() && S.Cycle !in StatusesOf(ctx.pending.list)
      modifies ctx.status, ctx.pending, clock`log
      ensures ctx.status.Valid()
      ensures StatusStep(old(ctx.status.conditions), ctx.status.conditions, old(ctx.status.ops), ctx.status.ops, StatusesOf(old(ctx.pending.list)))
      ensures PassStatuses(checks, old(ctx.status.conditions), ctx.status.conditions)
      ensures PassResult(old(ctx.pending.list), ctx.pending.list, checks, err.None?)
      ensures PassLogged(old(clock.log), clock.log, old(ctx.pending.list), checks, err.None?)
    {
      ghost var l, waiting: seq<Component> := ctx.pending.list, [];
      ghost var conditions, ops, log := ctx.status.conditions, ctx.status.ops, clock.log;
      checks := [];
      var i := |ctx.pending.list| - 1;
      assert l[..|l|] + [] == l && l[|l|..] == [];
      while 0 <= i
        invariant PassAt(l, ctx.pending.list, i, waiting, checks)
        invariant ctx.status.Valid() && clock.log == log + Questions(checks)
        invariant StatusStep(conditions, ctx.status.conditions, ops, ctx.status.ops, StatusesOf(l))
        invariant PassStatuses(checks, conditions, ctx.status.conditions)
      {
        err, waiting, checks := CheckAt(i, l, waiting, checks, conditions, ops, log);
        if err.Some? {
          PassEnds(l, ctx.pending.list, i, waiting, checks);
          LastQuestion(l, i, checks);
          return;
        }
        i := i - 1;
      }
      PassEnds(l, ctx.pending.list, -1, waiting, checks);
      err := None;
    }

    /** Time is up: every component still pending is marked failed. */
    method MarkPending()
      requires ctx.status.Valid() && S.Cycle in Reasons(ctx.status.conditions) && Waitable(ctx.pending.list)
      modifies ctx.status
      ensures ctx.status.Valid()
      ensures StatusStep(old(ctx.status.conditions), ctx.status.conditions, old(ctx.status.ops), ctx.status.ops, StatusesOf(ctx.pending.list))
      ensures forall c | c in ctx.pending.list :: S.IsStatusFailed(ctx.status.conditions, c.status)
    {
      ghost var conditions, ops, statuses := ctx.status.conditions, ctx.status.ops, StatusesOf(ctx.pending.list);
      for i := 0 to |ctx.pending.list|
        invariant ctx.status.Valid() && StatusStep(conditions, ctx.status.conditions, ops, ctx.status.ops, statuses)
        invariant AllFailed(ctx.pending.list[..i], ctx.status.conditions)
      {
        assert ctx.pending.list[..i + 1] == ctx.pending.list[..i] + [ctx.pending.list[i]];
        MarkOne(ctx.pending.list[i], ctx.pending.list[..i], conditions, ops, statuses);
      }
      assert ctx.pending.list[..|ctx.pending.list|] == ctx.pending.list;
    }

    method MarkOne(c: Component, ghost marked: seq<Component>, ghost conditions: seq<S.Condition>, ghost ops: seq<S.Op>, ghost statuses: set<S.Reason>)
      requires ctx.status.Valid() && S.Cycle in Reasons(ctx.status.conditions) && Waitable([c]) && c.status in statuses
      requires StatusStep(conditions, ctx.status.conditions, ops, ctx.status.ops, statuses)
      requires AllFailed(marked, ctx.status.conditions)
      modifies ctx.status
      ensures ctx.status.Valid()
      ensures StatusStep(conditions, ctx.status.conditions, ops, ctx.status.ops, statuses)
      ensures AllFailed(marked + [c], ctx.status.conditions)
    {
      ghost var conditions1, ops1 := ctx.status.conditions, ctx.status.ops;
      assert c in [c];
      FailStatus(ctx.status, c.status, "Reason: the component is not started");
      StatusStepCompose(conditions, conditions1, ctx.status.conditions, ops, ops1, ctx.status.ops, statuses, {c.status});
    }

    /** The poll loop. It ends when nothing is pending, when a question fails, or when the
        timeout has passed at the start of a round. */
    method Poll() returns (timedOut: bool, err: Option<string>, ghost start: int, ghost rounds: seq<Round>)
      requires ctx.status.Valid() && S.Cycle in Reasons(ctx.status.conditions) && Waitable(ctx.pending.list)
      modifies ctx.status, ctx.pending, clock
      ensures ctx.status.Valid()
      ensures StatusStep(old(ctx.status.conditions), ctx.status.conditions, old(ctx.status.ops), ctx.status.ops, StatusesOf(old(ctx.pending.list)))
      ensures multiset(ctx.pending.list) + Started(rounds) == multiset(old(ctx.pending.list))
      ensures forall c | c in Started(rounds) :: c.status !in Reasons(ctx.status.conditions)
      ensures Waited(start, old(ctx.pending.list), rounds, ctx.pending.list, timedOut, err.Some?)
      ensures |rounds| <= COMPONENT_PENDING_TIMEOUT / INTERVAL
      ensures start >= old(clock.now) + INITIAL_DELAY && (timedOut ==> clock.now - start >= COMPONENT_PENDING_TIMEOUT)
      ensures LoggedWait(old(clock.log), clock.log, start, rounds, timedOut, clock.now)
    {
      ghost var conditions, ops, l := ctx.status.conditions, ctx.status.ops, ctx.pending.list;
      clock.Sleep(INITIAL_DELAY);
      var begun := clock.Now();
      start, rounds, timedOut, err := begun, [], false, None;
      ghost var log := old(clock.log) + [Slept(INITIAL_DELAY), Looked(start)];
      while ctx.pending.list != []
        invariant !timedOut && err.None?
        invariant ctx.status.Valid() && StatusStep(conditions, ctx.status.conditions, ops, ctx.status.ops, StatusesOf(l))
        invariant multiset(ctx.pending.list) + Started(rounds) == multiset(l)
        invariant forall c | c in Started(rounds) :: c.status !in Reasons(ctx.status.conditions)
        invariant Rounds(start, l, rounds, ctx.pending.list) && clock.log == LogAfter(log, rounds)
        invariant clock.now >= start + INTERVAL * |rounds| && |rounds| <= COMPONENT_PENDING_TIMEOUT / INTERVAL
        decreases COMPONENT_PENDING_TIMEOUT - (clock.now - start)
      {
        var now := clock.Now();
        if COMPONENT_PENDING_TIMEOUT <= now - begun {
          timedOut := true;
          return;
        }
        ghost var done := rounds;
        err, rounds := PollRound(now, start, l, done, conditions, ops, log);
        if err.Some? || ctx.pending.list == [] {
          return;
        }
      }
    }

    /** A round that began at `now`, and the pause if it goes on. */
    method PollRound(ghost now: int, ghost start: int, ghost l: seq<Component>, ghost rounds: seq<Round>,
                     ghost conditions: seq<S.Condition>, ghost ops: seq<S.Op>, ghost log: seq<WaitEvent>)
      returns (err: Option<string>, ghost rounds': seq<Round>)
      requires ctx.status.Valid() && Waitable(l) && multiset(ctx.pending.list) + Started(rounds) == multiset(l)
      requires StatusStep(conditions, ctx.status.conditions, ops, ctx.status.ops, StatusesOf(l))
      requires forall c | c in Started(rounds) :: c.status !in Reasons(ctx.status.conditions)
      requires Rounds(start, l, rounds, ctx.pending.list) && ctx.pending.list != [] && now - start < COMPONENT_PENDING_TIMEOUT
      requires clock.log == LogAfter(log, rounds) + [Looked(now)]
      modifies ctx.status, ctx.pending, clock
      ensures ctx.status.Valid() && multiset(ctx.pending.list) + Started(rounds') == multiset(l)
      ensures StatusStep(conditions, ctx.status.conditions, ops, ctx.status.ops, StatusesOf(l))
      ensures forall c | c in Started(rounds') :: c.status !in Reasons(ctx.status.conditions)
      ensures if err.None? then Rounds(start, l, rounds', ctx.pending.list) else Waited(start, l, rounds', ctx.pending.list, false, true)
      ensures |rounds'| == |rounds| + 1 && clock.log == LogAfter(log, rounds')
      ensures clock.now >= old(clock.now) + if err.None? && ctx.pending.list != [] then INTERVAL else 0
    {
      err, rounds' := AskRound(now, start, l, rounds, conditions, ops, log);
      if err.None? && ctx.pending.list != [] {
        clock.Sleep(INTERVAL);
      }
    }

    method AskRound(ghost now: int, ghost start: int, ghost l: seq<Component>, ghost rounds: seq<Round>,
                     ghost conditions: seq<S.Condition>, ghost ops: seq<S.Op>, ghost log: seq<WaitEvent>)
      returns (err: Option<string>, ghost rounds': seq<Round>)
      requires ctx.status.Valid() && Waitable(l) && multiset(ctx.pending.list) + Started(rounds) == multiset(l)
      requires StatusStep(conditions, ctx.status.conditions, ops, ctx.status.ops, StatusesOf(l))
      requires forall c | c in Started(rounds) :: c.status !in Reasons(ctx.status.conditions)
      requires Rounds(start, l, rounds, ctx.pending.list) && ctx.pending.list != [] && now - start < COMPONENT_PENDING_TIMEOUT
      requires clock.log == LogAfter(log, rounds) + [Looked(now)]
      modifies ctx.status, ctx.pending, clock`log
      ensures ctx.status.Valid() && multiset(ctx.pending.list) + Started(rounds') == multiset(l)
      ensures StatusStep(conditions, ctx.status.conditions, ops, ctx.status.ops, StatusesOf(l))
      ensures forall c | c in Started(rounds') :: c.status !in Reasons(ctx.status.conditions)
      ensures if err.None? then Rounds(start, l, rounds', ctx.pending.list) else Waited(start, l, rounds', ctx.pending.list, false, true)
      ensures |rounds'| == |rounds| + 1
      ensures LogAfter(log, rounds') == if err.None? && ctx.pending.list != [] then clock.log + [Slept(INTERVAL)] else clock.log
    {
      ghost var list, checks, was := ctx.pending.list, [], clock.log;
      err, checks := PollPass(l, rounds, conditions, ops);
      ghost var r := Round(now, list, checks, ctx.pending.list, err.None?);
      rounds' := rounds + [r];
      RoundAppend(start, l, rounds, r, log);
      PassIsLogged(LogAfter(log, rounds), r, was, clock.log);
    }

    /** The questions of a round of the poll loop, which began with the components `l`. */
    method PollPass(ghost l: seq<Component>, ghost rounds: seq<Round>, ghost conditions: seq<S.Condition>, ghost ops: seq<S.Op>)
      returns (err: Option<string>, ghost checks: seq<Check>)
      requires ctx.status.Valid() && Waitable(l) && multiset(ctx.pending.list) + Started(rounds) == multiset(l)
      requires StatusStep(conditions, ctx.status.conditions, ops, ctx.status.ops, StatusesOf(l))
      requires forall c | c in Started(rounds) :: c.status !in Reasons(ctx.status.conditions)
      modifies ctx.status, ctx.pending, clock`log
      ensures ctx.status.Valid()
      ensures PassLogged(old(clock.log), clock.log, old(ctx.pending.list), checks, err.None?)
      ensures PassResult(old(ctx.pending.list), ctx.pending.list, checks, err.None?)
      ensures StatusStep(conditions, ctx.status.conditions, ops, ctx.status.ops, StatusesOf(l))
      ensures multiset(ctx.pending.list) + (Started(rounds) + multiset(Answered(checks, true))) == multiset(l)
      ensures forall c | c in Started(rounds) + multiset(Answered(checks, true)) :: c.status !in Reasons(ctx.status.conditions)
    {
      ghost var list, conditions1, ops1 := ctx.pending.list, ctx.status.conditions, ctx.status.ops;
      PendingStatuses(l, list, Started(rounds));
      err, checks := CheckPass();
      StatusStepCompose(conditions, conditions1, ctx.status.conditions, ops, ops1, ctx.status.ops, StatusesOf(l), StatusesOf(list));
    }

    /** The poll loop and, when it times out, the failures. */
    method Await() returns (isStatusSuccess: bool, err: Option<string>, ghost start: int, ghost rounds: seq<Round>)
      requires ctx.status.Valid() && S.Cycle in Reasons(ctx.status.conditions) && Waitable(ctx.pending.list)
      modifies ctx.status, ctx.pending, clock
      ensures ctx.status.Valid()
      ensures StatusStep(old(ctx.status.conditions), ctx.status.conditions, old(ctx.status.ops), ctx.status.ops, StatusesOf(old(ctx.pending.list)))
      ensures multiset(ctx.pending.list) + Started(rounds) == multiset(old(ctx.pending.list))
      ensures |rounds| <= COMPONENT_PENDING_TIMEOUT / INTERVAL
      ensures Waited(start, old(ctx.pending.list), rounds, ctx.pending.list, err.None? && !isStatusSuccess, err.Some?)
      ensures err.None? && isStatusSuccess ==> forall c | c in Started(rounds) :: c.status !in Reasons(ctx.status.conditions)
      ensures !isStatusSuccess ==> GaveUp(old(clock.now), old(clock.log), clock.now, clock.log)
      ensures err.None? && !isStatusSuccess ==> forall c | c in ctx.pending.list :: S.IsStatusFailed(ctx.status.conditions, c.status)
      ensures err.Some? ==> !isStatusSuccess
      ensures LoggedWait(old(clock.log), clock.log, start, rounds, err.None? && !isStatusSuccess, clock.now)
    {
      ghost var conditions, ops, l := ctx.status.conditions, ctx.status.ops, ctx.pending.list;
      var timedOut: bool;
      timedOut, err, start, rounds := Poll();
      isStatusSuccess := err.None? && !timedOut;
      if err.None? && timedOut {
        ghost var conditions1, ops1 := ctx.status.conditions, ctx.status.ops;
        PendingStatuses(l, ctx.pending.list, Started(rounds));
        MarkPending();
        StatusStepCompose(conditions, conditions1, ctx.status.conditions, ops, ops1, ctx.status.ops, StatusesOf(l), StatusesOf(ctx.pending.list));
      }
      if err.Some? {
        FailedIsLogged(old(clock.log), clock.log, start, l, rounds, ctx.pending.list, clock.now);
      }
    }

    /** The wait, unless nothing is pending. */
    method AwaitPending() returns (isStatusSuccess: bool, err: Option<string>, ghost start: int, ghost rounds: seq<Round>)
      requires ctx.status.Valid() && S.Cycle in Reasons(ctx.status.conditions) && Waitable(ctx.pending.list)
      modifies ctx.status, ctx.pending, clock
      ensures ctx.status.Valid()
      ensures StatusStep(old(ctx.status.conditions), ctx.status.conditions, old(ctx.status.ops), ctx.status.ops, StatusesOf(old(ctx.pending.list)))
      ensures multiset(ctx.pending.list) + Started(rounds) == multiset(old(ctx.pending.list))
      ensures |rounds| <= COMPONENT_PENDING_TIMEOUT / INTERVAL
      ensures Waited(start, old(ctx.pending.list), rounds, ctx.pending.list, err.None? && !isStatusSuccess, err.Some?)
      ensures err.None? && isStatusSuccess ==> forall c | c in Started(rounds) :: c.status !in Reasons(ctx.status.conditions)
      ensures !isStatusSuccess ==> GaveUp(old(clock.now), old(clock.log), clock.now, clock.log)
      ensures err.None? && !isStatusSuccess ==> forall c | c in ctx.pending.list :: S.IsStatusFailed(ctx.status.conditions, c.status)
      ensures err.Some? ==> !isStatusSuccess
      ensures if old(ctx.pending.list) == [] then clock.log == old(clock.log)
              else LoggedWait(old(clock.log), clock.log, start, rounds, err.None? && !isStatusSuccess, clock.now)
    {
      if ctx.pending.list == [] {
        return true, None, clock.now, [];
      }
      isStatusSuccess, err, start, rounds := Await();
    }

    /** An error-free return reports success exactly when nothing is pending any more. Then no
        waited-for component has a status left; otherwise every pending one is failed. */
    method Run() returns (isStatusSuccess: bool, err: Option<string>, ghost start: int, ghost rounds: seq<Round>)
      requires ctx.status.Valid() && S.Cycle in Reasons(ctx.status.conditions) && Waitable(ctx.pending.list)
      modifies ctx.status, ctx.pending, clock
      ensures ctx.status.Valid()
      ensures StatusStep(old(ctx.status.conditions), ctx.status.conditions, old(ctx.status.ops), ctx.status.ops,
                         StatusesOf(old(ctx.pending.list)) + {S.ComponentPending})
      ensures multiset(ctx.pending.list) + Started(rounds) == multiset(old(ctx.pending.list))
      ensures |rounds| <= COMPONENT_PENDING_TIMEOUT / INTERVAL
      ensures Waited(start, old(ctx.pending.list), rounds, ctx.pending.list, err.None? && !isStatusSuccess, err.Some?)
      ensures err.None? ==> (isStatusSuccess <==> ctx.pending.list == [])
      ensures err.None? ==> S.ComponentPending !in Reasons(ctx.status.conditions)
      ensures err.None? && isStatusSuccess ==> forall c | c in Started(rounds) :: c.status !in Reasons(ctx.status.conditions)
      ensures !isStatusSuccess ==> GaveUp(old(clock.now), old(clock.log), clock.now, clock.log)
      ensures err.None? && !isStatusSuccess ==> forall c | c in ctx.pending.list :: S.IsStatusFailed(ctx.status.conditions, c.status)
      ensures err.Some? ==> !isStatusSuccess
      ensures if old(ctx.pending.list) == [] then clock.log == old(clock.log)
              else LoggedWait(old(clock.log), clock.log, start, rounds, err.None? && !isStatusSuccess, clock.now)
    {
      ghost var conditions, ops := ctx.status.conditions, ctx.status.ops;
      ghost var all := StatusesOf(ctx.pending.list) + {S.ComponentPending};
      StartStatus(ctx.status, S.ComponentPending, "Start reconcile of ComponentsPending");
      ghost var conditions1, ops1 := ctx.status.conditions, ctx.status.ops;
      StatusStepCompose(conditions, conditions, conditions1, ops, ops, ops1, all, {S.ComponentPending});
      ghost var statuses := StatusesOf(ctx.pending.list);
      isStatusSuccess, err, start, rounds := AwaitPending();
      StatusStepCompose(conditions, conditions1, ctx.status.conditions, ops, ops1, ctx.status.ops, all, statuses);
      if err.Some? {
        return;
      }
      PendingStatuses(old(ctx.pending.list), ctx.pending.list, Started(rounds));
      conditions1, ops1 := ctx.status.conditions, ctx.status.ops;
      DropStatus(ctx.status, S.ComponentPending);
      StatusStepCompose(conditions, conditions1, ctx.status.conditions, ops, ops1, ctx.status.ops, all, {S.ComponentPending});
    }

    /** Step `i` of a pass over `l`. */
    method CheckAt(i: nat, ghost l: seq<Component>, ghost waiting: seq<Component>, ghost checks: seq<Check>,
                   ghost conditions: seq<S.Condition>, ghost ops: seq<S.Op>, ghost log: seq<WaitEvent>)
      returns (err: Option<string>, ghost waiting': seq<Component>, ghost checks': seq<Check>)
      requires PassAt(l, ctx.pending.list, i, waiting, checks)
      requires ctx.status.Valid() && S.Cycle !in StatusesOf(l)
      requires StatusStep(conditions, ctx.status.conditions, ops, ctx.status.ops, StatusesOf(l))
      requires PassStatuses(checks, conditions, ctx.status.conditions) && clock.log == log + Questions(checks)
      modifies ctx.status, ctx.pending, clock`log
      ensures PassAt(l, ctx.pending.list, if err.None? then i - 1 else i, waiting', checks')
      ensures ctx.status.Valid()
      ensures StatusStep(conditions, ctx.status.conditions, ops, ctx.status.ops, StatusesOf(l))
      ensures PassStatuses(checks', conditions, ctx.status.conditions)
      ensures clock.log == if err.None? then log + Questions(checks') else log + Questions(checks') + [Unanswered(l[i])]
    {
      PassAccounts(l, ctx.pending.list, i, waiting, checks);
      ghost var list, conditions1, ops1 := ctx.pending.list, ctx.status.conditions, ctx.status.ops;
      waiting', checks' := waiting, checks;
      var isAvailable: bool;
      isAvailable, err := CheckOne(i);
      if err.None? {
        StatusStepCompose(conditions, conditions1, ctx.status.conditions, ops, ops1, ctx.status.ops, StatusesOf(l), {l[i].status});
        PassAdvances(l, list, i, waiting, checks, isAvailable);
        PassDropsStatus(l[i], checks, isAvailable, conditions, conditions1, ctx.status.conditions);
        waiting' := if isAvailable then Rotated(waiting) else [l[i]] + waiting;
        checks' := checks + [Check(l[i], isAvailable)];
        QuestionsAppend(log, checks, Check(l[i], isAvailable));
      }
    }

    /** Asks about component `i`; one that has started loses its status and leaves the list. */
    method CheckOne(i: nat) returns (isAvailable: bool, err: Option<string>)
      requires i < |ctx.pending.list| && !ctx.pending.list[i].status.Cycle?
      requires ctx.status.Valid()
      modifies ctx.status, ctx.pending, clock`log
      ensures ctx.status.Valid()
      ensures clock.log == old(clock.log) +
                [if err.None? then Asked(Check(old(ctx.pending.list)[i], isAvailable)) else Unanswered(old(ctx.pending.list)[i])]
      ensures StatusStep(old(ctx.status.conditions), ctx.status.conditions, old(ctx.status.ops), ctx.status.ops, {old(ctx.pending.list)[i].status})
      ensures err.Some? ==> ctx.status.conditions == old(ctx.status.conditions) && ctx.status.ops == old(ctx.status.ops) && ctx.pending.list == old(ctx.pending.list)
      ensures err.None? ==>
                Reasons(ctx.status.conditions) ==
                Reasons(old(ctx.status.conditions)) - if isAvailable then {old(ctx.pending.list)[i].status} else {}
      ensures err.None? ==>
                ctx.pending.list == if isAvailable then SwapRemoved(old(ctx.pending.list), i) else old(ctx.pending.list)
    {
      var component := ctx.pending.list[i];
      isAvailable, err := IsAvailable(component);
      if err.None? && isAvailable {
        DropStatus(ctx.status, component.status);
        ctx.pending.SwapRemove(i);
      }
    }
  }

  function SwapRemoved(l: seq<Component>, i: nat): seq<Component>
    requires i < |l|
  {
    l[i := l[|l| - 1]][..|l| - 1]
  }

  function Rotated(l: seq<Component>): seq<Component> {
    if l == [] then [] else [l[|l| - 1]] + l[..|l| - 1]
  }

  /** A pass over `l` that has dealt with the elements after `i`: up to `i` the list is still
      `l`, behind it stand the components found waiting. */
  ghost predicate PassList(l: seq<Component>, current: seq<Component>, i: int, waiting: seq<Component>) {
    -1 <= i < |l| && current == l[..i + 1] + waiting
  }

  /** The elements after `i` are those found started and those found waiting. */
  ghost predicate PassAnswers(l: seq<Component>, i: int, waiting: seq<Component>, checks: seq<Check>)
    requires -1 <= i < |l|
  {
    && multiset(waiting) == multiset(Answered(checks, false))
    && multiset(l[i + 1..]) == multiset(Answered(checks, true)) + multiset(waiting)
  }

  /** The questions asked so far: the elements after `i`, each once, from the end. */
  ghost predicate PassOrder(l: seq<Component>, i: int, checks: seq<Check>)
    requires -1 <= i < |l|
  {
    |checks| == |l| - 1 - i && forall k | 0 <= k < |checks| :: checks[k].component == l[|l| - 1 - k]
  }

  ghost predicate PassAt(l: seq<Component>, current: seq<Component>, i: int, waiting: seq<Component>, checks: seq<Check>) {
    PassList(l, current, i, waiting) && PassAnswers(l, i, waiting, checks) && PassOrder(l, i, checks)
  }

  /** What a pass over `l` comes to: every component asked at most once, from the end, nothing
      lost, and, if the pass is complete, all asked and exactly the unavailable ones left. */
  ghost predicate PassResult(l: seq<Component>, current: seq<Component>, checks: seq<Check>, complete: bool) {
    && multiset(current) + multiset(Answered(checks, true)) == multiset(l)
    && |checks| <= |l|
    && (forall k | 0 <= k < |checks| :: checks[k].component == l[|l| - 1 - k])
    && (if complete then |checks| == |l| && multiset(current) == multiset(Answered(checks, false)) else |checks| < |l|)
  }

  lemma PassEnds(l: seq<Component>, current: seq<Component>, i: int, waiting: seq<Component>, checks: seq<Check>)
    requires PassAt(l, current, i, waiting, checks)
    ensures PassResult(l, current, checks, i == -1)
  {
    PassAccounts(l, current, i, waiting, checks);
    assert l[..0] + waiting == waiting;
  }

  lemma PassAccounts(l: seq<Component>, current: seq<Component>, i: int, waiting: seq<Component>, checks: seq<Check>)
    requires PassList(l, current, i, waiting) && PassAnswers(l, i, waiting, checks)
    ensures multiset(current) + multiset(Answered(checks, true)) == multiset(l)
    ensures 0 <= i ==> current[i] == l[i]
  {
    assert l == l[..i + 1] + l[i + 1..];
  }

  /** Statuses only disappear, and those of the components found started have. */
  ghost predicate PassStatuses(checks: seq<Check>, was: seq<S.Condition>, now: seq<S.Condition>) {
    Reasons(now) <= Reasons(was) && forall c | c in Answered(checks, true) :: c.status !in Reasons(now)
  }

  lemma PassDropsStatus(c: Component, checks: seq<Check>, available: bool, was: seq<S.Condition>, mid: seq<S.Condition>, now: seq<S.Condition>)
    requires PassStatuses(checks, was, mid)
    requires Reasons(now) == Reasons(mid) - if available then {c.status} else {}
    ensures PassStatuses(checks + [Check(c, available)], was, now)
  {
    AnsweredAppend(checks, Check(c, available));
  }

  lemma PassAdvances(l: seq<Component>, current: seq<Component>, i: nat, waiting: seq<Component>, checks: seq<Check>, available: bool)
    requires PassList(l, current, i, waiting) && PassAnswers(l, i, waiting, checks) && PassOrder(l, i, checks)
    ensures var w := if available then Rotated(waiting) else [l[i]] + waiting;
            && PassList(l, if available then SwapRemoved(current, i) else current, i - 1, w)
            && PassAnswers(l, i - 1, w, checks + [Check(l[i], available)])
            && PassOrder(l, i - 1, checks + [Check(l[i], available)])
  {
    if available {
      PassDropsFromList(l, current, i, waiting);
      PassDropsAnswers(l, i, waiting, checks);
    } else {
      PassKeepsList(l, current, i, waiting);
      PassKeepsAnswers(l, i, waiting, checks);
    }
  }

  lemma PassKeepsList(l: seq<Component>, current: seq<Component>, i: nat, waiting: seq<Component>)
    requires PassList(l, current, i, waiting)
    ensures PassList(l, current, i - 1, [l[i]] + waiting)
  {
    assert l[..i + 1] == l[..i] + [l[i]];
  }

  /** Swapping in the last element and cutting it off removes exactly the element checked. */
  lemma PassDropsFromList(l: seq<Component>, current: seq<Component>, i: nat, waiting: seq<Component>)
    requires PassList(l, current, i, waiting)
    ensures PassList(l, SwapRemoved(current, i), i - 1, Rotated(waiting))
  {
    assert SwapRemoved(current, i) == l[..i] + Rotated(waiting);
  }

  lemma PassKeepsAnswers(l: seq<Component>, i: nat, waiting: seq<Component>, checks: seq<Check>)
    requires i < |l| && PassAnswers(l, i, waiting, checks)
    ensures PassAnswers(l, i - 1, [l[i]] + waiting, checks + [Check(l[i], false)])
  {
    AnsweredAppend(checks, Check(l[i], false));
    assert l[i..] == [l[i]] + l[i + 1..];
  }

  lemma PassDropsAnswers(l: seq<Component>, i: nat, waiting: seq<Component>, checks: seq<Check>)
    requires i < |l| && PassAnswers(l, i, waiting, checks)
    ensures PassAnswers(l, i - 1, Rotated(waiting), checks + [Check(l[i], true)])
  {
    AnsweredAppend(checks, Check(l[i], true));
    RotatedIsPermutation(waiting);
    assert l[i..] == [l[i]] + l[i + 1..];
  }

  lemma RotatedIsPermutation(l: seq<Component>)
    ensures multiset(Rotated(l)) == multiset(l)
  {
    if l != [] {
      assert l == l[..|l| - 1] + [l[|l| - 1]];
    }
  }
}
