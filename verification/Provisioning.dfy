/** Graylog content provisioning: index sets, then streams, then processing rules. Each
    stage reads a listing, looks its entities up by title, creates the missing ones and
    updates the existing ones as the deploy policy says. The order inside a stage is
    arbitrary and any request may fail. */
module Provisioning {
  import opened Wrappers
  import opened GraylogTables
  import opened GraylogServer

  /** The contentDeployPolicy values that reach provisioning. "skip" never does. */
  datatype Policy = OnlyCreate | ForceUpdate | OtherPolicy

  datatype Plan = Plan(tables: Tables, enabled: seq<string>, params: string)

  /** Title -> what the entity is rendered from: an asset, an index set title, a stream title. */
  function Targets(p: Plan, c: Collection): map<string, string>
    requires Agree(p.tables)
  {
    match c
    case IndexSets => IndexTargets(p.tables, p.enabled)
    case Streams => StreamTargets(p.tables, p.enabled)
    case Rules => RuleTargets(p.tables, p.enabled)
  }

  /** The titles whose existing entities a run rewrites. */
  function Updates(p: Plan, policy: Policy, c: Collection): set<string>
    requires Agree(p.tables)
  {
    if policy.ForceUpdate? then Targets(p, c).Keys
    else if c.IndexSets? then {p.tables.defaultIndexSet}
    else {}
  }

  /** The titles a completed run leaves in place. */
  function Provided(p: Plan, policy: Policy, c: Collection): set<string>
    requires Agree(p.tables)
  {
    if policy.OtherPolicy? && c.Rules? then {} else Targets(p, c).Keys
  }

  /** The collection whose ids the bodies of `c` refer to. */
  function Refs(c: Collection, db: Store): Table {
    match c
    case IndexSets => map[]
    case Streams => db.indexSets
    case Rules => db.streams
  }

  // ------------------------------------------------------------------ relations on tables

  ghost predicate HasTitle(t: Table, title: string) {
    exists id :: id in t && t[id].title == title
  }

  /** `e` is what the operator renders: it refers only to existing entities, and to the
      ones its title asks for. */
  ghost predicate GoodEntry(p: Plan, c: Collection, e: Entry, refs: Table)
    requires Agree(p.tables)
  {
    && e.title in Targets(p, c)
    && match c
       case IndexSets => e.body == IndexSetBody(Targets(p, c)[e.title], p.params)
       case Streams =>
         && e.body.StreamBody? && e.body.indexSetId != NO_ID && e.body.indexSetId in refs
         && refs[e.body.indexSetId].title == Targets(p, c)[e.title]
       case Rules =>
         && e.body.RuleBody? && e.body.streamId != NO_ID && e.body.streamId in refs
         && e.title in p.tables.ruleConfigs && e.body.asset == p.tables.ruleConfigs[e.title]
         && (refs[e.body.streamId].title == Targets(p, c)[e.title] ||
             (Targets(p, c)[e.title] == p.tables.defaultStream && refs[e.body.streamId].title == p.tables.allMessagesStream))
  }

  /** How a collection may change, whether or not a run completes: nothing disappears or
      is renamed, only updatable bodies change, and a title is created at most once and
      only if it was missing. */
  ghost predicate Evolves(p: Plan, c: Collection, updates: set<string>, before: Table, after: Table, refs: Table)
    requires Agree(p.tables)
  {
    && before.Keys <= after.Keys
    && (forall id | id in before ::
          && after[id].title == before[id].title
          && (after[id] == before[id] || (before[id].title in updates && GoodEntry(p, c, after[id], refs))))
    && (forall id | id in after && id !in before ::
          GoodEntry(p, c, after[id], refs) && !HasTitle(before, after[id].title))
    && (forall id, id' | id in after && id !in before && id' in after && id' !in before ::
          after[id].title == after[id'].title ==> id == id')
  }

  /** The title is present, and carries a freshly rendered entity if it had to be created
      or updated. */
  ghost predicate SettledAt(p: Plan, c: Collection, updates: set<string>, k: string, before: Table, after: Table, refs: Table)
    requires Agree(p.tables)
  {
    && HasTitle(after, k)
    && ((k in updates || !HasTitle(before, k)) ==> HasGood(p, c, k, after, refs))
  }

  ghost predicate Settled(p: Plan, c: Collection, updates: set<string>, titles: set<string>, before: Table, after: Table, refs: Table)
    requires Agree(p.tables)
  {
    forall k | k in titles :: SettledAt(p, c, updates, k, before, after, refs)
  }

  ghost predicate HasGood(p: Plan, c: Collection, title: string, t: Table, refs: Table)
    requires Agree(p.tables)
  {
    exists id :: id in t && t[id].title == title && GoodEntry(p, c, t[id], refs)
  }

  ghost predicate AllPresent(titles: set<string>, t: Table) {
    forall k | k in titles :: HasTitle(t, k)
  }

  ghost predicate NewTitlesIn(before: Table, after: Table, titles: set<string>) {
    forall id | id in after && id !in before :: after[id].title in titles
  }

  /** A create or update of one entity; `before` is the table the listing showed. */
  ghost predicate Writable(p: Plan, c: Collection, updates: set<string>, before: Table, now: Table, refs: Table, id: Id, e: Entry)
    requires Agree(p.tables)
  {
    && GoodEntry(p, c, e, refs)
    && ((id !in now && !HasTitle(before, e.title)) || (id in before && before[id].title == e.title && e.title in updates))
  }

  ghost predicate OneStep(p: Plan, c: Collection, updates: set<string>, k: string, before: Table, now: Table, next: Table, refs: Table)
    requires Agree(p.tables)
  {
    || next == now
    || exists id: Id, e: Entry :: e.title == k && Writable(p, c, updates, before, now, refs, id, e) && next == now[id := e]
  }

  /** A listing of `t` answers lookups exactly. */
  lemma ListingLookup(es: seq<Entity>, t: Table, title: string)
    requires Lists(es, t) && NO_ID !in t
    ensures GetIdByTitle(es, title) == NO_ID <==> !HasTitle(t, title)
    ensures GetIdByTitle(es, title) != NO_ID ==> GetIdByTitle(es, title) in t && t[GetIdByTitle(es, title)].title == title
  {
    if HasTitle(t, title) {
      var id :| id in t && t[id].title == title;
      assert Entity(id, title) in es;
    }
  }

  // ------------------------------------------------------------------ one stage

  /** Collection `c` has evolved since `was` and the other two are as they were. */
  ghost predicate Evolved(p: Plan, policy: Policy, c: Collection, was: Store, now: Store)
    requires Agree(p.tables)
  {
    && now == was.With(c, now.Get(c))
    && Evolves(p, c, Updates(p, policy, c), was.Get(c), now.Get(c), Refs(c, was))
  }

  /** A stage that started from `was` has dealt with the titles in `done` and no others. */
  ghost predicate Underway(p: Plan, policy: Policy, c: Collection, done: set<string>, was: Store, now: Store)
    requires Agree(p.tables)
  {
    && Evolved(p, policy, c, was, now)
    && NewTitlesIn(was.Get(c), now.Get(c), done)
    && Settled(p, c, Updates(p, policy, c), done, was.Get(c), now.Get(c), Refs(c, was))
  }

  /** The stage has gone from `now` to `next` by dealing with title `k`, in full if `ok`. */
  ghost predicate Stepped(p: Plan, policy: Policy, c: Collection, k: string, was: Store, now: Store, next: Store, ok: bool)
    requires Agree(p.tables)
  {
    && next == now.With(c, next.Get(c))
    && OneStep(p, c, Updates(p, policy, c), k, was.Get(c), now.Get(c), next.Get(c), Refs(c, was))
    && (ok ==> SettledAt(p, c, Updates(p, policy, c), k, was.Get(c), next.Get(c), Refs(c, was)))
  }

  lemma OneLessToDo<T>(all: set<T>, todo: set<T>, k: T)
    requires k in todo && todo <= all
    ensures all - todo + {k} == all - (todo - {k})
  {
  }

  lemma UnderwayStep(p: Plan, policy: Policy, c: Collection, k: string, done: set<string>, was: Store, now: Store, next: Store, ok: bool)
    requires Agree(p.tables)
    requires Underway(p, policy, c, done, was, now) && k !in done
    requires Stepped(p, policy, c, k, was, now, next, ok)
    ensures Evolved(p, policy, c, was, next)
    ensures ok ==> Underway(p, policy, c, done + {k}, was, next)
  {
    var updates, refs := Updates(p, policy, c), Refs(c, was);
    if next.Get(c) != now.Get(c) {
      var id: Id, e: Entry :| e.title == k && Writable(p, c, updates, was.Get(c), now.Get(c), refs, id, e)
        && next.Get(c) == now.Get(c)[id := e];
      EvolvesWrite(p, c, updates, done, was.Get(c), now.Get(c), refs, id, e);
      SettledWrite(p, c, updates, done, was.Get(c), now.Get(c), refs, id, e);
    }
  }

  lemma EvolvedKeepsTitle(p: Plan, policy: Policy, c: Collection, k: string, was: Store, now: Store)
    requires Agree(p.tables)
    requires Evolved(p, policy, c, was, now) && HasTitle(was.Get(c), k)
    ensures HasTitle(now.Get(c), k)
  {
    var id :| id in was.Get(c) && was.Get(c)[id].title == k;
    assert now.Get(c)[id].title == k;
  }

  lemma EvolvesWrite(p: Plan, c: Collection, updates: set<string>, done: set<string>, before: Table, now: Table, refs: Table, id: Id, e: Entry)
    requires Agree(p.tables)
    requires Evolves(p, c, updates, before, now, refs) && NewTitlesIn(before, now, done)
    requires e.title !in done && Writable(p, c, updates, before, now, refs, id, e)
    ensures Evolves(p, c, updates, before, now[id := e], refs) && NewTitlesIn(before, now[id := e], done + {e.title})
  {
  }

  lemma SettledWrite(p: Plan, c: Collection, updates: set<string>, done: set<string>, before: Table, now: Table, refs: Table, id: Id, e: Entry)
    requires Agree(p.tables)
    requires Evolves(p, c, updates, before, now, refs) && Settled(p, c, updates, done, before, now, refs)
    requires e.title !in done && Writable(p, c, updates, before, now, refs, id, e)
    ensures Settled(p, c, updates, done, before, now[id := e], refs)
  {
    var next := now[id := e];
    forall t | t in done
      ensures SettledAt(p, c, updates, t, before, next, refs)
    {
      assert SettledAt(p, c, updates, t, before, now, refs);
      var x :| x in now && now[x].title == t;
      assert x in next && next[x].title == t;
      if t in updates || !HasTitle(before, t) {
        assert HasGood(p, c, t, now, refs);
        var y :| y in now && now[y].title == t && GoodEntry(p, c, now[y], refs);
        assert y in next && next[y].title == t;
      }
    }
  }

  // ------------------------------------------------------------------ relations on runs

  /** What one run may do to the server, aborted or not. */
  ghost predicate RunEvolves(p: Plan, policy: Policy, before: Store, after: Store)
    requires Agree(p.tables)
  {
    && (forall c: Collection :: Evolves(p, c, Updates(p, policy, c), before.Get(c), after.Get(c), Refs(c, after)))
    && (policy.OtherPolicy? ==> after.streams == before.streams && after.rules == before.rules)
    && NoNewDefault(p, before.indexSets, after.indexSets)
  }

  /** The default index set is only ever found. */
  ghost predicate NoNewDefault(p: Plan, before: Table, after: Table) {
    HasTitle(after, p.tables.defaultIndexSet) ==> HasTitle(before, p.tables.defaultIndexSet)
  }

  lemma IdleRunEvolves(p: Plan, policy: Policy, s: Store)
    requires Agree(p.tables)
    ensures RunEvolves(p, policy, s, s)
  {
  }

  /** What a run that returned no error has reached. */
  ghost predicate RunSettled(p: Plan, policy: Policy, before: Store, after: Store)
    requires Agree(p.tables)
  {
    forall c: Collection ::
      Settled(p, c, Updates(p, policy, c), Provided(p, policy, c), before.Get(c), after.Get(c), Refs(c, after))
  }

  /** What a request may carry. A stream body names an existing index set, a rule source an
      existing stream, and a resume an existing stream. The one exception is a resume with
      the empty id, which needs a policy that creates no streams and a wanted stream that
      does not exist. */
  ghost predicate GoodRequest(p: Plan, policy: Policy, s: Sent)
    requires Agree(p.tables)
  {
    match s.request
    case Save(c, e) => GoodEntry(p, c, e, Refs(c, s.db))
    case Resume(id) => id in s.db.streams || (id == NO_ID && policy.OtherPolicy? && !AllPresent(Targets(p, Streams).Keys, s.db.streams))
  }

  ghost predicate GoodRequests(p: Plan, policy: Policy, before: seq<Sent>, after: seq<Sent>)
    requires Agree(p.tables)
  {
    before <= after && forall i | |before| <= i < |after| :: GoodRequest(p, policy, after[i])
  }

  // ------------------------------------------------------------------ when a run completes

  /** The stream a default-stream rule can be rendered with is among `streams`. */
  ghost predicate DefaultReachable(p: Plan, streams: Table) {
    HasTitle(streams, p.tables.defaultStream) || HasTitle(streams, p.tables.allMessagesStream)
  }

  /** The run renders rule `r`: a forced update renders every one, a creation the missing ones. */
  ghost predicate Renders(policy: Policy, rules: Table, r: string) {
    policy.ForceUpdate? || (policy.OnlyCreate? && !HasTitle(rules, r))
  }

  /** Rule `r` can be rendered if it has to be. */
  ghost predicate RuleWorks(p: Plan, policy: Policy, rules: Table, streams: Table, r: string)
    requires Agree(p.tables) && r in Targets(p, Rules)
  {
    Renders(policy, rules, r) && Targets(p, Rules)[r] == p.tables.defaultStream ==> DefaultReachable(p, streams)
  }

  ghost predicate RulesWork(p: Plan, policy: Policy, rules: Table, streams: Table)
    requires Agree(p.tables)
  {
    forall r | r in Targets(p, Rules) :: RuleWorks(p, policy, rules, streams, r)
  }

  /** A stream that exists, or that the run creates, serves the default-stream rules. */
  ghost predicate DefaultServed(p: Plan, streams: Table)
    requires Agree(p.tables)
  {
    DefaultReachable(p, streams) || p.tables.defaultStream in Targets(p, Streams) || p.tables.allMessagesStream in Targets(p, Streams)
  }

  /** When a run none of whose requests fails returns no error. */
  ghost predicate Completable(p: Plan, policy: Policy, db: Store)
    requires Agree(p.tables)
  {
    && HasTitle(db.indexSets, p.tables.defaultIndexSet)
    && (policy.OtherPolicy? ==> AllPresent(Targets(p, Streams).Keys, db.streams))
    && forall r | r in Targets(p, Rules) && Targets(p, Rules)[r] == p.tables.defaultStream && Renders(policy, db.rules, r) ::
         DefaultServed(p, db.streams)
  }

  /** The stream stage adds the wanted titles and no others. */
  lemma StreamsAfter(p: Plan, policy: Policy, was: Store, now: Store, t: string)
    requires Agree(p.tables) && !policy.OtherPolicy?
    requires Underway(p, policy, Streams, Targets(p, Streams).Keys, was, now)
    ensures HasTitle(now.streams, t) <==> HasTitle(was.streams, t) || t in Targets(p, Streams)
  {
    if t in Targets(p, Streams) {
      assert SettledAt(p, Streams, Updates(p, policy, Streams), t, was.streams, now.streams, was.indexSets);
    }
    if HasTitle(was.streams, t) {
      EvolvedKeepsTitle(p, policy, Streams, t, was, now);
    }
    if HasTitle(now.streams, t) {
      var id :| id in now.streams && now.streams[id].title == t;
      assert id in was.streams ==> was.streams[id].title == t;
    }
  }

  /** The index set stage does not change what the later ones need. */
  lemma CompletableAfterIndexSets(p: Plan, policy: Policy, was: Store, now: Store)
    requires Agree(p.tables) && Evolved(p, policy, IndexSets, was, now)
    requires HasTitle(was.indexSets, p.tables.defaultIndexSet)
    ensures HasTitle(now.indexSets, p.tables.defaultIndexSet)
    ensures Completable(p, policy, now) <==> Completable(p, policy, was)
  {
    EvolvedKeepsTitle(p, policy, IndexSets, p.tables.defaultIndexSet, was, now);
  }

  /** The rule stage can complete exactly if the run could from the start. */
  lemma RulesWorkIff(p: Plan, policy: Policy, was: Store, now: Store)
    requires Agree(p.tables) && !policy.OtherPolicy?
    requires Underway(p, policy, Streams, Targets(p, Streams).Keys, was, now)
    requires HasTitle(was.indexSets, p.tables.defaultIndexSet)
    ensures RulesWork(p, policy, now.rules, now.streams) <==> Completable(p, policy, was)
  {
    StreamsAfter(p, policy, was, now, p.tables.defaultStream);
    StreamsAfter(p, policy, was, now, p.tables.allMessagesStream);
    if RulesWork(p, policy, now.rules, now.streams) {
      forall r | r in Targets(p, Rules) && Targets(p, Rules)[r] == p.tables.defaultStream && Renders(policy, was.rules, r)
        ensures DefaultServed(p, was.streams)
      {
        assert RuleWorks(p, policy, now.rules, now.streams, r);
      }
    }
  }

  /** Between the two logs every title had a stream of that title resumed. */
  ghost predicate AllResumed(titles: set<string>, before: seq<Sent>, after: seq<Sent>) {
    before <= after && forall s | s in titles :: ResumedBetween(s, |before|, after)
  }

  ghost predicate ResumedBetween(title: string, from: nat, log: seq<Sent>) {
    exists i | from <= i < |log| :: Resumes(log[i], title)
  }

  ghost predicate Resumes(s: Sent, title: string) {
    s.request.Resume? && s.request.streamId in s.db.streams && s.db.streams[s.request.streamId].title == title
  }

  /** A resume with the empty id was sent. */
  ghost predicate EmptyResume(from: nat, log: seq<Sent>) {
    exists i | from <= i < |log| :: log[i].request == Resume(NO_ID)
  }

  lemma EmptyResumeStep(from: nat, log: seq<Sent>, s: Sent)
    requires from <= |log|
    ensures EmptyResume(from, log + [s]) <==> EmptyResume(from, log) || s.request == Resume(NO_ID)
  {
    if EmptyResume(from, log) {
      var i :| from <= i < |log| && log[i].request == Resume(NO_ID);
      assert (log + [s])[i] == log[i];
    }
    assert (log + [s])[|log|] == s;
  }

  lemma ResumedStep(titles: set<string>, title: string, was: seq<Sent>, mid: seq<Sent>, s: Sent)
    requires AllResumed(titles, was, mid) && Resumes(s, title)
    ensures AllResumed(titles + {title}, was, mid + [s])
  {
    var log := mid + [s];
    forall t | t in titles + {title}
      ensures ResumedBetween(t, |was|, log)
    {
      if t in titles {
        assert ResumedBetween(t, |was|, mid);
        var i :| |was| <= i < |mid| && Resumes(mid[i], t);
        assert log[i] == mid[i];
      } else {
        assert log[|mid|] == s;
      }
    }
  }

  /** Later requests take nothing back, and earlier ones may be counted in. */
  lemma ResumedExtends(titles: set<string>, before: seq<Sent>, was: seq<Sent>, now: seq<Sent>, after: seq<Sent>)
    requires AllResumed(titles, was, now) && before <= was && now <= after
    ensures AllResumed(titles, before, after)
  {
    forall s | s in titles
      ensures ResumedBetween(s, |before|, after)
    {
      assert ResumedBetween(s, |was|, now);
      var i :| |was| <= i < |now| && Resumes(now[i], s);
      assert after[i] == now[i];
    }
  }

  class Connector {
    const server: Server
    const plan: Plan

    constructor (server: Server, plan: Plan)
      ensures this.server == server && this.plan == plan
    {
      this.server := server;
      this.plan := plan;
    }

    ghost predicate Valid()
      reads this, server
    {
      Agree(plan.tables) && server.Valid()
    }

    /** POST of an entity the stage's listing did not show. */
    method Create(policy: Policy, c: Collection, e: Entry, ghost was: Store) returns (ok: bool)
      requires Valid() && Evolved(plan, policy, c, was, server.db)
      requires GoodEntry(plan, c, e, Refs(c, was)) && !HasTitle(was.Get(c), e.title)
      modifies server
      ensures Valid()
      ensures Stepped(plan, policy, c, e.title, was, old(server.db), server.db, ok)
      ensures GoodRequests(plan, policy, old(server.sent), server.sent)
      ensures server.failures >= old(server.failures) && (!ok ==> server.failures > old(server.failures))
    {
      ghost var created, now := server.nextId, server.db;
      assert created !in now.Get(c);
      assert Writable(plan, c, Updates(plan, policy, c), was.Get(c), now.Get(c), Refs(c, was), created, e);
      ok := server.Post(c, e);
      assert ok ==> server.db.Get(c)[created] == e;
    }

    /** PUT of an entity the stage's listing showed and the policy updates. */
    method Rewrite(policy: Policy, c: Collection, id: Id, e: Entry, ghost was: Store) returns (ok: bool)
      requires Valid() && Evolved(plan, policy, c, was, server.db)
      requires GoodEntry(plan, c, e, Refs(c, was)) && id in was.Get(c) && was.Get(c)[id].title == e.title
      requires e.title in Updates(plan, policy, c)
      modifies server
      ensures Valid()
      ensures Stepped(plan, policy, c, e.title, was, old(server.db), server.db, ok)
      ensures GoodRequests(plan, policy, old(server.sent), server.sent)
      ensures server.failures >= old(server.failures) && (!ok ==> server.failures > old(server.failures))
    {
      ghost var now := server.db;
      assert Writable(plan, c, Updates(plan, policy, c), was.Get(c), now.Get(c), Refs(c, was), id, e);
      ok := server.Replace(c, id, e);
      assert ok ==> server.db.Get(c)[id] == e;
    }

    // ---------------------------------------------------------------- index sets

    method GetIndexSets() returns (available: map<string, string>)
      requires Agree(plan.tables)
      ensures available == Targets(plan, IndexSets)
    {
      var t := plan.tables;
      available := map[t.defaultIndexSet := t.indexConfigs[t.defaultIndexSet], t.auditIndexSet := t.indexConfigs[t.auditIndexSet]];
      for i := 0 to |plan.enabled|
        invariant available == IndexTargets(t, plan.enabled[..i])
      {
        assert plan.enabled[..i + 1][..i] == plan.enabled[..i];
        var stream := plan.enabled[i];
        if stream in t.indexTitles {
          available := available[t.indexTitles[stream] := t.indexConfigs[t.indexTitles[stream]]];
        }
      }
      assert plan.enabled[..|plan.enabled|] == plan.enabled;
    }

    method CreateOrUpdateIndexSet(indexSets: seq<Entity>, policy: Policy, path: string, title: string, ghost was: Store)
      returns (ok: bool)
      requires Valid() && Evolved(plan, policy, IndexSets, was, server.db)
      requires Lists(indexSets, was.indexSets) && NO_ID !in was.indexSets
      requires title in Targets(plan, IndexSets) && path == Targets(plan, IndexSets)[title]
      modifies server
      ensures Valid() && Stepped(plan, policy, IndexSets, title, was, old(server.db), server.db, ok)
      ensures GoodRequests(plan, policy, old(server.sent), server.sent)
      ensures ok && title == plan.tables.defaultIndexSet ==> HasTitle(was.indexSets, title)
      ensures server.failures >= old(server.failures)
      ensures server.failures == old(server.failures) ==> (ok <==> title != plan.tables.defaultIndexSet || HasTitle(was.indexSets, title))
      ensures NoNewDefault(plan, old(server.db).indexSets, server.db.indexSets)
    {
      ListingLookup(indexSets, was.indexSets, title);
      var id := GetIdByTitle(indexSets, title);
      var e := Entry(title, IndexSetBody(path, plan.params));
      if id == NO_ID {
        if title == plan.tables.defaultIndexSet {
          return false;
        }
        ok := Create(policy, IndexSets, e, was);
      } else if policy.ForceUpdate? || title == plan.tables.defaultIndexSet {
        ok := Rewrite(policy, IndexSets, id, e, was);
      } else {
        EvolvedKeepsTitle(plan, policy, IndexSets, title, was, server.db);
        ok := true;
      }
    }

    method ManageIndexSets(policy: Policy) returns (ok: bool)
      requires Valid()
      modifies server
      ensures Valid() && Evolved(plan, policy, IndexSets, old(server.db), server.db)
      ensures ok ==> Underway(plan, policy, IndexSets, Targets(plan, IndexSets).Keys, old(server.db), server.db)
      ensures ok ==> HasTitle(old(server.db).indexSets, plan.tables.defaultIndexSet)
      ensures GoodRequests(plan, policy, old(server.sent), server.sent)
      ensures server.failures >= old(server.failures)
      ensures server.failures == old(server.failures) ==> (ok <==> HasTitle(old(server.db).indexSets, plan.tables.defaultIndexSet))
      ensures NoNewDefault(plan, old(server.db).indexSets, server.db.indexSets)
    {
      var indexSets := server.List(IndexSets);
      if indexSets.None? {
        return false;
      }
      var available := GetIndexSets();
      TargetsAgree(plan.tables, plan.enabled);
      ghost var was := server.db;
      var todo := available.Keys;
      while todo != {}
        invariant Valid() && todo <= available.Keys
        invariant Underway(plan, policy, IndexSets, available.Keys - todo, was, server.db)
        invariant plan.tables.defaultIndexSet !in todo ==> HasTitle(was.indexSets, plan.tables.defaultIndexSet)
        invariant GoodRequests(plan, policy, old(server.sent), server.sent)
        invariant NoNewDefault(plan, was.indexSets, server.db.indexSets)
        invariant server.failures >= old(server.failures)
      {
        var k :| k in todo;
        ghost var now := server.db;
        ok := CreateOrUpdateIndexSet(indexSets.value, policy, available[k], k, was);
        assert server.failures == old(server.failures) && !ok ==> k == plan.tables.defaultIndexSet && !HasTitle(was.indexSets, k);
        UnderwayStep(plan, policy, IndexSets, k, available.Keys - todo, was, now, server.db, ok);
        if !ok {
          return;
        }
        OneLessToDo(available.Keys, todo, k);
        todo := todo - {k};
      }
      assert available.Keys - todo == available.Keys;
      return true;
    }

    // ---------------------------------------------------------------- streams

    method GetStreams() returns (streamToIndex: map<string, string>)
      requires Agree(plan.tables)
      ensures streamToIndex == Targets(plan, Streams)
    {
      streamToIndex := map[];
      for i := 0 to |plan.enabled|
        invariant streamToIndex == StreamTargets(plan.tables, plan.enabled[..i])
      {
        assert plan.enabled[..i + 1][..i] == plan.enabled[..i];
        var stream := plan.enabled[i];
        if stream in plan.tables.indexTitles {
          streamToIndex := streamToIndex[stream := plan.tables.indexTitles[stream]];
        }
      }
      assert plan.enabled[..|plan.enabled|] == plan.enabled;
    }

    /** Creates the stream if the listing has none; leaves an existing one alone. */
    method OnlyCreateStream(streams: seq<Entity>, indexSets: seq<Entity>, policy: Policy, indexSetName: string, title: string, ghost was: Store)
      returns (ok: bool)
      requires Valid() && Evolved(plan, policy, Streams, was, server.db)
      requires Lists(streams, was.streams) && NO_ID !in was.streams
      requires Lists(indexSets, was.indexSets) && HasTitle(was.indexSets, indexSetName)
      requires title in Targets(plan, Streams) && indexSetName == Targets(plan, Streams)[title]
      requires policy.ForceUpdate? ==> !HasTitle(was.streams, title)
      modifies server
      ensures Valid() && Stepped(plan, policy, Streams, title, was, old(server.db), server.db, ok)
      ensures GoodRequests(plan, policy, old(server.sent), server.sent)
      ensures server.failures >= old(server.failures) && (!ok ==> server.failures > old(server.failures))
    {
      ListingLookup(streams, was.streams, title);
      ListingLookup(indexSets, was.indexSets, indexSetName);
      if GetIdByTitle(streams, title) == NO_ID {
        ok := Create(policy, Streams, Entry(title, StreamBody(GetIdByTitle(indexSets, indexSetName))), was);
      } else {
        EvolvedKeepsTitle(plan, policy, Streams, title, was, server.db);
        ok := true;
      }
    }

    /** Rewrites the stream if the listing has one, creates it otherwise. */
    method UpdateOrCreateStream(streams: seq<Entity>, indexSets: seq<Entity>, policy: Policy, indexSetName: string, title: string, ghost was: Store)
      returns (ok: bool)
      requires Valid() && Evolved(plan, policy, Streams, was, server.db) && policy.ForceUpdate?
      requires Lists(streams, was.streams) && NO_ID !in was.streams
      requires Lists(indexSets, was.indexSets) && HasTitle(was.indexSets, indexSetName)
      requires title in Targets(plan, Streams) && indexSetName == Targets(plan, Streams)[title]
      modifies server
      ensures Valid() && Stepped(plan, policy, Streams, title, was, old(server.db), server.db, ok)
      ensures GoodRequests(plan, policy, old(server.sent), server.sent)
      ensures server.failures >= old(server.failures) && (!ok ==> server.failures > old(server.failures))
    {
      ListingLookup(streams, was.streams, title);
      ListingLookup(indexSets, was.indexSets, indexSetName);
      var id := GetIdByTitle(streams, title);
      if id != NO_ID {
        ok := Rewrite(policy, Streams, id, Entry(title, StreamBody(GetIdByTitle(indexSets, indexSetName))), was);
      } else {
        ok := OnlyCreateStream(streams, indexSets, policy, indexSetName, title, was);
      }
    }

    method CreateStreams(streams: seq<Entity>, indexSets: seq<Entity>, policy: Policy) returns (ok: bool)
      requires Valid() && Lists(streams, server.db.streams) && Lists(indexSets, server.db.indexSets)
      requires forall s | s in Targets(plan, Streams) :: HasTitle(server.db.indexSets, Targets(plan, Streams)[s])
      requires policy.OnlyCreate?
      modifies server
      ensures Valid() && Evolved(plan, policy, Streams, old(server.db), server.db)
      ensures ok ==> Underway(plan, policy, Streams, Targets(plan, Streams).Keys, old(server.db), server.db)
      ensures GoodRequests(plan, policy, old(server.sent), server.sent)
      ensures server.failures >= old(server.failures) && (!ok ==> server.failures > old(server.failures))
    {
      var streamToIndex := GetStreams();
      ghost var was := server.db;
      var todo := streamToIndex.Keys;
      while todo != {}
        invariant Valid() && todo <= streamToIndex.Keys
        invariant Underway(plan, policy, Streams, streamToIndex.Keys - todo, was, server.db)
        invariant GoodRequests(plan, policy, old(server.sent), server.sent)
        invariant server.failures >= old(server.failures)
      {
        var k :| k in todo;
        ghost var now := server.db;
        ok := OnlyCreateStream(streams, indexSets, policy, streamToIndex[k], k, was);
        UnderwayStep(plan, policy, Streams, k, streamToIndex.Keys - todo, was, now, server.db, ok);
        if !ok {
          return;
        }
        OneLessToDo(streamToIndex.Keys, todo, k);
        todo := todo - {k};
      }
      assert streamToIndex.Keys - todo == streamToIndex.Keys;
      return true;
    }

    method UpdateStreams(streams: seq<Entity>, indexSets: seq<Entity>, policy: Policy) returns (ok: bool)
      requires Valid() && Lists(streams, server.db.streams) && Lists(indexSets, server.db.indexSets)
      requires forall s | s in Targets(plan, Streams) :: HasTitle(server.db.indexSets, Targets(plan, Streams)[s])
      requires policy.ForceUpdate?
      modifies server
      ensures Valid() && Evolved(plan, policy, Streams, old(server.db), server.db)
      ensures ok ==> Underway(plan, policy, Streams, Targets(plan, Streams).Keys, old(server.db), server.db)
      ensures GoodRequests(plan, policy, old(server.sent), server.sent)
      ensures server.failures >= old(server.failures) && (!ok ==> server.failures > old(server.failures))
    {
      var streamToIndex := GetStreams();
      ghost var was := server.db;
      var todo := streamToIndex.Keys;
      while todo != {}
        invariant Valid() && todo <= streamToIndex.Keys
        invariant Underway(plan, policy, Streams, streamToIndex.Keys - todo, was, server.db)
        invariant GoodRequests(plan, policy, old(server.sent), server.sent)
        invariant server.failures >= old(server.failures)
      {
        var k :| k in todo;
        ghost var now := server.db;
        ok := UpdateOrCreateStream(streams, indexSets, policy, streamToIndex[k], k, was);
        UnderwayStep(plan, policy, Streams, k, streamToIndex.Keys - todo, was, now, server.db, ok);
        if !ok {
          return;
        }
        OneLessToDo(streamToIndex.Keys, todo, k);
        todo := todo - {k};
      }
      assert streamToIndex.Keys - todo == streamToIndex.Keys;
      return true;
    }

    method CreateOrUpdateStreams(streams: seq<Entity>, indexSets: seq<Entity>, policy: Policy) returns (ok: bool)
      requires Valid() && Lists(streams, server.db.streams) && Lists(indexSets, server.db.indexSets)
      requires forall s | s in Targets(plan, Streams) :: HasTitle(server.db.indexSets, Targets(plan, Streams)[s])
      modifies server
      ensures Valid() && Evolved(plan, policy, Streams, old(server.db), server.db)
      ensures ok && !policy.OtherPolicy? ==> Underway(plan, policy, Streams, Targets(plan, Streams).Keys, old(server.db), server.db)
      ensures GoodRequests(plan, policy, old(server.sent), server.sent)
      ensures policy.OtherPolicy? ==> server.db == old(server.db)
      ensures server.failures >= old(server.failures) && (!ok ==> server.failures > old(server.failures))
    {
      ok := true;
      if policy.OnlyCreate? {
        ok := CreateStreams(streams, indexSets, policy);
      } else if policy.ForceUpdate? {
        ok := UpdateStreams(streams, indexSets, policy);
      }
    }

    /** Resumes every wanted stream by the id the listing gives its title. */
    method ResumeStreams(streams: seq<Entity>, policy: Policy) returns (ok: bool)
      requires Valid() && Lists(streams, server.db.streams)
      requires !policy.OtherPolicy? ==> forall s | s in Targets(plan, Streams) :: HasTitle(server.db.streams, s)
      modifies server
      ensures Valid() && server.db == old(server.db)
      ensures GoodRequests(plan, policy, old(server.sent), server.sent)
      ensures ok ==> AllResumed(Targets(plan, Streams).Keys, old(server.sent), server.sent)
      ensures ok ==> forall s | s in Targets(plan, Streams) :: HasTitle(server.db.streams, s)
      ensures server.failures >= old(server.failures)
      ensures server.failures == old(server.failures) ==> (ok <==> AllPresent(Targets(plan, Streams).Keys, server.db.streams))
      ensures server.failures == old(server.failures) ==> (!ok <==> EmptyResume(|old(server.sent)|, server.sent))
    {
      var titles := GetStreams();
      var todo := titles.Keys;
      while todo != {}
        invariant Valid() && server.db == old(server.db)
        invariant todo <= titles.Keys
        invariant GoodRequests(plan, policy, old(server.sent), server.sent)
        invariant server.failures >= old(server.failures)
        invariant !EmptyResume(|old(server.sent)|, server.sent)
        invariant AllResumed(titles.Keys - todo, old(server.sent), server.sent)
        invariant forall s | s in titles.Keys - todo :: HasTitle(server.db.streams, s)
      {
        var k :| k in todo;
        ghost var sent := server.sent;
        ok := ResumeStreamByTitle(streams, k, policy);
        EmptyResumeStep(|old(server.sent)|, sent, server.sent[|sent|]);
        if !ok {
          assert server.failures == old(server.failures) ==> !HasTitle(server.db.streams, k);
          return;
        }
        ResumedStep(titles.Keys - todo, k, old(server.sent), sent, server.sent[|sent|]);
        OneLessToDo(titles.Keys, todo, k);
        todo := todo - {k};
      }
      assert titles.Keys - todo == titles.Keys;
      return true;
    }

    method ResumeStreamByTitle(streams: seq<Entity>, title: string, policy: Policy) returns (ok: bool)
      requires Valid() && Lists(streams, server.db.streams) && title in Targets(plan, Streams)
      requires !policy.OtherPolicy? ==> HasTitle(server.db.streams, title)
      modifies server
      ensures Valid() && server.db == old(server.db)
      ensures GoodRequests(plan, policy, old(server.sent), server.sent)
      ensures |server.sent| == |old(server.sent)| + 1 && server.sent == old(server.sent) + [server.sent[|old(server.sent)|]]
      ensures ok ==> HasTitle(server.db.streams, title) && Resumes(server.sent[|old(server.sent)|], title)
      ensures server.failures >= old(server.failures)
      ensures server.failures == old(server.failures) ==> (ok <==> HasTitle(server.db.streams, title))
      // The id it resumes is that of a stream with the title, and empty exactly if there is none.
      ensures var s := server.sent[|old(server.sent)|];
              s.request.Resume? && s.db == server.db && (s.request.streamId == NO_ID <==> !HasTitle(server.db.streams, title))
    {
      ListingLookup(streams, server.db.streams, title);
      ok := server.ResumeStream(GetIdByTitle(streams, title));
    }

    method ManageStreams(policy: Policy) returns (ok: bool)
      requires Valid()
      requires forall s | s in Targets(plan, Streams) :: HasTitle(server.db.indexSets, Targets(plan, Streams)[s])
      modifies server
      ensures Valid() && Evolved(plan, policy, Streams, old(server.db), server.db)
      ensures ok ==> Underway(plan, policy, Streams, Targets(plan, Streams).Keys, old(server.db), server.db)
      ensures GoodRequests(plan, policy, old(server.sent), server.sent)
      ensures ok ==> AllResumed(Targets(plan, Streams).Keys, old(server.sent), server.sent)
      ensures policy.OtherPolicy? ==> server.db == old(server.db)
      ensures server.failures >= old(server.failures)
      ensures server.failures == old(server.failures) ==> (ok <==> policy.OtherPolicy? ==> AllPresent(Targets(plan, Streams).Keys, old(server.db).streams))
      ensures server.failures == old(server.failures) ==> (!ok ==> EmptyResume(|old(server.sent)|, server.sent))
    {
      var streams := server.List(Streams);
      if streams.None? {
        return false;
      }
      var indexSets := server.List(IndexSets);
      if indexSets.None? {
        return false;
      }
      ok := CreateOrUpdateStreams(streams.value, indexSets.value, policy);
      if !ok {
        return;
      }
      streams := server.List(Streams);
      if streams.None? {
        return false;
      }
      forall s | s in Targets(plan, Streams) && !policy.OtherPolicy?
        ensures HasTitle(server.db.streams, s)
      {
        assert SettledAt(plan, Streams, Updates(plan, policy, Streams), s, old(server.db).streams, server.db.streams, old(server.db).indexSets);
      }
      ghost var sent := server.sent;
      ok := ResumeStreams(streams.value, policy);
      if ok {
        ResumedExtends(Targets(plan, Streams).Keys, old(server.sent), sent, server.sent, server.sent);
      }
    }

    // ---------------------------------------------------------------- processing rules

    method GetProcessingRules() returns (ruleToStream: map<string, string>)
      requires Agree(plan.tables)
      ensures ruleToStream == Targets(plan, Rules)
    {
      ruleToStream := map r | r in plan.tables.commonRules :: plan.tables.defaultStream;
      for i := 0 to |plan.enabled|
        invariant ruleToStream == RuleTargets(plan.tables, plan.enabled[..i])
      {
        assert plan.enabled[..i + 1][..i] == plan.enabled[..i];
        var stream := plan.enabled[i];
        if stream in plan.tables.streamRules {
          ruleToStream := ruleToStream[plan.tables.streamRules[stream] := stream];
        }
      }
      assert plan.enabled[..|plan.enabled|] == plan.enabled;
    }

    /** The stream id a rule source is rendered with. A missing stream gives the empty id,
        except for the default stream, which falls back to "All messages" or fails. */
    function RuleStreamId(streams: seq<Entity>, title: string): (r: Option<Id>)
      ensures r.None? ==> title == plan.tables.defaultStream && GetIdByTitle(streams, title) == NO_ID
                          && GetIdByTitle(streams, plan.tables.allMessagesStream) == NO_ID
      ensures r.Some? && GetIdByTitle(streams, title) != NO_ID ==> r.value == GetIdByTitle(streams, title)
      ensures title == plan.tables.defaultStream && r.Some? ==> r.value != NO_ID
    {
      var id := GetIdByTitle(streams, title);
      if id == NO_ID && title == plan.tables.defaultStream then
        var fallback := GetIdByTitle(streams, plan.tables.allMessagesStream);
        if fallback == NO_ID then None else Some(fallback)
      else Some(id)
    }

    /** Creates the rule if the listing has none; leaves an existing one alone. */
    method OnlyCreateRules(streams: seq<Entity>, rules: seq<Entity>, policy: Policy, ruleTitle: string, streamTitle: string, ghost was: Store)
      returns (ok: bool)
      requires Valid() && Evolved(plan, policy, Rules, was, server.db)
      requires Lists(rules, was.rules) && NO_ID !in was.rules && Lists(streams, was.streams) && NO_ID !in was.streams
      requires ruleTitle in Targets(plan, Rules) && streamTitle == Targets(plan, Rules)[ruleTitle]
      requires ruleTitle in plan.tables.ruleConfigs
      requires streamTitle == plan.tables.defaultStream || HasTitle(was.streams, streamTitle)
      requires policy.ForceUpdate? ==> !HasTitle(was.rules, ruleTitle)
      modifies server
      ensures Valid() && Stepped(plan, policy, Rules, ruleTitle, was, old(server.db), server.db, ok)
      ensures GoodRequests(plan, policy, old(server.sent), server.sent)
      ensures server.failures >= old(server.failures)
      ensures server.failures == old(server.failures) ==> policy.OtherPolicy? || (ok <==> RuleWorks(plan, policy, was.rules, was.streams, ruleTitle))
    {
      ListingLookup(rules, was.rules, ruleTitle);
      if GetIdByTitle(rules, ruleTitle) == NO_ID {
        var streamId := RuleStreamId(streams, streamTitle);
        if streamId.None? {
          return false;
        }
        var e := Entry(ruleTitle, RuleBody(plan.tables.ruleConfigs[ruleTitle], streamId.value));
        RuleEntryIsGood(streams, was, ruleTitle, streamTitle, streamId.value);
        ok := Create(policy, Rules, e, was);
      } else {
        EvolvedKeepsTitle(plan, policy, Rules, ruleTitle, was, server.db);
        ok := true;
      }
    }

    /** A rule is rendered with the non-empty id of its stream or of the fallback. */
    lemma RuleEntryIsGood(streams: seq<Entity>, was: Store, ruleTitle: string, streamTitle: string, streamId: Id)
      requires Agree(plan.tables) && Lists(streams, was.streams) && NO_ID !in was.streams
      requires ruleTitle in Targets(plan, Rules) && streamTitle == Targets(plan, Rules)[ruleTitle]
      requires ruleTitle in plan.tables.ruleConfigs
      requires streamTitle == plan.tables.defaultStream || HasTitle(was.streams, streamTitle)
      requires RuleStreamId(streams, streamTitle) == Some(streamId)
      ensures GoodEntry(plan, Rules, Entry(ruleTitle, RuleBody(plan.tables.ruleConfigs[ruleTitle], streamId)), was.streams)
    {
      ListingLookup(streams, was.streams, streamTitle);
      ListingLookup(streams, was.streams, plan.tables.allMessagesStream);
    }

    /** Rewrites the rule if the listing has one, creates it otherwise. */
    method CreateOrUpdateRules(streams: seq<Entity>, rules: seq<Entity>, policy: Policy, ruleTitle: string, streamTitle: string, ghost was: Store)
      returns (ok: bool)
      requires Valid() && Evolved(plan, policy, Rules, was, server.db) && policy.ForceUpdate?
      requires Lists(rules, was.rules) && NO_ID !in was.rules && Lists(streams, was.streams) && NO_ID !in was.streams
      requires ruleTitle in Targets(plan, Rules) && streamTitle == Targets(plan, Rules)[ruleTitle]
      requires ruleTitle in plan.tables.ruleConfigs
      requires streamTitle == plan.tables.defaultStream || HasTitle(was.streams, streamTitle)
      modifies server
      ensures Valid() && Stepped(plan, policy, Rules, ruleTitle, was, old(server.db), server.db, ok)
      ensures GoodRequests(plan, policy, old(server.sent), server.sent)
      ensures server.failures >= old(server.failures)
      ensures server.failures == old(server.failures) ==> (ok <==> RuleWorks(plan, policy, was.rules, was.streams, ruleTitle))
    {
      ListingLookup(rules, was.rules, ruleTitle);
      var id := GetIdByTitle(rules, ruleTitle);
      if id != NO_ID {
        var streamId := RuleStreamId(streams, streamTitle);
        if streamId.None? {
          return false;
        }
        var e := Entry(ruleTitle, RuleBody(plan.tables.ruleConfigs[ruleTitle], streamId.value));
        RuleEntryIsGood(streams, was, ruleTitle, streamTitle, streamId.value);
        ok := Rewrite(policy, Rules, id, e, was);
      } else {
        ok := OnlyCreateRules(streams, rules, policy, ruleTitle, streamTitle, was);
      }
    }

    method CreateProcessingRules(streams: seq<Entity>, rules: seq<Entity>, policy: Policy) returns (ok: bool)
      requires Valid() && Lists(streams, server.db.streams) && Lists(rules, server.db.rules)
      requires forall s | s in Targets(plan, Streams) :: HasTitle(server.db.streams, s)
      requires policy.OnlyCreate?
      modifies server
      ensures Valid() && Evolved(plan, policy, Rules, old(server.db), server.db)
      ensures ok ==> Underway(plan, policy, Rules, Targets(plan, Rules).Keys, old(server.db), server.db)
      ensures GoodRequests(plan, policy, old(server.sent), server.sent)
      ensures server.failures >= old(server.failures)
      ensures server.failures == old(server.failures) ==> (ok <==> RulesWork(plan, policy, old(server.db).rules, old(server.db).streams))
    {
      var ruleToStream := GetProcessingRules();
      TargetsAgree(plan.tables, plan.enabled);
      ghost var was := server.db;
      var todo := ruleToStream.Keys;
      while todo != {}
        invariant Valid() && todo <= ruleToStream.Keys
        invariant Underway(plan, policy, Rules, ruleToStream.Keys - todo, was, server.db)
        invariant GoodRequests(plan, policy, old(server.sent), server.sent)
        invariant server.failures >= old(server.failures)
        invariant server.failures == old(server.failures) ==>
                    forall r | r in ruleToStream.Keys - todo :: RuleWorks(plan, policy, was.rules, was.streams, r)
      {
        var k :| k in todo;
        ghost var now := server.db;
        ok := OnlyCreateRules(streams, rules, policy, k, ruleToStream[k], was);
        UnderwayStep(plan, policy, Rules, k, ruleToStream.Keys - todo, was, now, server.db, ok);
        assert server.failures == old(server.failures) ==> (ok <==> RuleWorks(plan, policy, was.rules, was.streams, k));
        if !ok {
          return;
        }
        OneLessToDo(ruleToStream.Keys, todo, k);
        todo := todo - {k};
      }
      assert ruleToStream.Keys - todo == ruleToStream.Keys;
      return true;
    }

    method UpdateProcessingRules(streams: seq<Entity>, rules: seq<Entity>, policy: Policy) returns (ok: bool)
      requires Valid() && Lists(streams, server.db.streams) && Lists(rules, server.db.rules)
      requires forall s | s in Targets(plan, Streams) :: HasTitle(server.db.streams, s)
      requires policy.ForceUpdate?
      modifies server
      ensures Valid() && Evolved(plan, policy, Rules, old(server.db), server.db)
      ensures ok ==> Underway(plan, policy, Rules, Targets(plan, Rules).Keys, old(server.db), server.db)
      ensures GoodRequests(plan, policy, old(server.sent), server.sent)
      ensures server.failures >= old(server.failures)
      ensures server.failures == old(server.failures) ==> (ok <==> RulesWork(plan, policy, old(server.db).rules, old(server.db).streams))
    {
      var ruleToStream := GetProcessingRules();
      TargetsAgree(plan.tables, plan.enabled);
      ghost var was := server.db;
      var todo := ruleToStream.Keys;
      while todo != {}
        invariant Valid() && todo <= ruleToStream.Keys
        invariant Underway(plan, policy, Rules, ruleToStream.Keys - todo, was, server.db)
        invariant GoodRequests(plan, policy, old(server.sent), server.sent)
        invariant server.failures >= old(server.failures)
        invariant server.failures == old(server.failures) ==>
                    forall r | r in ruleToStream.Keys - todo :: RuleWorks(plan, policy, was.rules, was.streams, r)
      {
        var k :| k in todo;
        ghost var now := server.db;
        ok := CreateOrUpdateRules(streams, rules, policy, k, ruleToStream[k], was);
        UnderwayStep(plan, policy, Rules, k, ruleToStream.Keys - todo, was, now, server.db, ok);
        assert server.failures == old(server.failures) ==> (ok <==> RuleWorks(plan, policy, was.rules, was.streams, k));
        if !ok {
          return;
        }
        OneLessToDo(ruleToStream.Keys, todo, k);
        todo := todo - {k};
      }
      assert ruleToStream.Keys - todo == ruleToStream.Keys;
      return true;
    }

    method ManageProcessingRules(policy: Policy) returns (ok: bool)
      requires Valid()
      requires !policy.OtherPolicy? ==> forall s | s in Targets(plan, Streams) :: HasTitle(server.db.streams, s)
      modifies server
      ensures Valid() && Evolved(plan, policy, Rules, old(server.db), server.db)
      ensures ok ==> Underway(plan, policy, Rules, Provided(plan, policy, Rules), old(server.db), server.db)
      ensures GoodRequests(plan, policy, old(server.sent), server.sent)
      ensures policy.OtherPolicy? ==> server.db == old(server.db)
      ensures server.failures >= old(server.failures)
      ensures server.failures == old(server.failures) ==> (ok <==> policy.OtherPolicy? || RulesWork(plan, policy, old(server.db).rules, old(server.db).streams))
    {
      var rules := server.List(Rules);
      if rules.None? {
        return false;
      }
      if policy.OtherPolicy? {
        return true;
      }
      var streams := server.List(Streams);
      if streams.None? {
        return false;
      }
      if policy.OnlyCreate? {
        ok := CreateProcessingRules(streams.value, rules.value, policy);
      } else {
        ok := UpdateProcessingRules(streams.value, rules.value, policy);
      }
    }

    // ---------------------------------------------------------------- the whole run

    /** The stages in the order of configureGraylog. Grok patterns before, and pipelines and all
        stages after, touch none of the three collections; they can only fail. */
    method ConfigureGraylog(policy: Policy) returns (ok: bool)
      requires Valid()
      modifies server
      ensures Valid() && server.failures >= old(server.failures)
      ensures RunEvolves(plan, policy, old(server.db), server.db)
      ensures ok ==> RunSettled(plan, policy, old(server.db), server.db)
      ensures GoodRequests(plan, policy, old(server.sent), server.sent)
      ensures ok ==> AllResumed(Targets(plan, Streams).Keys, old(server.sent), server.sent)
      // Without a failing request it completes exactly if it can.
      ensures server.failures == old(server.failures) ==> (ok <==> Completable(plan, policy, old(server.db)))
      // Otherwise, if the default index set is there, another policy has resumed a stream that does not exist.
      ensures server.failures == old(server.failures) && policy.OtherPolicy? && !ok
              && HasTitle(old(server.db).indexSets, plan.tables.defaultIndexSet) ==>
                EmptyResume(|old(server.sent)|, server.sent)
    {
      ok := server.OtherRequests();
      if !ok {
        IdleRunEvolves(plan, policy, server.db);
        return;
      }
      ok := ManageContent(policy);
      if ok {
        ok := server.OtherRequests();
      }
    }

    /** The three modelled stages, with the inputs and extractors after the index sets. */
    method ManageContent(policy: Policy) returns (ok: bool)
      requires Valid()
      modifies server
      ensures Valid() && server.failures >= old(server.failures)
      ensures RunEvolves(plan, policy, old(server.db), server.db)
      ensures ok ==> RunSettled(plan, policy, old(server.db), server.db)
      ensures GoodRequests(plan, policy, old(server.sent), server.sent)
      ensures ok ==> AllResumed(Targets(plan, Streams).Keys, old(server.sent), server.sent)
      ensures server.failures == old(server.failures) ==> (ok <==> Completable(plan, policy, old(server.db)))
      ensures server.failures == old(server.failures) && policy.OtherPolicy? && !ok
              && HasTitle(old(server.db).indexSets, plan.tables.defaultIndexSet) ==>
                EmptyResume(|old(server.sent)|, server.sent)
    {
      ghost var s0, sent0 := server.db, server.sent;
      ok := ManageIndexSets(policy);
      ghost var s1, sent1 := server.db, server.sent;
      if ok {
        StageTitles(policy, s0, s1);
        ok := server.OtherRequests();
      }
      if !ok {
        RunIsEvolution(policy, s0, s1, s1, s1);
        return;
      }
      ghost var s2;
      CompletableAfterIndexSets(plan, policy, s0, s1);
      ok, s2 := ManageStreamsAndRules(policy);
      RunIsEvolution(policy, s0, s1, s2, server.db);
      if ok {
        ResumedExtends(Targets(plan, Streams).Keys, sent0, sent1, server.sent, server.sent);
        RunIsSettled(policy, s0, s1, s2, server.db);
      }
    }

    /** The stages from the streams on. `mid` is what the stream stage left. */
    method ManageStreamsAndRules(policy: Policy) returns (ok: bool, ghost mid: Store)
      requires Valid() && HasTitle(server.db.indexSets, plan.tables.defaultIndexSet)
      requires forall s | s in Targets(plan, Streams) :: HasTitle(server.db.indexSets, Targets(plan, Streams)[s])
      modifies server
      ensures Valid()
      ensures Evolved(plan, policy, Streams, old(server.db), mid) && (mid == server.db || Evolved(plan, policy, Rules, mid, server.db))
      ensures ok ==> Underway(plan, policy, Streams, Targets(plan, Streams).Keys, old(server.db), mid)
      ensures ok ==> Underway(plan, policy, Rules, Provided(plan, policy, Rules), mid, server.db)
      ensures GoodRequests(plan, policy, old(server.sent), server.sent)
      ensures ok ==> AllResumed(Targets(plan, Streams).Keys, old(server.sent), server.sent)
      ensures policy.OtherPolicy? ==> mid == server.db == old(server.db)
      ensures server.failures >= old(server.failures)
      ensures server.failures == old(server.failures) ==> (ok <==> Completable(plan, policy, old(server.db)))
      ensures server.failures == old(server.failures) && policy.OtherPolicy? && !ok ==> EmptyResume(|old(server.sent)|, server.sent)
    {
      ghost var was := server.db;
      ok := ManageStreams(policy);
      mid := server.db;
      if !ok {
        return;
      }
      StreamTitles(policy, was, mid);
      ghost var sent := server.sent;
      ok := ManageProcessingRules(policy);
      if !policy.OtherPolicy? {
        RulesWorkIff(plan, policy, was, mid);
      }
      if ok {
        ResumedExtends(Targets(plan, Streams).Keys, old(server.sent), old(server.sent), sent, server.sent);
      }
    }

    lemma RunIsEvolution(policy: Policy, s0: Store, s1: Store, s2: Store, s3: Store)
      requires Agree(plan.tables)
      requires Evolved(plan, policy, IndexSets, s0, s1)
      requires s1 == s2 || Evolved(plan, policy, Streams, s1, s2)
      requires s2 == s3 || Evolved(plan, policy, Rules, s2, s3)
      requires policy.OtherPolicy? ==> s1 == s2 == s3
      requires NoNewDefault(plan, s0.indexSets, s1.indexSets)
      ensures RunEvolves(plan, policy, s0, s3)
    {
      forall c: Collection
        ensures Evolves(plan, c, Updates(plan, policy, c), s0.Get(c), s3.Get(c), Refs(c, s3))
      {
        match c {
          case IndexSets =>
          case Streams =>
          case Rules =>
        }
      }
    }

    lemma RunIsSettled(policy: Policy, s0: Store, s1: Store, s2: Store, s3: Store)
      requires Agree(plan.tables)
      requires Underway(plan, policy, IndexSets, Targets(plan, IndexSets).Keys, s0, s1)
      requires Underway(plan, policy, Streams, Targets(plan, Streams).Keys, s1, s2)
      requires Underway(plan, policy, Rules, Provided(plan, policy, Rules), s2, s3)
      ensures RunSettled(plan, policy, s0, s3)
    {
      forall c: Collection
        ensures Settled(plan, c, Updates(plan, policy, c), Provided(plan, policy, c), s0.Get(c), s3.Get(c), Refs(c, s3))
      {
        match c {
          case IndexSets =>
          case Streams =>
          case Rules =>
        }
      }
    }

    lemma StreamTitles(policy: Policy, was: Store, now: Store)
      requires Agree(plan.tables)
      requires Underway(plan, policy, Streams, Targets(plan, Streams).Keys, was, now)
      ensures forall s | s in Targets(plan, Streams) :: HasTitle(now.streams, s)
    {
      forall s | s in Targets(plan, Streams)
        ensures HasTitle(now.streams, s)
      {
        assert SettledAt(plan, Streams, Updates(plan, policy, Streams), s, was.streams, now.streams, was.indexSets);
      }
    }

    lemma StageTitles(policy: Policy, was: Store, now: Store)
      requires Agree(plan.tables)
      requires Underway(plan, policy, IndexSets, Targets(plan, IndexSets).Keys, was, now)
      ensures forall s | s in Targets(plan, Streams) :: HasTitle(now.indexSets, Targets(plan, Streams)[s])
    {
      TargetsAgree(plan.tables, plan.enabled);
      forall s | s in Targets(plan, Streams)
        ensures HasTitle(now.indexSets, Targets(plan, Streams)[s])
      {
        assert SettledAt(plan, IndexSets, Updates(plan, policy, IndexSets), Targets(plan, Streams)[s], was.indexSets, now.indexSets, map[]);
      }
    }
  }
}
