/** Whole histories of provisioning runs: any number of aborted or completed runs, each
    over an arbitrary map order and with arbitrary request failures. */
module RestartSafety {
  import opened GraylogTables
  import opened GraylogServer
  import opened Provisioning

  /** One run: what it was asked to provide, and how. */
  datatype Run = Run(plan: Plan, policy: Policy)

  ghost predicate SharedTables(t: Tables, runs: seq<Run>) {
    Agree(t) && forall i | 0 <= i < |runs| :: runs[i].plan.tables == t
  }

  /** `stores[i + 1]` is what run `i`, started on `stores[i]`, left behind. Streams may be enabled
      and disabled and the policy switched between runs; the lookup tables are the program's. */
  ghost predicate Attempts(t: Tables, runs: seq<Run>, stores: seq<Store>) {
    && SharedTables(t, runs)
    && |stores| == |runs| + 1
    && forall i | 0 <= i < |runs| :: RunEvolves(runs[i].plan, runs[i].policy, stores[i], stores[i + 1])
  }

  lemma AttemptAt(t: Tables, runs: seq<Run>, stores: seq<Store>, i: nat)
    requires Attempts(t, runs, stores) && i < |runs|
    ensures runs[i].plan.tables == t && RunEvolves(runs[i].plan, runs[i].policy, stores[i], stores[i + 1])
  {
  }

  lemma AttemptsBefore(t: Tables, runs: seq<Run>, stores: seq<Store>)
    requires Attempts(t, runs, stores) && runs != []
    ensures Attempts(t, runs[..|runs| - 1], stores[..|runs|])
  {
  }

  /** The titles that any of the runs was asked to provide. */
  function Wanted(t: Tables, runs: seq<Run>, c: Collection): set<string>
    requires SharedTables(t, runs)
  {
    if runs == [] then {} else Wanted(t, runs[..|runs| - 1], c) + Targets(runs[|runs| - 1].plan, c).Keys
  }

  function CountTitle(t: Table, title: string): nat {
    |set id | id in t && t[id].title == title|
  }

  /** The part of `Evolves` that concerns titles only; unlike `Evolves` it composes. */
  ghost predicate Grows(titles: set<string>, before: Table, after: Table) {
    && before.Keys <= after.Keys
    && (forall id | id in before :: after[id].title == before[id].title)
    && (forall id | id in after && id !in before :: after[id].title in titles && !HasTitle(before, after[id].title))
    && (forall id, id' | id in after && id !in before && id' in after && id' !in before ::
          after[id].title == after[id'].title ==> id == id')
  }

  lemma GrowsTransitive(titles: set<string>, a: Table, b: Table, c: Table)
    requires Grows(titles, a, b) && Grows(titles, b, c)
    ensures Grows(titles, a, c)
  {
    forall id | id in c && id !in a
      ensures c[id].title in titles && !HasTitle(a, c[id].title)
    {
      if HasTitle(a, c[id].title) {
        var x :| x in a && a[x].title == c[id].title;
        assert x in b && b[x].title == c[id].title;
        assert HasTitle(b, c[id].title);
      }
    }
    forall id, id' | id in c && id !in a && id' in c && id' !in a && c[id].title == c[id'].title
      ensures id == id'
    {
      if id in b && id' !in b {
        assert HasTitle(b, c[id'].title);
      } else if id !in b && id' in b {
        assert HasTitle(b, c[id].title);
      }
    }
  }

  lemma GrowsMore(titles: set<string>, more: set<string>, before: Table, after: Table)
    requires Grows(titles, before, after) && titles <= more
    ensures Grows(more, before, after)
  {
  }

  lemma RunGrows(p: Plan, policy: Policy, before: Store, after: Store, c: Collection)
    requires Agree(p.tables) && RunEvolves(p, policy, before, after)
    ensures Grows(Targets(p, c).Keys, before.Get(c), after.Get(c))
  {
    assert Evolves(p, c, Updates(p, policy, c), before.Get(c), after.Get(c), Refs(c, after));
  }

  lemma {:induction false} AttemptsGrow(t: Tables, runs: seq<Run>, stores: seq<Store>, c: Collection)
    requires Attempts(t, runs, stores)
    ensures Grows(Wanted(t, runs, c), stores[0].Get(c), stores[|runs|].Get(c))
  {
    var n := |runs|;
    if n > 0 {
      var last, wanted := runs[n - 1], Wanted(t, runs, c);
      AttemptsBefore(t, runs, stores);
      AttemptsGrow(t, runs[..n - 1], stores[..n], c);
      GrowsMore(Wanted(t, runs[..n - 1], c), wanted, stores[0].Get(c), stores[n - 1].Get(c));
      AttemptAt(t, runs, stores, n - 1);
      RunGrows(last.plan, last.policy, stores[n - 1], stores[n], c);
      GrowsMore(Targets(last.plan, c).Keys, wanted, stores[n - 1].Get(c), stores[n].Get(c));
      GrowsTransitive(wanted, stores[0].Get(c), stores[n - 1].Get(c), stores[n].Get(c));
    }
  }

  /** How often a title occurs: as often as before, and if it was missing once or not at all. */
  lemma CountAfter(titles: set<string>, before: Table, after: Table, title: string)
    requires Grows(titles, before, after)
    ensures CountTitle(before, title) == 0 <==> !HasTitle(before, title)
    ensures CountTitle(after, title) ==
            if CountTitle(before, title) > 0 then CountTitle(before, title) else if HasTitle(after, title) then 1 else 0
    ensures HasTitle(after, title) ==> HasTitle(before, title) || title in titles
  {
    var was := set id | id in before && before[id].title == title;
    var now := set id | id in after && after[id].title == title;
    assert was <= now;
    if HasTitle(before, title) {
      var x :| x in before && before[x].title == title;
      assert x in was;
      assert now == was;
    } else {
      assert was == {};
      if HasTitle(after, title) {
        var y :| y in after && after[y].title == title;
        assert y !in before;
        assert now == {y};
      } else {
        assert now == {};
      }
    }
  }

  /** A completed run has provided what it was asked to. */
  lemma Completed(p: Plan, policy: Policy, before: Store, after: Store, c: Collection, title: string)
    requires Agree(p.tables) && !policy.OtherPolicy? && RunSettled(p, policy, before, after) && title in Targets(p, c)
    ensures HasTitle(after.Get(c), title)
  {
    assert Settled(p, c, Updates(p, policy, c), Provided(p, policy, c), before.Get(c), after.Get(c), Refs(c, after));
    assert SettledAt(p, c, Updates(p, policy, c), title, before.Get(c), after.Get(c), Refs(c, after));
  }

  /** What a completed run leaves of the content that is always wanted, and for a stream the
      resource enables: the stream, its index set and its rule. */
  lemma EnabledStreamProvided(p: Plan, policy: Policy, before: Store, after: Store, s: string)
    requires Agree(p.tables) && !policy.OtherPolicy? && RunSettled(p, policy, before, after)
    ensures HasTitle(after.indexSets, p.tables.defaultIndexSet) && HasTitle(after.indexSets, p.tables.auditIndexSet)
    ensures forall r | r in p.tables.commonRules :: HasTitle(after.rules, r)
    ensures s in p.enabled && s in p.tables.indexTitles ==>
              HasTitle(after.streams, s) && HasTitle(after.indexSets, p.tables.indexTitles[s])
    ensures s in p.enabled && s in p.tables.streamRules ==> HasTitle(after.rules, p.tables.streamRules[s])
  {
    IndexSetProvided(p, policy, before, after, p.tables.defaultIndexSet);
    IndexSetProvided(p, policy, before, after, p.tables.auditIndexSet);
    forall r | r in p.tables.commonRules
      ensures HasTitle(after.rules, r)
    {
      RuleProvided(p, policy, before, after, r);
    }
    if s in p.enabled && s in p.tables.indexTitles {
      StreamTargetsExact(p.tables, p.enabled, s);
      Completed(p, policy, before, after, Streams, s);
      IndexSetProvided(p, policy, before, after, p.tables.indexTitles[s]);
    }
    if s in p.enabled && s in p.tables.streamRules {
      RuleProvided(p, policy, before, after, p.tables.streamRules[s]);
    }
  }

  lemma IndexSetProvided(p: Plan, policy: Policy, before: Store, after: Store, i: string)
    requires Agree(p.tables) && !policy.OtherPolicy? && RunSettled(p, policy, before, after)
    requires i == p.tables.defaultIndexSet || i == p.tables.auditIndexSet
             || exists s :: s in p.enabled && s in p.tables.indexTitles && p.tables.indexTitles[s] == i
    ensures HasTitle(after.indexSets, i)
  {
    IndexTargetsExact(p.tables, p.enabled, i);
    Completed(p, policy, before, after, IndexSets, i);
  }

  lemma RuleProvided(p: Plan, policy: Policy, before: Store, after: Store, r: string)
    requires Agree(p.tables) && !policy.OtherPolicy? && RunSettled(p, policy, before, after)
    requires r in p.tables.commonRules || exists s :: s in p.enabled && s in p.tables.streamRules && p.tables.streamRules[s] == r
    ensures HasTitle(after.rules, r)
  {
    RuleTargetsExact(p.tables, p.enabled, r);
    Completed(p, policy, before, after, Rules, r);
  }

  /** Whatever had to be created, and under force-update everything, is freshly rendered. */
  lemma CompletedIsGood(p: Plan, policy: Policy, before: Store, after: Store, c: Collection, title: string)
    requires Agree(p.tables) && RunSettled(p, policy, before, after) && title in Provided(p, policy, c)
    requires title in Updates(p, policy, c) || !HasTitle(before.Get(c), title)
    ensures HasGood(p, c, title, after.Get(c), Refs(c, after))
  {
    assert Settled(p, c, Updates(p, policy, c), Provided(p, policy, c), before.Get(c), after.Get(c), Refs(c, after));
    assert SettledAt(p, c, Updates(p, policy, c), title, before.Get(c), after.Get(c), Refs(c, after));
  }

  /** In the tables' own terms: the index set `i`, which is the default one, a missing one or one
      that is forced, holds the asset listed for it. */
  lemma IndexSetIsFresh(p: Plan, policy: Policy, before: Store, after: Store, i: string)
    requires Agree(p.tables) && RunSettled(p, policy, before, after)
    requires i == p.tables.defaultIndexSet || i == p.tables.auditIndexSet
             || exists s :: s in p.enabled && s in p.tables.indexTitles && p.tables.indexTitles[s] == i
    requires i == p.tables.defaultIndexSet || policy.ForceUpdate? || !HasTitle(before.indexSets, i)
    ensures exists id :: id in after.indexSets && after.indexSets[id] == Entry(i, IndexSetBody(p.tables.indexConfigs[i], p.params))
  {
    IndexTargetsExact(p.tables, p.enabled, i);
    CompletedIsGood(p, policy, before, after, IndexSets, i);
    var id :| id in after.indexSets && after.indexSets[id].title == i && GoodEntry(p, IndexSets, after.indexSets[id], map[]);
    assert after.indexSets[id] == Entry(i, IndexSetBody(p.tables.indexConfigs[i], p.params));
  }

  /** Stream `s`, missing before or forced, writes to the index set listed for it. */
  lemma StreamIsFresh(p: Plan, policy: Policy, before: Store, after: Store, s: string)
    requires Agree(p.tables) && RunSettled(p, policy, before, after)
    requires s in p.enabled && s in p.tables.indexTitles
    requires policy.ForceUpdate? || !HasTitle(before.streams, s)
    ensures exists id :: id in after.streams && after.streams[id].title == s && after.streams[id].body.StreamBody?
              && after.streams[id].body.indexSetId in after.indexSets
              && after.indexSets[after.streams[id].body.indexSetId].title == p.tables.indexTitles[s]
  {
    StreamTargetsExact(p.tables, p.enabled, s);
    CompletedIsGood(p, policy, before, after, Streams, s);
    var id :| id in after.streams && after.streams[id].title == s && GoodEntry(p, Streams, after.streams[id], after.indexSets);
    assert after.streams[id].body.StreamBody?;
  }

  /** The rule of stream `s`, missing before or forced, holds the asset listed for it and routes
      into that very stream, the default stream being served by the all-messages stream too. */
  lemma RuleIsFresh(p: Plan, policy: Policy, before: Store, after: Store, s: string)
    requires Agree(p.tables) && OneOwner(p.tables.streamRules) && !policy.OtherPolicy? && RunSettled(p, policy, before, after)
    requires s in p.enabled && s in p.tables.streamRules
    requires policy.ForceUpdate? || !HasTitle(before.rules, p.tables.streamRules[s])
    ensures var r := p.tables.streamRules[s];
            exists id :: id in after.rules && after.rules[id].title == r && after.rules[id].body.RuleBody?
              && after.rules[id].body.asset == p.tables.ruleConfigs[r]
              && after.rules[id].body.streamId in after.streams
              && var title := after.streams[after.rules[id].body.streamId].title;
                 title == s || (s == p.tables.defaultStream && title == p.tables.allMessagesStream)
  {
    var r := p.tables.streamRules[s];
    RuleOfStream(p.tables, p.enabled, s);
    CompletedIsGood(p, policy, before, after, Rules, r);
    var id :| id in after.rules && after.rules[id].title == r && GoodEntry(p, Rules, after.rules[id], after.streams);
    assert after.rules[id].body.RuleBody?;
  }

  /** Over any history of runs no title is created twice, and none that no run wanted. */
  lemma CreatedAtMostOnce(t: Tables, runs: seq<Run>, stores: seq<Store>, c: Collection, title: string)
    requires Attempts(t, runs, stores)
    ensures var was, now := CountTitle(stores[0].Get(c), title), CountTitle(stores[|runs|].Get(c), title);
            && (was > 0 ==> now == was)
            && (was == 0 ==> now <= 1)
            && (now != was ==> title in Wanted(t, runs, c))
  {
    AttemptsGrow(t, runs, stores, c);
    CountAfter(Wanted(t, runs, c), stores[0].Get(c), stores[|runs|].Get(c), title);
  }

  /** Restart safety. However many runs were aborted, whatever each of them was asked for and had
      already applied, the first run that completes leaves every title it was asked for exactly as
      often as one uninterrupted run from the start would: as often as before, or once. The same
      holds of every title that no run wanted, so of all titles if the runs had one plan. */
  lemma RestartSafe(t: Tables, runs: seq<Run>, stores: seq<Store>, policy: Policy, single: Store, c: Collection, title: string)
    requires Attempts(t, runs, stores) && runs != [] && !runs[|runs| - 1].policy.OtherPolicy? && !policy.OtherPolicy?
    requires RunSettled(runs[|runs| - 1].plan, runs[|runs| - 1].policy, stores[|runs| - 1], stores[|runs|])
    requires var p := runs[|runs| - 1].plan; RunEvolves(p, policy, stores[0], single) && RunSettled(p, policy, stores[0], single)
    ensures var p := runs[|runs| - 1].plan;
            CountTitle(single.Get(c), title) ==
            if title in Targets(p, c) && CountTitle(stores[0].Get(c), title) == 0 then 1
            else CountTitle(stores[0].Get(c), title)
    ensures title in Targets(runs[|runs| - 1].plan, c) || title !in Wanted(t, runs, c) ==>
              CountTitle(stores[|runs|].Get(c), title) == CountTitle(single.Get(c), title)
  {
    var n := |runs|;
    var p, last := runs[n - 1].plan, runs[n - 1].policy;
    AttemptsGrow(t, runs, stores, c);
    RunGrows(p, policy, stores[0], single, c);
    CountAfter(Wanted(t, runs, c), stores[0].Get(c), stores[n].Get(c), title);
    CountAfter(Targets(p, c).Keys, stores[0].Get(c), single.Get(c), title);
    if title in Targets(p, c) {
      Completed(p, last, stores[n - 1], stores[n], c, title);
      Completed(p, policy, stores[0], single, c, title);
    }
  }

  /** Under only-create no run, aborted or not, touches an entity that was there before,
      the default index set excepted. */
  lemma {:induction false} OnlyCreateKeepsBodies(t: Tables, runs: seq<Run>, stores: seq<Store>, c: Collection, id: Id)
    requires Attempts(t, runs, stores)
    requires forall i | 0 <= i < |runs| :: runs[i].policy.OnlyCreate?
    requires id in stores[0].Get(c)
    requires !(c.IndexSets? && stores[0].indexSets[id].title == t.defaultIndexSet)
    ensures id in stores[|runs|].Get(c) && stores[|runs|].Get(c)[id] == stores[0].Get(c)[id]
  {
    var n := |runs|;
    if n > 0 {
      var p := runs[n - 1].plan;
      AttemptsBefore(t, runs, stores);
      OnlyCreateKeepsBodies(t, runs[..n - 1], stores[..n], c, id);
      AttemptAt(t, runs, stores, n - 1);
      assert Evolves(p, c, Updates(p, OnlyCreate, c), stores[n - 1].Get(c), stores[n].Get(c), Refs(c, stores[n]));
    }
  }

  /** Some run has rendered this entity. */
  ghost predicate Rendered(t: Tables, runs: seq<Run>, c: Collection, e: Entry, refs: Table)
    requires SharedTables(t, runs)
  {
    exists i | 0 <= i < |runs| :: GoodEntry(runs[i].plan, c, e, refs)
  }

  /** Reference integrity of the stored state: after any history of runs, every entity that
      is not as it was in the beginning is one that some run rendered, and what it refers to
      still exists under the title it was looked up by. */
  lemma {:induction false} ReferencesStayIntact(t: Tables, runs: seq<Run>, stores: seq<Store>, c: Collection, id: Id)
    requires Attempts(t, runs, stores)
    requires id in stores[|runs|].Get(c)
    ensures (id in stores[0].Get(c) && stores[|runs|].Get(c)[id] == stores[0].Get(c)[id])
            || Rendered(t, runs, c, stores[|runs|].Get(c)[id], Refs(c, stores[|runs|]))
  {
    var n := |runs|;
    if n > 0 {
      var p, policy := runs[n - 1].plan, runs[n - 1].policy;
      var e := stores[n].Get(c)[id];
      AttemptAt(t, runs, stores, n - 1);
      assert Evolves(p, c, Updates(p, policy, c), stores[n - 1].Get(c), stores[n].Get(c), Refs(c, stores[n]));
      if id in stores[n - 1].Get(c) && stores[n - 1].Get(c)[id] == e {
        AttemptsBefore(t, runs, stores);
        ReferencesStayIntact(t, runs[..n - 1], stores[..n], c, id);
        if Rendered(t, runs[..n - 1], c, e, Refs(c, stores[n - 1])) {
          var i :| 0 <= i < n - 1 && GoodEntry(runs[..n - 1][i].plan, c, e, Refs(c, stores[n - 1]));
          GoodEntryPersists(runs[i].plan, p, policy, stores[n - 1], stores[n], c, e);
        }
      } else {
        assert GoodEntry(runs[n - 1].plan, c, e, Refs(c, stores[n]));
      }
    }
  }

  lemma GoodEntryPersists(q: Plan, p: Plan, policy: Policy, before: Store, after: Store, c: Collection, e: Entry)
    requires Agree(q.tables) && Agree(p.tables) && RunEvolves(p, policy, before, after)
    requires GoodEntry(q, c, e, Refs(c, before))
    ensures GoodEntry(q, c, e, Refs(c, after))
  {
    var r := match c case IndexSets => IndexSets case Streams => IndexSets case Rules => Streams;
    assert Evolves(p, r, Updates(p, policy, r), before.Get(r), after.Get(r), Refs(r, after));
  }

  /** Once everything is provided, an only-create run leaves streams and rules exactly as
      they are, and adds no index set. */
  lemma CompletedRunIsStable(p: Plan, policy: Policy, before: Store, provided: Store, after: Store)
    requires Agree(p.tables) && !policy.OtherPolicy? && RunSettled(p, policy, before, provided)
    requires RunEvolves(p, OnlyCreate, provided, after)
    ensures after.streams == provided.streams && after.rules == provided.rules
    ensures after.indexSets.Keys == provided.indexSets.Keys
  {
    forall c: Collection
      ensures after.Get(c).Keys == provided.Get(c).Keys
    {
      assert Evolves(p, c, Updates(p, OnlyCreate, c), provided.Get(c), after.Get(c), Refs(c, after));
      assert Settled(p, c, Updates(p, policy, c), Provided(p, policy, c), before.Get(c), provided.Get(c), Refs(c, provided));
      assert forall k | k in Targets(p, c) ::
          SettledAt(p, c, Updates(p, policy, c), k, before.Get(c), provided.Get(c), Refs(c, provided));
    }
    assert Evolves(p, Streams, Updates(p, OnlyCreate, Streams), provided.streams, after.streams, Refs(Streams, after));
    assert Evolves(p, Rules, Updates(p, OnlyCreate, Rules), provided.rules, after.rules, Refs(Rules, after));
    assert after.Get(Streams).Keys == provided.Get(Streams).Keys;
    assert after.Get(Rules).Keys == provided.Get(Rules).Keys;
    assert after.Get(IndexSets).Keys == provided.Get(IndexSets).Keys;
  }

  /** No title occurs twice. */
  ghost predicate UniqueTitles(t: Table) {
    forall id, id' | id in t && id' in t && t[id].title == t[id'].title :: id == id'
  }

  /** If titles were unique, a completed force-update run leaves every entity of a wanted title
      rendered by this very run, and titles stay unique. Of two entities with one title the
      run would rewrite only the first. */
  lemma ForceUpdateRendersAll(p: Plan, before: Store, after: Store, c: Collection)
    requires Agree(p.tables) && RunEvolves(p, ForceUpdate, before, after) && RunSettled(p, ForceUpdate, before, after)
    requires UniqueTitles(before.Get(c))
    ensures UniqueTitles(after.Get(c))
    ensures forall id | id in after.Get(c) && after.Get(c)[id].title in Targets(p, c) :: GoodEntry(p, c, after.Get(c)[id], Refs(c, after))
  {
    var was, now := before.Get(c), after.Get(c);
    assert Evolves(p, c, Updates(p, ForceUpdate, c), was, now, Refs(c, after));
    TitlesStayUnique(p, c, Updates(p, ForceUpdate, c), was, now, Refs(c, after));
    forall id | id in now && now[id].title in Targets(p, c)
      ensures GoodEntry(p, c, now[id], Refs(c, after))
    {
      var title := now[id].title;
      assert Settled(p, c, Updates(p, ForceUpdate, c), Provided(p, ForceUpdate, c), was, now, Refs(c, after));
      assert SettledAt(p, c, Updates(p, ForceUpdate, c), title, was, now, Refs(c, after));
      var good :| good in now && now[good].title == title && GoodEntry(p, c, now[good], Refs(c, after));
      assert good == id;
    }
  }

  lemma TitlesStayUnique(p: Plan, c: Collection, updates: set<string>, was: Table, now: Table, refs: Table)
    requires Agree(p.tables) && Evolves(p, c, updates, was, now, refs) && UniqueTitles(was)
    ensures UniqueTitles(now)
  {
    forall id, id' | id in now && id' in now && now[id].title == now[id'].title
      ensures id == id'
    {
      if id in was && id' !in was {
        assert HasTitle(was, now[id'].title);
      } else if id !in was && id' in was {
        assert HasTitle(was, now[id].title);
      }
    }
  }

  // ------------------------------------------------------------------ which runs complete

  lemma TitlesStay(p: Plan, policy: Policy, before: Store, after: Store, c: Collection, title: string)
    requires Agree(p.tables) && RunEvolves(p, policy, before, after)
    ensures HasTitle(before.Get(c), title) ==> HasTitle(after.Get(c), title)
    ensures HasTitle(after.Get(c), title) ==> HasTitle(before.Get(c), title) || title in Targets(p, c)
  {
    assert Evolves(p, c, Updates(p, policy, c), before.Get(c), after.Get(c), Refs(c, after));
    if HasTitle(before.Get(c), title) {
      var id :| id in before.Get(c) && before.Get(c)[id].title == title;
      assert id in after.Get(c) && after.Get(c)[id].title == title;
    }
    if HasTitle(after.Get(c), title) {
      var id :| id in after.Get(c) && after.Get(c)[id].title == title;
      assert id in before.Get(c) ==> before.Get(c)[id].title == title;
    }
  }

  /** The attempts do nothing for the default-stream rules of `p` that `p` would not do itself. */
  ghost predicate Compatible(q: Plan, p: Plan)
    requires Agree(q.tables) && Agree(p.tables)
  {
    var d, all := p.tables.defaultStream, p.tables.allMessagesStream;
    && q.tables == p.tables
    && (d in Targets(q, Streams) ==> d in Targets(p, Streams))
    && (all in Targets(q, Streams) ==> all in Targets(p, Streams))
    && forall r | r in Targets(q, Rules) && r in Targets(p, Rules) && Targets(p, Rules)[r] == d :: Targets(q, Rules)[r] == d
  }

  /** With the operator's tables every two plans are compatible: neither default stream is one
      that provisioning creates, and the common rules are routed to it under every plan. */
  lemma PlansCompatible(q: Plan, p: Plan)
    requires Agree(p.tables) && q.tables == p.tables && Separate(p.tables)
    ensures Compatible(q, p)
  {
    StreamTargetsExact(q.tables, q.enabled, p.tables.defaultStream);
    StreamTargetsExact(q.tables, q.enabled, p.tables.allMessagesStream);
    forall r | r in Targets(q, Rules) && r in Targets(p, Rules) && Targets(p, Rules)[r] == p.tables.defaultStream
      ensures Targets(q, Rules)[r] == p.tables.defaultStream
    {
      DefaultRulesAreCommon(p.tables, p.enabled, r);
      CommonRulesAreDefault(q.tables, q.enabled, r);
    }
  }

  lemma DefaultIndexSetStays(q: Plan, p: Plan, policy: Policy, before: Store, after: Store)
    requires Agree(q.tables) && Agree(p.tables) && Compatible(q, p) && RunEvolves(q, policy, before, after)
    ensures HasTitle(before.indexSets, p.tables.defaultIndexSet) <==> HasTitle(after.indexSets, p.tables.defaultIndexSet)
    ensures DefaultServed(p, after.streams) <==> DefaultServed(p, before.streams)
  {
    TitlesStay(q, policy, before, after, IndexSets, p.tables.defaultIndexSet);
    TitlesStay(q, policy, before, after, Streams, p.tables.defaultStream);
    TitlesStay(q, policy, before, after, Streams, p.tables.allMessagesStream);
  }

  /** A default-stream rule that an attempt created shows that such rules can be rendered. */
  lemma CreatedRuleServed(q: Plan, p: Plan, policy: Policy, before: Store, after: Store, r: string)
    requires Agree(q.tables) && Agree(p.tables) && Compatible(q, p) && RunEvolves(q, policy, before, after)
    requires r in Targets(p, Rules) && Targets(p, Rules)[r] == p.tables.defaultStream
    requires HasTitle(after.rules, r) && !HasTitle(before.rules, r)
    ensures DefaultServed(p, before.streams)
  {
    assert Evolves(q, Rules, Updates(q, policy, Rules), before.Get(Rules), after.Get(Rules), Refs(Rules, after));
    var id :| id in after.rules && after.rules[id].title == r;
    assert id !in before.rules;
    assert GoodEntry(q, Rules, after.rules[id], after.streams);
    var s := after.rules[id].body.streamId;
    assert HasTitle(after.streams, after.streams[s].title);
    DefaultIndexSetStays(q, p, policy, before, after);
  }

  /** An attempt, however far it got, neither helps nor hurts: a run without failing requests
      completes after it exactly if it would have completed before it. */
  lemma CompletableStays(q: Plan, attempt: Policy, p: Plan, policy: Policy, before: Store, after: Store)
    requires Agree(q.tables) && Agree(p.tables) && Compatible(q, p)
    requires !policy.OtherPolicy? && RunEvolves(q, attempt, before, after)
    ensures Completable(p, policy, after) <==> Completable(p, policy, before)
  {
    DefaultIndexSetStays(q, p, attempt, before, after);
    forall r | r in Targets(p, Rules) && Targets(p, Rules)[r] == p.tables.defaultStream
      ensures Renders(policy, after.rules, r) ==> Renders(policy, before.rules, r)
      ensures Renders(policy, before.rules, r) && !Renders(policy, after.rules, r) ==> DefaultServed(p, before.streams)
    {
      TitlesStay(q, attempt, before, after, Rules, r);
      if HasTitle(after.rules, r) && !HasTitle(before.rules, r) {
        CreatedRuleServed(q, p, attempt, before, after, r);
      }
    }
  }

  /** So after any aborted attempts, whatever they were asked for, the run that is made again
      without failing requests completes exactly if one uninterrupted run from the start would
      have. */
  lemma {:induction false} RestartCompletesIff(t: Tables, runs: seq<Run>, stores: seq<Store>, p: Plan, policy: Policy)
    requires Attempts(t, runs, stores) && p.tables == t && !policy.OtherPolicy?
    requires forall i | 0 <= i < |runs| :: Compatible(runs[i].plan, p)
    ensures Completable(p, policy, stores[|runs|]) <==> Completable(p, policy, stores[0])
  {
    var n := |runs|;
    if n > 0 {
      AttemptsBefore(t, runs, stores);
      RestartCompletesIff(t, runs[..n - 1], stores[..n], p, policy);
      AttemptAt(t, runs, stores, n - 1);
      CompletableStays(runs[n - 1].plan, runs[n - 1].policy, p, policy, stores[n - 1], stores[n]);
    }
  }

  // ------------------------------------------------------------------ runs that cannot complete

  /** A fresh server without a stream "Default Stream" or "All messages": no documented run
      completes, although the default index set is there. `OperatorTablesSeparate` shows that
      this is about every run of the operator. */
  lemma DocumentedRunCannotComplete(p: Plan, policy: Policy, body: Body)
    requires Agree(p.tables) && Separate(p.tables) && !policy.OtherPolicy?
    ensures var db := Store(map[1 := Entry(p.tables.defaultIndexSet, body)], map[], map[]);
            HasTitle(db.indexSets, p.tables.defaultIndexSet) && !Completable(p, policy, db)
  {
    var db := Store(map[1 := Entry(p.tables.defaultIndexSet, body)], map[], map[]);
    assert 1 in db.indexSets;
    StreamTargetsExact(p.tables, p.enabled, p.tables.defaultStream);
    StreamTargetsExact(p.tables, p.enabled, p.tables.allMessagesStream);
    var r :| r in p.tables.commonRules;
    CommonRulesAreDefault(p.tables, p.enabled, r);
    assert Renders(policy, db.rules, r);
  }

  /** Under another policy a run that enables the audit stream cannot complete on such a server
      either, and leaves a resume of the empty id. */
  lemma OtherRunCannotComplete(p: Plan, body: Body)
    requires p.tables == OperatorTables() && "Audit logs" in p.enabled
    ensures Agree(p.tables)
    ensures var db := Store(map[1 := Entry(p.tables.defaultIndexSet, body)], map[], map[]);
            HasTitle(db.indexSets, p.tables.defaultIndexSet) && !Completable(p, OtherPolicy, db)
  {
    OperatorTablesAgree();
    var db := Store(map[1 := Entry(p.tables.defaultIndexSet, body)], map[], map[]);
    assert 1 in db.indexSets;
    StreamTargetsExact(p.tables, p.enabled, "Audit logs");
    assert "Audit logs" in Targets(p, Streams).Keys;
  }

  /** A policy outside the two documented values creates no stream yet still resumes every
      wanted one, so such a run can complete only if all of them existed beforehand. */
  lemma OtherPolicyNeedsStreams(p: Plan, before: Store, after: Store)
    requires Agree(p.tables) && RunEvolves(p, OtherPolicy, before, after) && RunSettled(p, OtherPolicy, before, after)
    ensures forall s | s in Targets(p, Streams) :: HasTitle(before.streams, s)
  {
    assert Settled(p, Streams, Updates(p, OtherPolicy, Streams), Provided(p, OtherPolicy, Streams), before.streams, after.streams, Refs(Streams, after));
    forall s | s in Targets(p, Streams)
      ensures HasTitle(before.streams, s)
    {
      assert SettledAt(p, Streams, Updates(p, OtherPolicy, Streams), s, before.streams, after.streams, Refs(Streams, after));
    }
  }
}
