/** The lookup tables of the Graylog provisioning code: which index set a stream writes
    to, which asset an index set is rendered from, and which rule routes into a stream.

    The proofs are made for any tables that agree with each other; `OperatorTablesAgree`
    then shows that the tables the operator ships do. */
module GraylogTables {

  datatype Tables = Tables(
    defaultIndexSet: string,
    auditIndexSet: string,
    defaultStream: string,
    allMessagesStream: string,
    indexTitles: map<string, string>,   // stream title -> index set title
    indexConfigs: map<string, string>,  // index set title -> asset
    streamRules: map<string, string>,   // stream title -> rule title
    commonRules: set<string>,           // rules that always run on the default stream
    ruleConfigs: map<string, string>    // rule title -> asset
  )

  /** What provisioning needs of the tables: no lookup made for an enabled stream may
      miss, and a stream that has a rule is one that provisioning creates, or the
      default stream. */
  ghost predicate Agree(t: Tables) {
    && t.defaultIndexSet in t.indexConfigs
    && t.auditIndexSet in t.indexConfigs
    && (forall s | s in t.indexTitles :: t.indexTitles[s] in t.indexConfigs)
    && (forall s | s in t.streamRules :: t.streamRules[s] in t.ruleConfigs)
    && (forall s | s in t.streamRules :: s in t.indexTitles || s == t.defaultStream)
    && (forall r | r in t.commonRules :: r in t.ruleConfigs)
  }

  /** The tables of internal/utils/vars.go. Three entries of the rule table share the key
      "Default Stream"; the last one wins. */
  function OperatorTables(): Tables {
    Tables(
      "Default index set", "Audit index set", "Default Stream", "All messages",
      map["Audit logs" := "Audit index set",
          "System logs" := "Default index set",
          "Access logs" := "Access index set",
          "Integration logs" := "Integration index set",
          "Bill Cycle logs" := "Bill Cycle index set",
          "Nginx logs" := "Ingress-nginx index set",
          "Kubernetes events" := "Kubernetes events index set"],
      map["Audit index set" := "config/indexes/audit_index.json",
          "Access index set" := "config/indexes/access_index.json",
          "Integration index set" := "config/indexes/integration_index.json",
          "Bill Cycle index set" := "config/indexes/bill_cycle_index.json",
          "Ingress-nginx index set" := "config/indexes/nginx_index.json",
          "Default index set" := "config/indexes/default_index.json",
          "Kubernetes events index set" := "config/indexes/k8s_event_index.json"],
      OperatorStreamRules(),
      {"Processing unsupported symbols", "Remove kubernetes field", "Remove kubernetes_labels field"},
      map["Route Audit logs" := "config/processing_rules/audit_logs.rule",
          "Route System logs" := "config/processing_rules/system_logs.rule",
          "Route Access logs" := "config/processing_rules/access_logs.rule",
          "Route Integration logs" := "config/processing_rules/int_logs.rule",
          "Route Bill Cycle logs" := "config/processing_rules/bill_cycle_logs.rule",
          "Route Nginx logs" := "config/processing_rules/nginx_logs.rule",
          "Remove kubernetes field" := "config/processing_rules/remove_kubernetes.rule",
          "Remove kubernetes_labels field" := "config/processing_rules/remove_kubernetes_labels.rule",
          "Processing unsupported symbols" := "config/processing_rules/unsupported_symbols.rule",
          "Route Kubernetes events" := "config/processing_rules/k8s_event_logs.rule"])
  }

  function OperatorStreamRules(): map<string, string> {
    map["Audit logs" := "Route Audit logs",
        "System logs" := "Route System logs",
        "Access logs" := "Route Access logs",
        "Integration logs" := "Route Integration logs",
        "Bill Cycle logs" := "Route Bill Cycle logs",
        "Nginx logs" := "Route Nginx logs",
        "Kubernetes events" := "Route Kubernetes events",
        "Default Stream" := "Processing unsupported symbols"]
  }

  lemma OperatorTablesAgree()
    ensures Agree(OperatorTables())
  {
  }

  // ------------------------------------------------------------------ wanted entities

  /** Index set title -> asset, for the default and audit index sets and for every
      enabled stream that has an index set. */
  function IndexTargets(t: Tables, enabled: seq<string>): (m: map<string, string>)
    requires Agree(t)
    ensures m.Keys <= t.indexConfigs.Keys
  {
    if enabled == [] then
      map[t.defaultIndexSet := t.indexConfigs[t.defaultIndexSet], t.auditIndexSet := t.indexConfigs[t.auditIndexSet]]
    else
      var m := IndexTargets(t, enabled[..|enabled| - 1]);
      var stream := enabled[|enabled| - 1];
      if stream in t.indexTitles then
        m[t.indexTitles[stream] := t.indexConfigs[t.indexTitles[stream]]]
      else m
  }

  /** Stream title -> index set title. */
  function StreamTargets(t: Tables, enabled: seq<string>): (m: map<string, string>) {
    if enabled == [] then map[]
    else
      var m := StreamTargets(t, enabled[..|enabled| - 1]);
      var stream := enabled[|enabled| - 1];
      if stream in t.indexTitles then m[stream := t.indexTitles[stream]] else m
  }

  /** Rule title -> title of the stream whose id the rule source is rendered with. */
  function RuleTargets(t: Tables, enabled: seq<string>): (m: map<string, string>) {
    if enabled == [] then map r | r in t.commonRules :: t.defaultStream
    else
      var m := RuleTargets(t, enabled[..|enabled| - 1]);
      var stream := enabled[|enabled| - 1];
      if stream in t.streamRules then m[t.streamRules[stream] := stream] else m
  }

  /** The three tables agree on the enabled streams: every stream to create has a wanted
      index set, and every rule to render points at a stream to create or at the default
      stream. */
  lemma {:induction false} TargetsAgree(t: Tables, enabled: seq<string>)
    requires Agree(t)
    ensures forall s | s in StreamTargets(t, enabled) :: StreamTargets(t, enabled)[s] in IndexTargets(t, enabled)
    ensures forall r | r in RuleTargets(t, enabled) ::
              r in t.ruleConfigs &&
              (RuleTargets(t, enabled)[r] == t.defaultStream || RuleTargets(t, enabled)[r] in StreamTargets(t, enabled))
    ensures t.defaultIndexSet in IndexTargets(t, enabled)
  {
    if enabled != [] {
      TargetsAgree(t, enabled[..|enabled| - 1]);
    }
  }

  /** Exactly the enabled streams the index table knows are created. */
  lemma {:induction false} StreamTargetsExact(t: Tables, enabled: seq<string>, s: string)
    ensures s in StreamTargets(t, enabled) <==> s in enabled && s in t.indexTitles
    ensures s in StreamTargets(t, enabled) ==> StreamTargets(t, enabled)[s] == t.indexTitles[s]
  {
    if enabled != [] {
      var n := |enabled| - 1;
      StreamTargetsExact(t, enabled[..n], s);
      assert enabled == enabled[..n] + [enabled[n]];
    }
  }

  /** Wanted are the default and the audit index set and those of the enabled streams, and no
      others, each rendered from its own asset. */
  lemma {:induction false} IndexTargetsExact(t: Tables, enabled: seq<string>, i: string)
    requires Agree(t)
    ensures i in IndexTargets(t, enabled) <==>
            i == t.defaultIndexSet || i == t.auditIndexSet || exists s :: s in enabled && s in t.indexTitles && t.indexTitles[s] == i
    ensures i in IndexTargets(t, enabled) ==> IndexTargets(t, enabled)[i] == t.indexConfigs[i]
  {
    if enabled != [] {
      var n := |enabled| - 1;
      IndexTargetsExact(t, enabled[..n], i);
      assert enabled == enabled[..n] + [enabled[n]];
    }
  }

  /** Stream `s` asks for rule `r`. */
  ghost predicate Owns(t: Tables, s: string, r: string) {
    s in t.streamRules && t.streamRules[s] == r
  }

  /** Wanted are the common rules and the rules of the enabled streams, and no others. */
  lemma {:induction false} RuleTargetsExact(t: Tables, enabled: seq<string>, r: string)
    ensures r in RuleTargets(t, enabled) <==>
            r in t.commonRules || exists s :: s in enabled && s in t.streamRules && t.streamRules[s] == r
  {
    if enabled != [] {
      var n := |enabled| - 1;
      RuleTargetsExact(t, enabled[..n], r);
      assert enabled == enabled[..n] + [enabled[n]];
    }
  }

  /** A rule is rendered for the last enabled stream that asks for it. */
  lemma {:induction false} LastOwnerDecides(t: Tables, enabled: seq<string>, r: string, i: nat)
    requires i < |enabled| && Owns(t, enabled[i], r) && forall j | i < j < |enabled| :: !Owns(t, enabled[j], r)
    ensures r in RuleTargets(t, enabled) && RuleTargets(t, enabled)[r] == enabled[i]
  {
    var n := |enabled| - 1;
    if i < n {
      LastOwnerDecides(t, enabled[..n], r, i);
      assert !Owns(t, enabled[n], r);
    }
  }

  /** And a common rule that none of them asks for, for the default stream. */
  lemma {:induction false} UnownedIsDefault(t: Tables, enabled: seq<string>, r: string)
    requires r in t.commonRules && forall i | 0 <= i < |enabled| :: !Owns(t, enabled[i], r)
    ensures r in RuleTargets(t, enabled) && RuleTargets(t, enabled)[r] == t.defaultStream
  {
    var n := |enabled| - 1;
    if enabled != [] {
      UnownedIsDefault(t, enabled[..n], r);
      assert !Owns(t, enabled[n], r);
    }
  }

  /** No two streams share a rule. */
  ghost predicate OneOwner(rules: map<string, string>) {
    forall s, s' | s in rules && s' in rules && rules[s] == rules[s'] :: s == s'
  }

  lemma OperatorRulesOneOwner()
    ensures OneOwner(OperatorStreamRules())
  {
  }

  /** Then the rule of an enabled stream is rendered for that very stream. */
  lemma RuleOfStream(t: Tables, enabled: seq<string>, s: string)
    requires OneOwner(t.streamRules) && s in enabled && s in t.streamRules
    ensures t.streamRules[s] in RuleTargets(t, enabled) && RuleTargets(t, enabled)[t.streamRules[s]] == s
  {
    var r := t.streamRules[s];
    var i := LastIndex(enabled, s);
    LastOwnerDecides(t, enabled, r, i);
  }

  lemma {:induction false} LastIndex(enabled: seq<string>, s: string) returns (i: nat)
    requires s in enabled
    ensures i < |enabled| && enabled[i] == s && forall j | i < j < |enabled| :: enabled[j] != s
  {
    var n := |enabled| - 1;
    if enabled[n] == s {
      i := n;
    } else {
      assert enabled == enabled[..n] + [enabled[n]];
      i := LastIndex(enabled[..n], s);
    }
  }

  // ------------------------------------------------------------------ the default stream

  /** Provisioning creates neither stream that serves the default-stream rules, and these rules
      are exactly the common ones. */
  ghost predicate Separate(t: Tables) {
    && t.commonRules != {}
    && t.defaultStream !in t.indexTitles && t.allMessagesStream !in t.indexTitles
    && forall s | s in t.streamRules :: s == t.defaultStream <==> t.streamRules[s] in t.commonRules
  }

  lemma OperatorTablesSeparate()
    ensures Separate(OperatorTables())
  {
    assert "Remove kubernetes field" in OperatorTables().commonRules;
  }

  lemma {:induction false} DefaultRulesAreCommon(t: Tables, enabled: seq<string>, r: string)
    requires Separate(t) && r in RuleTargets(t, enabled) && RuleTargets(t, enabled)[r] == t.defaultStream
    ensures r in t.commonRules
  {
    if enabled != [] {
      var stream := enabled[|enabled| - 1];
      if !(stream in t.streamRules && t.streamRules[stream] == r) {
        DefaultRulesAreCommon(t, enabled[..|enabled| - 1], r);
      }
    }
  }

  lemma {:induction false} CommonRulesAreDefault(t: Tables, enabled: seq<string>, r: string)
    requires Separate(t) && r in t.commonRules
    ensures r in RuleTargets(t, enabled) && RuleTargets(t, enabled)[r] == t.defaultStream
  {
    if enabled != [] {
      CommonRulesAreDefault(t, enabled[..|enabled| - 1], r);
    }
  }
}
