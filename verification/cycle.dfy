/** One generation cycle of `generate`, without its file output: for every rule in order,
    query the inventory, drop ignored servers, build the groups, and concatenate. */
module Cycle {
  import opened Wrappers
  import opened Inventory
  import opened ServerFilter
  import opened Metadata
  import LabelName
  import Decimal

  /** The inventory search: the servers of a zone that carry all the given tags, or an
      error. The search itself is not part of this model. */
  type Query = (string, seq<string>) -> Result<seq<Server>>

  /** Every rule selects an existing interface position. */
  predicate ValidTargets(targets: seq<Target>)
  {
    forall i :: 0 <= i < |targets| ==> targets[i].interfaceIndex >= 0
  }

  /** The groups of one rule, from the servers its query returned. */
  function RuleGroups(rawServers: seq<Server>, target: Target, config: Config): (r: seq<Group>)
    requires target.interfaceIndex >= 0
    ensures |r| <= |rawServers|
    ensures forall g :: g in r ==>
      exists s :: s in rawServers && !IsIgnored(s, target.ignoreTags) && BuildGroup(s, target, config) == Some(g)
    ensures forall s :: s in rawServers && !IsIgnored(s, target.ignoreTags) && BuildGroup(s, target, config).Some? ==>
      BuildGroup(s, target, config).value in r
  {
    BuildMetadataGroups(Kept(rawServers, target.ignoreTags), target, config);
    BuildMetadataComplete(Kept(rawServers, target.ignoreTags), target, config);
    BuildMetadata(Kept(rawServers, target.ignoreTags), target, config)
  }

  /** The servers the query returns for a rule. */
  function Fetch(query: Query, config: Config, target: Target): Result<seq<Server>>
  {
    query(config.zone, QueryTags(config, target))
  }

  /** `generate` without its file output, over a rule list `targets` (`RunCycle` passes
      the configuration's own): the rules are processed in order, each contributing
      its groups, and the first failing query aborts the whole cycle. */
  function Generate(config: Config, targets: seq<Target>, query: Query): (r: Result<seq<Group>>)
    requires ValidTargets(targets)
    ensures r.Ok? <==> forall i :: 0 <= i < |targets| ==> Fetch(query, config, targets[i]).Ok?
    ensures r.Err? ==> exists i :: 0 <= i < |targets| && Fetch(query, config, targets[i]) == Err(r.error)
                                   && (forall j :: 0 <= j < i ==> Fetch(query, config, targets[j]).Ok?)
    ensures r.Ok? ==> forall g :: g in r.value ==> WellFormed(g)
    ensures r.Ok? ==> forall g :: g in r.value ==>
      exists i :: 0 <= i < |targets| && g in RuleGroups(Fetch(query, config, targets[i]).value, targets[i], config)
    ensures r.Ok? ==> forall i, g :: 0 <= i < |targets| && g in RuleGroups(Fetch(query, config, targets[i]).value, targets[i], config) ==>
      g in r.value
  {
    if |targets| == 0 then Ok([])
    else
      assert ValidTargets(targets[1..]) by {
        forall i | 0 <= i < |targets[1..]| ensures targets[1..][i].interfaceIndex >= 0 {
          assert targets[1..][i] == targets[i + 1];
        }
      }
      match Fetch(query, config, targets[0])
      case Err(e) => Err(e)
      case Ok(rawServers) =>
        var rest := Generate(config, targets[1..], query);
        assert forall i :: 1 <= i < |targets| ==> targets[i] == targets[1..][i - 1];
        match rest
        case Err(e) => Err(e)
        case Ok(groups) => Ok(RuleGroups(rawServers, targets[0], config) + groups)
  }

  /** One cycle of `generate` over the configuration's own rule list. */
  function RunCycle(config: Config, query: Query): (r: Result<seq<Group>>)
    requires ValidTargets(config.targets)
    ensures r.Ok? <==> forall i :: 0 <= i < |config.targets| ==> Fetch(query, config, config.targets[i]).Ok?
    ensures r.Ok? ==> forall g :: g in r.value ==>
      exists i :: 0 <= i < |config.targets| && g in RuleGroups(Fetch(query, config, config.targets[i]).value, config.targets[i], config)
    ensures r.Ok? ==> forall i, g :: 0 <= i < |config.targets|
                                     && g in RuleGroups(Fetch(query, config, config.targets[i]).value, config.targets[i], config) ==>
      g in r.value
  {
    Generate(config, config.targets, query)
  }

  lemma ValidTargetsAppend(a: seq<Target>, b: seq<Target>)
    requires ValidTargets(a) && ValidTargets(b)
    requires |a| > 0
    ensures ValidTargets(a + b) && ValidTargets((a + b)[1..]) && ValidTargets(a[1..])
  {
    assert forall i :: 0 <= i < |a| ==> (a + b)[i] == a[i];
    assert forall i :: |a| <= i < |a + b| ==> (a + b)[i] == b[i - |a|];
    assert forall i :: 1 <= i < |a + b| ==> (a + b)[1..][i - 1] == (a + b)[i];
    assert forall i :: 1 <= i < |a| ==> a[1..][i - 1] == a[i];
  }

  /** One step of the cycle: the first rule's groups, then those of the remaining rules. */
  lemma GenerateStep(config: Config, targets: seq<Target>, query: Query)
    requires ValidTargets(targets) && |targets| > 0 && ValidTargets(targets[1..])
    ensures Generate(config, targets, query).Ok?
        <==> Fetch(query, config, targets[0]).Ok? && Generate(config, targets[1..], query).Ok?
    ensures Generate(config, targets, query).Ok? ==>
      Generate(config, targets, query).value
        == RuleGroups(Fetch(query, config, targets[0]).value, targets[0], config)
           + Generate(config, targets[1..], query).value
  {
  }

  /** A cycle over a single rule yields exactly that rule's groups, or its query's error. */
  lemma GenerateSingle(config: Config, target: Target, query: Query)
    requires target.interfaceIndex >= 0
    ensures ValidTargets([target])
    ensures Fetch(query, config, target).Err? ==>
      Generate(config, [target], query) == Err(Fetch(query, config, target).error)
    ensures Fetch(query, config, target).Ok? ==>
      Generate(config, [target], query) == Ok(RuleGroups(Fetch(query, config, target).value, target, config))
  {
    assert [target][1..] == [];
    assert Generate(config, [target][1..], query) == Ok([]);
    if Fetch(query, config, target).Ok? {
      var groups := RuleGroups(Fetch(query, config, target).value, target, config);
      assert groups + [] == groups;
    }
  }

  /** Rules contribute their groups in configuration order: the groups of a cycle over
      `a + b` are those over `a` followed by those over `b`. */
  lemma {:induction false} GenerateAppend(config: Config, a: seq<Target>, b: seq<Target>, query: Query)
    requires ValidTargets(a) && ValidTargets(b)
    ensures ValidTargets(a + b)
    ensures Generate(config, a + b, query).Ok? ==>
      && Generate(config, a, query).Ok? && Generate(config, b, query).Ok?
      && Generate(config, a + b, query).value == Generate(config, a, query).value + Generate(config, b, query).value
  {
    if |a| == 0 {
      assert a + b == b;
    } else {
      ValidTargetsAppend(a, b);
      var ab := a + b;
      assert ab[0] == a[0];
      assert ab[1..] == a[1..] + b;
      GenerateAppend(config, a[1..], b, query);
      GenerateStep(config, ab, query);
      GenerateStep(config, a, query);
    }
  }

  /** A worked example: a rule for service `web` over servers tagged `prod`, ignoring
      `staging`, on port 9100 of interface 0. Of two returned servers, the one also
      tagged `staging` is dropped even though it matches the query tag; the other
      yields one group addressed at its provider address. */
  const ExampleTarget: Target := Target("web", ["prod"], ["staging"], [9100], 0)
  const ExampleConfig: Config := Config("is1a", [], [ExampleTarget], "server_name")
  const ExampleKept: Server := Server(1, "a", "a-host", Zone("is1a"), [Interface("10.0.0.1", "")], ["prod"])
  const ExampleIgnored: Server :=
    Server(2, "b", "b-host", Zone("is1a"), [Interface("10.0.0.2", "")], ["prod", "staging"])

  lemma ExampleFilter()
    ensures Kept([ExampleKept, ExampleIgnored], ExampleTarget.ignoreTags) == [ExampleKept]
  {
    assert IsIgnored(ExampleIgnored, ExampleTarget.ignoreTags);
    assert !IsIgnored(ExampleKept, ExampleTarget.ignoreTags);
    assert [ExampleKept, ExampleIgnored][..1] == [ExampleKept] && [ExampleKept][..0] == [];
  }

  lemma ExampleText()
    ensures HostPort("10.0.0.1", 9100) == "10.0.0.1:9100"
    ensures Decimal.Format(1) == "1"
    ensures TagsValue(["prod"]) == ",prod,"
  {
    assert Decimal.NatDigits(9) == "9";
    assert Decimal.NatDigits(91) == "91";
    assert Decimal.NatDigits(910) == "910";
    assert Decimal.NatDigits(9100) == "9100";
    assert LabelName.Sanitize("prod") == "prod";
    assert SanitizeAll(["prod"]) == ["prod"];
  }

  lemma ExampleRule()
    ensures |RuleGroups([ExampleKept, ExampleIgnored], ExampleTarget, ExampleConfig)| == 1
    ensures
      var g := RuleGroups([ExampleKept, ExampleIgnored], ExampleTarget, ExampleConfig)[0];
      && g.targets == [map[AddressLabel := "10.0.0.1:9100"]]
      && g.labels[ServiceLabel] == "web"
      && g.labels[ResourceIDLabel] == "1"
      && g.labels[HostnameLabel] == "a"
      && g.labels[TagLabel] == ",prod,"
  {
    ExampleFilter();
    ExampleText();
    BuildMetadataSingle(ExampleKept, ExampleTarget, ExampleConfig);
    assert ResolveAddress(ExampleKept, 0) == Some("10.0.0.1");
    GroupLabelsContents(ExampleKept, "10.0.0.1", ExampleTarget, ExampleConfig);
  }
}
