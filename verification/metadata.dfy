/** `buildMetadata`: turns the servers that survived the filter into Prometheus
    file-based discovery target groups. */
module Metadata {
  import opened Wrappers
  import opened Strings
  import Decimal
  import opened LabelName
  import opened Inventory
  import Seqs

  type LabelSet = map<string, string>

  /** Label names. `__meta_` is Prometheus's reserved meta-label prefix, and every
      label of this discoverer extends it with `sacloud_`; `__address__` is the
      scrape-address label. */
  const ZoneLabel: string := "__meta_sacloud_zone"
  const ResourceIDLabel: string := "__meta_sacloud_resource_id"
  const NameLabel: string := "__meta_sacloud_name"
  const IPLabel: string := "__meta_sacloud_ip"
  const TagLabel: string := "__meta_sacloud_instances_tags"
  const AddressLabel: string := "__address__"
  const HostnameLabel: string := "hostname"
  const ServiceLabel: string := "service"

  /** The `Source` of every group. */
  const GroupSource: string := "sacloud"

  /** Labels every group carries; the tag label is added when the server has tags. */
  const RequiredKeys: set<string> :=
    {ZoneLabel, ResourceIDLabel, NameLabel, IPLabel, HostnameLabel, ServiceLabel}

  /** A discovery target group: its targets (label sets holding `__address__`) and
      the labels shared by all of them. */
  datatype Group = Group(source: string, targets: seq<LabelSet>, labels: LabelSet)

  /** Reference policy for address selection: the first candidate that is not empty. */
  function FirstNonEmpty(candidates: seq<string>): (r: Option<string>)
    ensures r.None? <==> forall i :: 0 <= i < |candidates| ==> candidates[i] == ""
    ensures r.Some? ==> r.value != ""
    ensures r.Some? ==> exists i :: 0 <= i < |candidates| && candidates[i] == r.value
                                    && (forall j :: 0 <= j < i ==> candidates[j] == "")
  {
    if |candidates| == 0 then None
    else if candidates[0] != "" then Some(candidates[0])
    else
      var r := FirstNonEmpty(candidates[1..]);
      assert forall i :: 1 <= i < |candidates| ==> candidates[i] == candidates[1..][i - 1];
      r
  }

  /** The three address sources, in the order they are tried. */
  function AddressCandidates(server: Server, index: nat): seq<string>
    requires index < |server.interfaces|
  {
    [server.interfaces[index].userIPAddress,
     server.interfaces[0].ipAddress,
     server.interfaces[0].userIPAddress]
  }

  /** The address of a server: the selected interface's user address, else the primary
      interface's provider address, else the primary interface's user address. No
      address when the selected interface does not exist or all three are empty. */
  function ResolveAddress(server: Server, index: nat): (r: Option<string>)
    ensures |server.interfaces| <= index ==> r.None?
    ensures index < |server.interfaces| ==> r == FirstNonEmpty(AddressCandidates(server, index))
    ensures r.Some? ==> r.value != ""
  {
    if |server.interfaces| <= index then None
    else
      var selected := server.interfaces[index].userIPAddress;
      var shared := if selected == "" then server.interfaces[0].ipAddress else selected;
      var ip := if shared == "" then server.interfaces[0].userIPAddress else shared;
      var cs := AddressCandidates(server, index);
      assert cs[1..] == [cs[1], cs[2]] && cs[1..][1..] == [cs[2]] && cs[1..][1..][1..] == [];
      assert FirstNonEmpty(cs[1..][1..]) == (if cs[2] != "" then Some(cs[2]) else None);
      assert FirstNonEmpty(cs[1..]) == (if cs[1] != "" then Some(cs[1]) else FirstNonEmpty(cs[1..][1..]));
      if ip == "" then None else Some(ip)
  }

  /** `fmt.Sprintf("%s:%d", ip, port)`. */
  function HostPort(ip: string, port: int): string
  {
    ip + ":" + Decimal.Format(port)
  }

  /** Splits an address at its last colon and reads the port after it. */
  function SplitHostPort(address: string): Option<(string, int)>
  {
    match LastIndex(address, ':')
    case None => None
    case Some(k) =>
      match Decimal.Parse(address[k + 1..])
      case None => None
      case Some(port) => Some((address[..k], port))
  }

  lemma FormatHasNoColon(n: int)
    ensures ':' !in Decimal.Format(n)
  {
    var r := Decimal.Format(n);
    forall i | 0 <= i < |r| ensures r[i] != ':' {
      if i > 0 || n >= 0 {
        assert n < 0 ==> r[i] == r[1..][i - 1];
      }
    }
  }

  /** A host:port address gives back its host and port, even when the host itself
      contains colons. */
  lemma HostPortRoundTrip(ip: string, port: int)
    ensures SplitHostPort(HostPort(ip, port)) == Some((ip, port))
  {
    var d := Decimal.Format(port);
    var a := ip + [':'] + d;
    assert HostPort(ip, port) == a;
    FormatHasNoColon(port);
    LastIndexOfSeparator(ip, ':', d);
    Seqs.AroundSeparator(ip, ':', d);
    Decimal.FormatRoundTrip(port);
  }

  /** The port loop: every port writes `__address__` of the same label set, so the
      last port wins, and no ports leave the set empty. */
  function TargetLabels(ip: string, ports: seq<int>): (r: LabelSet)
    ensures |ports| == 0 ==> r == map[]
    ensures |ports| > 0 ==> r == map[AddressLabel := HostPort(ip, ports[|ports| - 1])]
  {
    if |ports| == 0 then map[]
    else TargetLabels(ip, ports[..|ports| - 1])[AddressLabel := HostPort(ip, ports[|ports| - 1])]
  }

  /** Every tag sanitised, in order. */
  function SanitizeAll(tags: seq<string>): seq<string>
  {
    seq(|tags|, i requires 0 <= i < |tags| => Sanitize(tags[i]))
  }

  /** Value of the tag label: `,t1,t2,...,` over the sanitised tags. */
  function TagsValue(tags: seq<string>): (r: string)
    ensures |r| >= 2 && r[0] == ',' && r[|r| - 1] == ','
  {
    "," + Join(SanitizeAll(tags), ",") + ","
  }

  lemma SanitizeAllCommaFree(tags: seq<string>)
    ensures CommaFree(SanitizeAll(tags))
  {
    forall i | 0 <= i < |tags| ensures ',' !in SanitizeAll(tags)[i] {
      SanitizedCommaFree(tags[i]);
    }
  }

  lemma TagsValueDelimited(tags: seq<string>)
    requires |tags| > 0
    ensures TagsValue(tags) == "," + Terminated(SanitizeAll(tags))
  {
    JoinThenComma(SanitizeAll(tags));
  }

  /** Outside its commas, a comma-terminated list of label names holds only label characters. */
  lemma {:induction false} TerminatedLabelChars(parts: seq<string>)
    requires forall i :: 0 <= i < |parts| ==> IsLabelName(parts[i])
    ensures forall i :: (0 <= i < |Terminated(parts)| && Terminated(parts)[i] != ',')
                        ==> IsLabelChar(Terminated(parts)[i])
  {
    if |parts| > 0 {
      var rest := parts[1..];
      assert forall i :: 0 <= i < |rest| ==> IsLabelName(rest[i]) by {
        forall i | 0 <= i < |rest| ensures IsLabelName(rest[i]) {
          assert rest[i] == parts[i + 1];
        }
      }
      TerminatedLabelChars(rest);
      var t := Terminated(parts);
      assert t == parts[0] + "," + Terminated(rest);
      forall i | 0 <= i < |t| && t[i] != ',' ensures IsLabelChar(t[i]) {
        if i < |parts[0]| {
          assert t[i] == parts[0][i];
        } else {
          assert t[i] == Terminated(rest)[i - |parts[0]| - 1];
        }
      }
    }
  }

  /** Shape of the tag label: opens and closes with a comma, holds one comma per tag
      plus one, and every other character is a label-name character. */
  lemma TagsValueShape(tags: seq<string>)
    requires |tags| > 0
    ensures |TagsValue(tags)| >= 2
    ensures TagsValue(tags)[0] == ',' && TagsValue(tags)[|TagsValue(tags)| - 1] == ','
    ensures Count(',', TagsValue(tags)) == |tags| + 1
    ensures forall i :: (0 <= i < |TagsValue(tags)| && TagsValue(tags)[i] != ',')
                        ==> IsLabelChar(TagsValue(tags)[i])
  {
    var v := TagsValue(tags);
    var parts := SanitizeAll(tags);
    SanitizeAllCommaFree(tags);
    TagsValueDelimited(tags);
    DelimitedCommaCount(parts);
    TerminatedLabelChars(parts);
    forall i | 0 <= i < |v| && v[i] != ',' ensures IsLabelChar(v[i]) {
      assert v[i] == Terminated(parts)[i - 1];
    }
  }

  /** The leading and trailing commas make substring queries exact: `,x,` for a
      sanitised tag `x` occurs in the label exactly when some tag of the server
      sanitises to `x`; a tag that is only a prefix or part of another never matches. */
  lemma TagsValueQuery(tags: seq<string>, tag: string)
    requires |tags| > 0
    ensures Contains(TagsValue(tags), "," + Sanitize(tag) + ",")
      <==> exists u :: u in tags && Sanitize(u) == Sanitize(tag)
  {
    var parts := SanitizeAll(tags);
    var x := Sanitize(tag);
    TagsValueDelimited(tags);
    SanitizeAllCommaFree(tags);
    SanitizedCommaFree(tag);
    if exists u :: u in tags && Sanitize(u) == x {
      var u :| u in tags && Sanitize(u) == x;
      var i :| 0 <= i < |tags| && tags[i] == u;
      assert parts[i] == x;
      DelimitedContainsPart(parts, x);
    }
    if Contains(TagsValue(tags), "," + x + ",") {
      var k: nat :| k <= |TagsValue(tags)| && OccursAt(TagsValue(tags), "," + x + ",", k);
      DelimitedContainsOnlyParts(parts, x, k);
      var i :| 0 <= i < |parts| && parts[i] == x;
      assert tags[i] in tags;
    }
  }

  /** The `hostname` label: the host name in `modify_disk` mode, the server name otherwise. */
  function HostnameValue(server: Server, config: Config): string
  {
    if config.hostNameType == ModifyDisk then server.hostName else server.name
  }

  /** The four `__meta_sacloud_*` labels every group carries: zone, id text, name and address. */
  function BaseLabels(server: Server, ip: string): (l: LabelSet)
    ensures l.Keys == {ZoneLabel, ResourceIDLabel, NameLabel, IPLabel}
  {
    map[
      ZoneLabel := server.zone.name,
      ResourceIDLabel := Decimal.Format(server.id),
      NameLabel := server.name,
      IPLabel := ip]
  }

  /** The labels of a server's group, given its resolved address. */
  function GroupLabels(server: Server, ip: string, target: Target, config: Config): LabelSet
  {
    var base := BaseLabels(server, ip);
    var tagged := if |server.tags| > 0 then base[TagLabel := TagsValue(server.tags)] else base;
    tagged[HostnameLabel := HostnameValue(server, config)][ServiceLabel := target.service]
  }

  /** The label names are pairwise distinct, so no label overwrites another. */
  lemma LabelNamesDistinct()
    ensures |RequiredKeys| == 6 && TagLabel !in RequiredKeys
    ensures |RequiredKeys + {TagLabel}| == 7
  {
    assert ZoneLabel[15] != NameLabel[15];
  }

  /** The number of label names of a group: six, or seven with the tag label. */
  lemma LabelKeyCount(tagged: bool)
    ensures |RequiredKeys + (if tagged then {TagLabel} else {})| == (if tagged then 7 else 6)
  {
    LabelNamesDistinct();
    if !tagged {
      assert RequiredKeys + {} == RequiredKeys;
    }
  }

  lemma GroupLabelsContents(server: Server, ip: string, target: Target, config: Config)
    ensures var l := GroupLabels(server, ip, target, config);
      && l.Keys == RequiredKeys + (if |server.tags| > 0 then {TagLabel} else {})
      && |l.Keys| == (if |server.tags| > 0 then 7 else 6)
      && l[ZoneLabel] == server.zone.name
      && l[ResourceIDLabel] == Decimal.Format(server.id)
      && l[NameLabel] == server.name
      && l[IPLabel] == ip
      && (|server.tags| > 0 ==> l[TagLabel] == TagsValue(server.tags))
      && l[HostnameLabel] == HostnameValue(server, config)
      && l[ServiceLabel] == target.service
  {
    var base := BaseLabels(server, ip);
    assert base.Keys == {ZoneLabel, ResourceIDLabel, NameLabel, IPLabel};
    LabelKeyCount(|server.tags| > 0);
  }

  /** What every group of the output satisfies, whatever server it came from. */
  predicate WellFormed(g: Group)
  {
    && g.source == GroupSource
    && |g.targets| == 1
    && g.targets[0].Keys <= {AddressLabel}
    && RequiredKeys <= g.labels.Keys <= RequiredKeys + {TagLabel}
    && g.labels[IPLabel] != ""
    && (AddressLabel in g.targets[0] ==>
          SplitHostPort(g.targets[0][AddressLabel]).Some?
          && SplitHostPort(g.targets[0][AddressLabel]).value.0 == g.labels[IPLabel])
    && (TagLabel in g.labels ==>
          |g.labels[TagLabel]| >= 2
          && g.labels[TagLabel][0] == ','
          && g.labels[TagLabel][|g.labels[TagLabel]| - 1] == ',')
  }

  lemma TargetFacts(ip: string, ports: seq<int>)
    ensures |ports| > 0 ==>
      SplitHostPort(HostPort(ip, ports[|ports| - 1])) == Some((ip, ports[|ports| - 1]))
  {
    if |ports| > 0 {
      HostPortRoundTrip(ip, ports[|ports| - 1]);
    }
  }

  lemma TagFacts(tags: seq<string>)
    ensures |tags| > 0 ==> (|TagsValue(tags)| >= 2
                            && TagsValue(tags)[0] == ',' && TagsValue(tags)[|TagsValue(tags)| - 1] == ',')
  {
    if |tags| > 0 {
      TagsValueShape(tags);
    }
  }

  /** The group of a server with resolved address `ip`. */
  function MakeGroup(server: Server, ip: string, target: Target, config: Config): Group
  {
    Group(GroupSource, [TargetLabels(ip, target.ports)], GroupLabels(server, ip, target, config))
  }

  lemma MakeGroupWellFormed(server: Server, ip: string, target: Target, config: Config)
    requires ip != ""
    ensures WellFormed(MakeGroup(server, ip, target, config))
  {
    var g := MakeGroup(server, ip, target, config);
    GroupLabelsContents(server, ip, target, config);
    TargetFacts(ip, target.ports);
    TagFacts(server.tags);
    var keys := g.labels.Keys;
    assert keys == RequiredKeys + (if |server.tags| > 0 then {TagLabel} else {});
    assert RequiredKeys <= keys <= RequiredKeys + {TagLabel};
    assert g.targets[0].Keys <= {AddressLabel};
  }

  /** Every field of the group built at a resolved address, label by label. */
  lemma MakeGroupContents(server: Server, ip: string, target: Target, config: Config)
    ensures var g := MakeGroup(server, ip, target, config);
      && g.labels[IPLabel] == ip
      && (|target.ports| == 0 ==> g.targets == [map[]])
      && (|target.ports| > 0 ==>
            g.targets == [map[AddressLabel := HostPort(ip, target.ports[|target.ports| - 1])]])
      && g.labels[ZoneLabel] == server.zone.name
      && g.labels[ResourceIDLabel] == Decimal.Format(server.id)
      && Decimal.Parse(g.labels[ResourceIDLabel]) == Some(server.id)
      && g.labels[NameLabel] == server.name
      && (TagLabel in g.labels <==> |server.tags| > 0)
      && (|server.tags| > 0 ==> g.labels[TagLabel] == TagsValue(server.tags))
      && g.labels[HostnameLabel] == (if config.hostNameType == ModifyDisk then server.hostName else server.name)
      && g.labels[ServiceLabel] == target.service
  {
    GroupLabelsContents(server, ip, target, config);
    LabelNamesDistinct();
    Decimal.FormatRoundTrip(server.id);
  }

  /** One iteration of the server loop: the group for one server, or none when no
      address resolves. */
  function BuildGroup(server: Server, target: Target, config: Config): (r: Option<Group>)
    requires target.interfaceIndex >= 0
    ensures r.None? <==> ResolveAddress(server, target.interfaceIndex).None?
    ensures r.Some? ==> WellFormed(r.value) && r.value.labels[ServiceLabel] == target.service
  {
    match ResolveAddress(server, target.interfaceIndex)
    case None => None
    case Some(ip) =>
      MakeGroupWellFormed(server, ip, target, config);
      GroupLabelsContents(server, ip, target, config);
      Some(MakeGroup(server, ip, target, config))
  }

  /** What the group of a server holds: the resolved address as `ip` label, one target
      entry with the last port's address or an empty one, the zone, an id label that
      reads back as the id, the name, the tag label exactly when the server has tags,
      the hostname chosen by the configured mode, and the rule's service. */
  lemma BuildGroupContents(server: Server, target: Target, config: Config)
    requires target.interfaceIndex >= 0
    ensures BuildGroup(server, target, config).Some? ==>
      var g := BuildGroup(server, target, config).value;
      var ip := ResolveAddress(server, target.interfaceIndex).value;
      && g.labels[IPLabel] == ip
      && (|target.ports| == 0 ==> g.targets == [map[]])
      && (|target.ports| > 0 ==>
            g.targets == [map[AddressLabel := HostPort(ip, target.ports[|target.ports| - 1])]])
      && g.labels[ZoneLabel] == server.zone.name
      && g.labels[ResourceIDLabel] == Decimal.Format(server.id)
      && Decimal.Parse(g.labels[ResourceIDLabel]) == Some(server.id)
      && g.labels[NameLabel] == server.name
      && (TagLabel in g.labels <==> |server.tags| > 0)
      && (|server.tags| > 0 ==> g.labels[TagLabel] == TagsValue(server.tags))
      && g.labels[HostnameLabel] == (if config.hostNameType == ModifyDisk then server.hostName else server.name)
      && g.labels[ServiceLabel] == target.service
  {
    if BuildGroup(server, target, config).Some? {
      var ip := ResolveAddress(server, target.interfaceIndex).value;
      assert BuildGroup(server, target, config).value == MakeGroup(server, ip, target, config);
      MakeGroupContents(server, ip, target, config);
    }
  }

  /** Zero or one group. */
  function Emit(r: Option<Group>): seq<Group>
  {
    if r.Some? then [r.value] else []
  }

  /** The server loop of `buildMetadata`: one group per server whose address resolves,
      appended in input order. */
  function BuildMetadata(servers: seq<Server>, target: Target, config: Config): (r: seq<Group>)
    requires target.interfaceIndex >= 0
    ensures |r| <= |servers|
  {
    if |servers| == 0 then []
    else Emit(BuildGroup(servers[0], target, config)) + BuildMetadata(servers[1..], target, config)
  }

  /** Every group of the output is well formed, carries the rule's service, and is
      the group of some input server. */
  lemma {:induction false} BuildMetadataGroups(servers: seq<Server>, target: Target, config: Config)
    requires target.interfaceIndex >= 0
    ensures forall g :: g in BuildMetadata(servers, target, config) ==>
      && WellFormed(g)
      && g.labels[ServiceLabel] == target.service
      && exists s :: s in servers && BuildGroup(s, target, config) == Some(g)
  {
    if |servers| > 0 {
      var rest := servers[1..];
      BuildMetadataGroups(rest, target, config);
      assert forall s :: s in rest ==> s in servers;
      assert BuildMetadata(servers, target, config)
          == Emit(BuildGroup(servers[0], target, config)) + BuildMetadata(rest, target, config);
    }
  }

  /** Building distributes over concatenation: groups come out in the order of their servers. */
  lemma {:induction false} BuildMetadataAppend(a: seq<Server>, b: seq<Server>, target: Target, config: Config)
    requires target.interfaceIndex >= 0
    ensures BuildMetadata(a + b, target, config) == BuildMetadata(a, target, config) + BuildMetadata(b, target, config)
  {
    if |a| == 0 {
      assert a + b == b;
    } else {
      assert (a + b)[0] == a[0];
      assert (a + b)[1..] == a[1..] + b;
      BuildMetadataAppend(a[1..], b, target, config);
    }
  }

  /** No server that resolves an address is skipped: its group is in the output. */
  lemma {:induction false} BuildMetadataComplete(servers: seq<Server>, target: Target, config: Config)
    requires target.interfaceIndex >= 0
    ensures forall s :: s in servers && BuildGroup(s, target, config).Some? ==>
      BuildGroup(s, target, config).value in BuildMetadata(servers, target, config)
  {
    if |servers| > 0 {
      BuildMetadataComplete(servers[1..], target, config);
      forall s | s in servers && BuildGroup(s, target, config).Some?
        ensures BuildGroup(s, target, config).value in BuildMetadata(servers, target, config)
      {
        if s != servers[0] {
          assert s in servers[1..];
        }
      }
    }
  }

  /** A single server yields its group, or nothing when no address resolves. */
  lemma BuildMetadataSingle(server: Server, target: Target, config: Config)
    requires target.interfaceIndex >= 0
    ensures BuildMetadata([server], target, config) == Emit(BuildGroup(server, target, config))
  {
    assert [server][1..] == [];
  }

  /** Neither the base tags nor the rule's query and ignore tags reach the output: they
      only select servers. */
  lemma FilterTagsNotEmitted(server: Server, target: Target, config: Config,
                             tags: seq<string>, ignoreTags: seq<string>, baseTags: seq<string>)
    requires target.interfaceIndex >= 0
    ensures BuildGroup(server, target, config)
         == BuildGroup(server, target.(tags := tags, ignoreTags := ignoreTags), config.(baseTags := baseTags))
  {
  }
}
