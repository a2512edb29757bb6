/** The ignore-tag filter applied to the servers the inventory query returned. */
module ServerFilter {
  import opened Inventory

  /** Tags sent to the inventory query: the base tags followed by the rule's own tags. */
  function QueryTags(config: Config, target: Target): (r: seq<string>)
    ensures |r| == |config.baseTags| + |target.tags|
    ensures r[..|config.baseTags|] == config.baseTags
    ensures r[|config.baseTags|..] == target.tags
  {
    config.baseTags + target.tags
  }

  /** The inner loop: scans the ignore list in order and stops at the first tag the server carries. */
  function IsIgnored(server: Server, ignoreTags: seq<string>): (r: bool)
    ensures r <==> exists t :: t in ignoreTags && HasTag(server, t)
  {
    if |ignoreTags| == 0 then false
    else if HasTag(server, ignoreTags[0]) then true
    else IsIgnored(server, ignoreTags[1..])
  }

  /** The servers that survive the filter, in their original order. */
  function Kept(servers: seq<Server>, ignoreTags: seq<string>): (r: seq<Server>)
    ensures |r| <= |servers|
    ensures forall s :: s in r <==> s in servers && !IsIgnored(s, ignoreTags)
  {
    if |servers| == 0 then []
    else
      var rest := Kept(servers[1..], ignoreTags);
      assert forall s :: s in servers <==> s == servers[0] || s in servers[1..];
      if IsIgnored(servers[0], ignoreTags) then rest else [servers[0]] + rest
  }

  /** Filtering distributes over concatenation, so kept servers keep their relative order. */
  lemma {:induction false} KeptAppend(a: seq<Server>, b: seq<Server>, ignoreTags: seq<string>)
    ensures Kept(a + b, ignoreTags) == Kept(a, ignoreTags) + Kept(b, ignoreTags)
  {
    if |a| == 0 {
      assert a + b == b;
    } else {
      assert (a + b)[0] == a[0];
      assert (a + b)[1..] == a[1..] + b;
      KeptAppend(a[1..], b, ignoreTags);
    }
  }

  /** Filtering twice with the same ignore list drops nothing more. */
  lemma {:induction false} KeptIdempotent(servers: seq<Server>, ignoreTags: seq<string>)
    ensures Kept(Kept(servers, ignoreTags), ignoreTags) == Kept(servers, ignoreTags)
  {
    if |servers| > 0 {
      var rest := Kept(servers[1..], ignoreTags);
      KeptIdempotent(servers[1..], ignoreTags);
      if !IsIgnored(servers[0], ignoreTags) {
        assert ([servers[0]] + rest)[1..] == rest;
      }
    }
  }

  /** The inner loop of the source: scans the ignore list and breaks at the first tag
      the server carries. */
  method CheckIgnored(server: Server, ignoreTags: seq<string>) returns (isIgnored: bool)
    ensures isIgnored <==> exists t :: t in ignoreTags && HasTag(server, t)
  {
    isIgnored := false;
    var j := 0;
    while j < |ignoreTags|
      invariant 0 <= j <= |ignoreTags|
      invariant forall k :: 0 <= k < j ==> !HasTag(server, ignoreTags[k])
    {
      if HasTag(server, ignoreTags[j]) {
        isIgnored := true;
        break;
      }
      j := j + 1;
    }
  }

  lemma KeptStep(servers: seq<Server>, ignoreTags: seq<string>, n: nat)
    requires n < |servers|
    ensures Kept(servers[..n + 1], ignoreTags)
         == Kept(servers[..n], ignoreTags) + (if IsIgnored(servers[n], ignoreTags) then [] else [servers[n]])
  {
    assert servers[..n + 1] == servers[..n] + [servers[n]];
    KeptAppend(servers[..n], [servers[n]], ignoreTags);
    assert [servers[n]][1..] == [];
  }

  /** The outer loop of the source: every server is checked against the ignore list
      and appended when it carries none of those tags. */
  method FilterServers(rawServers: seq<Server>, ignoreTags: seq<string>) returns (servers: seq<Server>)
    ensures servers == Kept(rawServers, ignoreTags)
  {
    servers := [];
    for n := 0 to |rawServers|
      invariant servers == Kept(rawServers[..n], ignoreTags)
    {
      var isIgnored := CheckIgnored(rawServers[n], ignoreTags);
      KeptStep(rawServers, ignoreTags, n);
      if !isIgnored {
        servers := servers + [rawServers[n]];
      }
    }
    assert rawServers[..|rawServers|] == rawServers;
  }
}
