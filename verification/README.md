# sacloud-prometheus-sd: target resolution and label synthesis

This project models the decision logic of `sacloud-prometheus-sd`, a tool that reads servers from the Sakura Cloud inventory and writes a Prometheus file-based service-discovery file. The model covers the pure transformation in `main.go`:

- **The ignore-tag filter** inside `generate`. It drops every server that carries any of a rule's `ignore_tags` and keeps the rest in their original order. The inventory query is sent the configured base tags followed by the rule's own tags.
- **`buildMetadata`**. For every surviving server it resolves one address through a three-step fallback. It then builds the target label set and the `__meta_sacloud_*`, `hostname` and `service` labels, and emits one target group or skips the server.
- **One generation cycle**. The rules are processed in order and their groups are concatenated. The first failing inventory query aborts the cycle.

Modules:

- `Inventory`: the server, interface, zone, rule and configuration records, plus `HasTag`, which is exact membership.
- `ServerFilter`: the query tag list, the ignore check, the functional filter `Kept`, and `FilterServers`, which is the nested loop of the source proved equal to `Kept`.
- `Metadata`: address resolution, the `host:port` address, the port loop, the tag label, the label set, and `BuildGroup`/`BuildMetadata`.
- `Cycle`: the per-rule pipeline and a cycle over all rules.
- `Decimal`: base-10 formatting of `strconv.FormatInt` and `%d`, with its parser as the inverse.
- `LabelName`: label-name sanitising.
- `Strings`: `strings.Join`, counting, substring search and last-index search.
- `Wrappers`: `Option` and `Result`.

Two foreign pieces are defined explicitly rather than verified:

- `strutil.SanitizeLabelName` is assumed to behave as Prometheus documents it. Every character outside `[A-Za-z0-9_]` becomes `_`, one character for one character, and a leading digit is kept.
- `server.HasTag` is exact, case-sensitive membership in the server's tag list.

Two behaviours of the port loop are worth knowing:

- **Only the last port is kept.** The port loop (`main.go:219-222`) writes each address to the single `__address__` key of one label set. Every group therefore has exactly one target entry, and it holds only the last port's address.
- **No ports gives an empty target.** With no ports, that one target entry is an empty label set. The group is still emitted.

Strings are sequences of Unicode code points. Integers are unbounded. Server ids (Go `int64`) and ports (Go `int`) are formatted the same way as in Go for every value of those widths.

## Model

| member | source | states |
|---|---|---|
| Inventory.HasTag | main.go:122 | the ignore test is exact, case-sensitive membership of the tag in the server's tag list; `ServerFilter.IsIgnored` states the scan built on it |
| ServerFilter.QueryTags | main.go:108-110 | the query is sent the base tags first and then the rule's tags, nothing else |
| ServerFilter.IsIgnored | main.go:120-126 | the scan over the ignore list reports a server exactly when one of the ignore tags is among the server's tags |
| ServerFilter.Kept | main.go:118-130 | a server is kept iff it is in the input and carries no ignore tag, and the output is no longer than the input |
| ServerFilter.KeptAppend | main.go:119-129 | filtering distributes over concatenation, so kept servers keep their relative order |
| ServerFilter.KeptIdempotent | main.go:118-130 | filtering an already filtered list changes nothing |
| ServerFilter.CheckIgnored | main.go:120-126 | the inner loop with its early break sets the flag iff the server carries one of the ignore tags |
| ServerFilter.FilterServers | main.go:118-130 | the source's outer loop computes exactly the functional filter |
| Metadata.FirstNonEmpty | main.go:205-216 | reference fallback policy: no result iff every candidate is empty, else the earliest non-empty candidate with all before it empty |
| Metadata.ResolveAddress | main.go:202-216 | no address when the selected interface index is out of range; otherwise the first non-empty of selected-interface user IP, interface 0 IP and interface 0 user IP; a resolved address is never empty |
| Metadata.HostPort | main.go:220 | the `%s:%d` address: the ip, a colon and the port's decimal text; `Metadata.HostPortRoundTrip` proves it splits back into exactly that ip and port |
| Metadata.HostPortRoundTrip | main.go:220 | an `ip:port` address splits at its last colon back into the same ip and port, even for hosts with colons |
| Decimal.Format | main.go:228 | the text is in Go's form: digits with no leading zero (except `0` itself), a minus sign exactly for negative numbers, never `-0`; `Decimal.FormatRoundTrip` proves it parses back to the number |
| Decimal.FormatRoundTrip | main.go:228 | the decimal text of an integer parses back to the same integer |
| Decimal.FormatCanonical | main.go:228 | the formatted text is the only text in that form that parses to the number, so `resource_id` and the port text are exactly what `strconv.FormatInt` and `%d` print |
| Decimal.FormatInjective | main.go:228 | distinct server ids get distinct `resource_id` labels |
| Metadata.TargetLabels | main.go:218-224 | with no ports the target label set is empty; otherwise it holds only `__address__`, bound to the address of the last port |
| LabelName.Sanitize | main.go:236 | the sanitised tag has the same length, only label-name characters, keeps every valid character and replaces every other one with `_` |
| LabelName.SanitizeFixedPoint | main.go:236 | sanitising leaves a string unchanged exactly when it is already a valid label-name token |
| LabelName.SanitizeIdempotent | main.go:236 | sanitising a sanitised tag is a no-op |
| Strings.Join | main.go:239 | Go's `strings.Join`; `Strings.JoinThenComma` relates it to the comma-terminated form used by the tag label |
| Strings.JoinThenComma | main.go:239 | joining non-empty parts with commas and appending one comma puts exactly one comma after every part |
| Metadata.TagsValue | main.go:233-241 | the tag label is at least two characters and starts and ends with a comma; `Metadata.TagsValueShape` and `Metadata.TagsValueQuery` state its contents |
| Metadata.TagsValueShape | main.go:233-241 | the tag label starts and ends with a comma, holds one comma more than there are tags, and every other character is a label-name character |
| Metadata.TagsValueQuery | main.go:233-241 | for a sanitised tag `x` (any label-name token), `,x,` occurs in the tag label exactly when some server tag sanitises to `x`, so a tag that is only part of another never matches |
| Metadata.LabelNamesDistinct | main.go:22-29 | the five `__meta_sacloud_*` names defined here and the `hostname` and `service` literals of main.go:244-248 are seven distinct names, so no label overwrites another |
| Metadata.BaseLabels | main.go:226-231 | the four labels every group starts from are exactly zone, resource id, name and ip |
| Metadata.HostnameValue | main.go:243-247 | the `hostname` label is the host name in `modify_disk` mode and the server name otherwise; `Metadata.GroupLabelsContents` states it is the group's `hostname` value |
| Metadata.GroupLabels | main.go:226-248 | the label set of a group; `Metadata.GroupLabelsContents` states its keys and every value |
| Metadata.GroupLabelsContents | main.go:226-248 | the label set holds exactly the six fixed labels plus the tag label when there are tags (six or seven distinct keys), with zone, id text, name, address, tag list, hostname and service values |
| Metadata.MakeGroup | main.go:198-250 | the group of a server at a resolved address; `Metadata.MakeGroupWellFormed` states the invariant it satisfies |
| Metadata.MakeGroupWellFormed | main.go:198-250 | a group built from a non-empty address satisfies the output invariant: source `sacloud`, one target entry whose address host is the `ip` label, only the allowed label names |
| Metadata.BuildGroup | main.go:197-252 | a server yields no group iff no address resolves; a produced group is well formed and carries the rule's service |
| Metadata.MakeGroupContents | main.go:218-248 | the group at a resolved address carries that address as `ip`, the last-port target or an empty one, the zone, the exact decimal id text, the name, the tag label iff the server has tags, the hostname by mode and the service |
| Metadata.BuildGroupContents | main.go:205-248 | a produced group carries the resolved ip, the last-port target or an empty one, the zone, the exact decimal id text (which parses back to the id), the name, the tag label iff the server has tags, the hostname by mode and the service |
| Metadata.BuildMetadata | main.go:194-256 | at most one group per input server |
| Metadata.BuildMetadataGroups | main.go:194-256 | every output group is well formed, carries the rule's service, and is the group some input server produces |
| Metadata.BuildMetadataAppend | main.go:197-253 | building distributes over concatenation, so groups appear in input order |
| Metadata.BuildMetadataSingle | main.go:197-253 | one server yields exactly its own group, or nothing when its address does not resolve |
| Metadata.BuildMetadataComplete | main.go:197-253 | no server whose address resolves is skipped: its group is in the output |
| Metadata.FilterTagsNotEmitted | main.go:226-250 | a group does not depend on the base tags, the query tags or the ignore tags |
| Cycle.RuleGroups | main.go:118-135 | a group is among a rule's groups iff it is the group of a returned server that carries no ignore tag and resolves an address; there are at most as many groups as returned servers |
| Cycle.Fetch | main.go:108-116 | a rule's query goes to the configured zone with the base tags followed by the rule's tags; `Cycle.Generate` states how its result is used |
| Cycle.Generate | main.go:105-144 | a cycle succeeds iff every query succeeds; on failure it reports the error of the first failing query; on success a group is in the output iff it is among some rule's groups, and every group is well formed |
| Cycle.RunCycle | main.go:105-144 | a cycle over the configuration's own rules succeeds iff every rule's query succeeds, and then a group is in the output iff it is among some rule's groups |
| Cycle.GenerateSingle | main.go:105-140 | a cycle over one rule yields exactly that rule's groups, or its query's error |
| Cycle.GenerateAppend | main.go:105-144 | the groups of a successful cycle over `a + b` are those over `a` followed by those over `b`; with `Cycle.GenerateSingle` this fixes the whole output list, rule by rule in configuration order |
| Cycle.ExampleRule | main.go:118-256 | a worked case: a server tagged both `prod` and `staging` is dropped by `ignore_tags: [staging]`; the other gives one group at `10.0.0.1:9100` with service `web`, id `1`, hostname `a` and tag label `,prod,` |

## Left out

- `main` (flag parsing, the config/flag/environment precedence for token, secret and zone, the polling loop with its sleep and exit): process plumbing with no decision logic about targets.
- `loadConfig`: YAML file reading and decoding. The configuration is a value of the model.
- `listServers`: the libsacloud client and its tag search. It is the `Query` parameter of `Cycle.Generate`, a function from zone and tag list to servers or an error.
- The file side of `generate` (`MkdirAll`, `MarshalYAML`, `yaml.Marshal`, file create, write and close): I/O and serialisation by foreign libraries. The `MarshalYAML` error path is not modelled.
- Credentials (token, secret) and one client per rule: they only reach the foreign API client.
- `LabelName.Sanitize`: the behaviour of `strutil.SanitizeLabelName` is assumed as above, not verified. Malformed UTF-8 in tag strings is not represented, because strings are code-point sequences.
- `Cycle.Generate`: it takes the rule list as an argument so that it can recurse over it; `Cycle.RunCycle` applies it to the configuration's own rules. Its contract fixes success, the first error and which groups appear. The exact order and multiplicity follow from `Cycle.GenerateAppend` together with `Cycle.GenerateSingle`.
- A negative `interface_index` makes the source panic when it indexes the interfaces. The model requires the index to be non-negative instead.
