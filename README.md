# pulumi-gcp-network, modelled in Dafny

This project models `pulumi_gcp_network`, a set of Pulumi component resources that turn
loosely typed network records (Python dictionaries) into Google Cloud resource descriptors.
There are four builders:

- **Subnets** collects the subnet records into an insertion-ordered dictionary keyed by
  `"{subnet_region}/{subnet_name}"`. A later record with the same key replaces an earlier one
  in place. The builder then creates one `Subnetwork` per entry, named `subnetwork-{i}`. Each
  one gets flow-log defaults (or the empty `{}` configuration) and its secondary ranges,
  looked up by subnet name.
- **Routes** collects the route records into an insertion-ordered dictionary keyed by
  `route.get("name", "{network_name}-route-{i}")`. It then creates one `Route` per entry,
  named `route-{i}`. The comma-separated `tags` string is parsed, and a truthy
  `next_hop_internet` selects the default internet gateway.
- **FirewallRules** validates each rule against the `FirewallRulesRuleArgs` schema (a
  pydantic model with defaults, an enum direction and a bounded priority). It then creates one
  `Firewall` per rule, named `rule-{name}-{i}`. The ranges become source ranges for INGRESS and
  destination ranges for EGRESS, and empty allow/deny lists are dropped.
- **Vpc** creates one `Network` descriptor from its arguments, plus a `SharedVPCHostProject`
  descriptor exactly when `shared_vpc_host` is truthy.

Each `gcp.compute.*` constructor call is modelled as a datatype value holding its keyword
arguments. A Python exception that a builder can raise (`KeyError`, an unhashable dictionary
key, `AttributeError`, pydantic's `ValidationError`) is an `Err` value.

- **Subnets, Routes and FirewallRules** change their own fields step by step. Each is a class
  with the source's fields. A static `Create` method does the work of `__init__`.
  - For Subnets and Routes, `Create` builds the keyed dictionary and then calls a method holding
    the append loop (`AddSubnetworks`, `AddRoutes`).
  - The route and firewall loops themselves are `AppendEach` methods, stated for any loop body.
  - Each method is proved against a pure specification function (`BuildSubnetworks`,
    `BuildRoutes`, `BuildFirewallRules`), and the lemmas are stated about those functions.
- **Vpc** cannot raise, so it is a class with a constructor that takes the source's defaults.

Files:

| file | contents |
|---|---|
| `wrappers.dfy` | `Option`, `Result`, the exceptions, and `MapWithIndex` (a loop or comprehension that stops at the first exception) |
| `raw.dfy` | raw Python values, truthiness, `dict.get`, `str()` |
| `text.dfy` | `str.strip()`, `str.split(",")`, the route tag parser, decimal rendering of integers |
| `ordered_map.dfy` | Python's insertion-ordered `dict` built by a comprehension (last value wins, first position kept) |
| `subnets.dfy`, `routes.dfy`, `firewall_rules.dfy`, `vpc.dfy` | the four builders |

Where the code and its documentation disagree, the model follows the code:

- The derived route name is `"{network_name}-route-{i}"`, where `i` is the record's input
  position.
- A route whose `name` is explicitly the empty string keeps that name.
- A route whose `tags` is `None` (or any other non-string) makes `.split` raise.
- Routes are not validated at all: priority and destination range are passed through
  unchanged.
- The firewall tests give allow/deny entries under the keys `allows`/`denies`. The schema does
  not declare these keys, and pydantic ignores undeclared keys, so those rules get no allow
  list. `FirewallRules.TestRules` states this outcome.

## Model

| member | source | states |
|---|---|---|
| Wrappers.MapWithIndex | src/pulumi_gcp_network/firewall_rules.py:76-100 | a loop over the inputs succeeds iff every step succeeds; then it yields one result per input, in order, each the step's result at its position |
| Wrappers.MapWithIndexFirstError | src/pulumi_gcp_network/firewall_rules.py:77-80 | the exception raised is that of the first input, by position, whose step raises |
| Wrappers.MapWithIndexStep | src/pulumi_gcp_network/routes.py:58-79 | one more iteration appends the step's result to the prefix's results, or raises its exception for the whole loop |
| Raw.Truthy | src/pulumi_gcp_network/routes.py:69 | `if v:` is false exactly for None, False, 0, 0.0, -0.0, "", [] and {} |
| Raw.Get | src/pulumi_gcp_network/routes.py:53 | `record.get(key, default)` is the stored value when the key is present and the default otherwise |
| Raw.TruthyStrings | src/pulumi_gcp_network/routes.py:68-70 | every non-empty string is truthy, "false" included; only "" is not |
| Text.Strip | src/pulumi_gcp_network/routes.py:66 | `tag.strip()` has no whitespace at either end, is the text right after the leading whitespace, and is empty iff the piece is all whitespace |
| Text.StripInfix | src/pulumi_gcp_network/routes.py:66 | `strip` removes only whitespace, from both ends, and keeps the middle unchanged |
| Text.StripStripped | src/pulumi_gcp_network/routes.py:66 | `strip` leaves an already stripped string unchanged |
| Text.StripAfterSpace | src/pulumi_gcp_network/routes.py:66 | `strip` removes the blank after a comma |
| Text.Split | src/pulumi_gcp_network/routes.py:66 | `split(",")` always yields at least one piece, and no piece contains the separator |
| Text.SplitJoinsBack | src/pulumi_gcp_network/routes.py:66 | joining the pieces of `split` with the separator gives back the string |
| Text.SplitJoin | src/pulumi_gcp_network/routes.py:66 | `split` undoes `join` when no piece contains the separator |
| Text.SplitNoSep | src/pulumi_gcp_network/routes.py:66 | a string without the separator splits into itself alone |
| Text.SplitAfterPiece | src/pulumi_gcp_network/routes.py:66 | the first piece ends at the first separator |
| Text.StripNonEmpty | src/pulumi_gcp_network/routes.py:66 | the comprehension yields at most one tag per piece, each stripped |
| Text.StripNonEmptySelects | src/pulumi_gcp_network/routes.py:66 | the tags are exactly the stripped non-empty pieces, in order: an increasing map from tags to pieces covers every non-empty piece, and each tag is its piece stripped |
| Text.StripNonEmptyKeepsOut | src/pulumi_gcp_network/routes.py:66 | stripping never introduces a character the pieces did not contain |
| Text.StripNonEmptyIdentity | src/pulumi_gcp_network/routes.py:66 | non-empty, already stripped pieces pass through unchanged |
| Text.ParseTags | src/pulumi_gcp_network/routes.py:66 | every parsed tag is comma-free and stripped, and there are at most as many tags as comma-separated pieces; which tags come out is stated by `StripNonEmptySelects`, `ParseTagsRoundTrip` and `ParseTagsOfJoin` |
| Text.ParseTagsRoundTrip | src/pulumi_gcp_network/routes.py:66 | parsing the comma-join of clean, non-empty tags gives back the same tags in order |
| Text.ParseTagsOfJoin | src/pulumi_gcp_network/routes.py:66 | a comma-joined tag string is parsed piece by piece |
| Text.ParseTagsEmpty | src/pulumi_gcp_network/routes.py:66 | the default `""` yields no tags |
| Text.ParseTagsSpaced | tests/test_routes.py:76-85 | "foo, bar, ham" yields ["foo", "bar", "ham"] |
| Text.SplitSpacedTags | tests/test_routes.py:35 | "foo, bar, ham" splits into "foo", " bar" and " ham" |
| Text.StripSpacedTags | tests/test_routes.py:81 | stripping " bar" and " ham" gives the expected tags |
| Text.StripSpacedPieces | src/pulumi_gcp_network/routes.py:66 | pieces with one leading blank each are stripped to the clean tags |
| Text.ParseTagsDropsEmpty | src/pulumi_gcp_network/routes.py:66 | an empty piece between two commas is dropped |
| Text.ParseTagsKeepsBlank | src/pulumi_gcp_network/routes.py:66 | a blank piece survives as "", because the emptiness test runs before stripping |
| Text.StripBlankPiece | src/pulumi_gcp_network/routes.py:66 | a one-blank piece is stripped to "", not dropped |
| Text.LeadingSpace | src/pulumi_gcp_network/routes.py:66 | the counted prefix is all whitespace and is followed by a non-whitespace character |
| Text.TrailingSpace | src/pulumi_gcp_network/routes.py:66 | the counted suffix is all whitespace and is preceded by a non-whitespace character |
| Text.NatToString | src/pulumi_gcp_network/subnets.py:73 | `str(i)` is a non-empty string of decimal digits, one digit exactly below 10, with no leading zero from 10 on |
| Text.NatToStringInjective | src/pulumi_gcp_network/subnets.py:73 | distinct indices render to distinct strings |
| Text.NatToStringValue | src/pulumi_gcp_network/routes.py:61 | `str(i)` spells `i`: reading its digits back gives the number |
| Text.NumberedNamesDistinct | src/pulumi_gcp_network/routes.py:61 | `prefix + str(a) == prefix + str(b)` only when `a == b` |
| Text.DashNumberSuffix | src/pulumi_gcp_network/firewall_rules.py:83 | in `x + "-" + str(a)` the number after the last dash is recoverable, whatever `x` is |
| Text.LastDash | src/pulumi_gcp_network/firewall_rules.py:83 | the dash before the index is the last dash of the name |
| OrderedMap.Put | src/pulumi_gcp_network/subnets.py:65-68 | `d[k] = v`: `k` maps to `v` and every other key is unchanged; an existing key keeps its position, a new key goes last |
| OrderedMap.Find | src/pulumi_gcp_network/subnets.py:65-68 | the position found holds the key, and no earlier entry does; -1 exactly when the key is absent |
| OrderedMap.FromPairs | src/pulumi_gcp_network/subnets.py:65-68 | the comprehension's dictionary has distinct keys and no more entries than records |
| OrderedMap.FromPairsDistinct | src/pulumi_gcp_network/subnets.py:65-68 | pairs with distinct keys come out unchanged: same length, same order |
| OrderedMap.FromPairsKeys | src/pulumi_gcp_network/subnets.py:65-68 | a key is stored iff some pair carries it |
| OrderedMap.FromPairsLastWins | src/pulumi_gcp_network/subnets.py:65-68 | a key maps to the value of the last pair that carries it |
| OrderedMap.FromPairsOrder | src/pulumi_gcp_network/subnets.py:65-68 | keys are stored in the order of their first occurrence |
| OrderedMap.FromPairsCollapses | src/pulumi_gcp_network/subnets.py:65-68 | two pairs with the same key make the dictionary strictly shorter than the pairs |
| OrderedMap.FromPairsSize | src/pulumi_gcp_network/subnets.py:65-68 | the dictionary has exactly one entry per distinct key among the pairs |
| OrderedMap.FromPairsEntries | src/pulumi_gcp_network/subnets.py:65-68 | every stored entry is one of the input pairs: no key or value is invented |
| OrderedMap.FromPairsSameKeyTwice | src/pulumi_gcp_network/subnets.py:65-68 | `{k: a, k: b}` is `{k: b}` |
| OrderedMap.FindUnderSameKeys | src/pulumi_gcp_network/subnets.py:65-68 | lookup depends only on the keys |
| OrderedMap.FindAppend | src/pulumi_gcp_network/subnets.py:65-68 | appending an entry only affects the lookup of a key not yet present |
| OrderedMap.OrderKeptByAppend | src/pulumi_gcp_network/subnets.py:65-68 | appending a pair keeps the first-occurrence order of the existing keys |
| OrderedMap.OrderExtendedByNewKey | src/pulumi_gcp_network/subnets.py:65-68 | a new key is ordered after every existing key |
| Subnets.SubnetKey | src/pulumi_gcp_network/subnets.py:66 | the key exists iff the record has both `subnet_region` and `subnet_name`; a missing region is reported before a missing name |
| Subnets.KeyedSubnets | src/pulumi_gcp_network/subnets.py:65-68 | the dictionary is built iff every record has both key fields; its keys are distinct and it has at most one entry per record (which entries: `DistinctKeysKeepEveryRecord`, `LastRecordWins`, `EntriesInFirstOccurrenceOrder`) |
| Subnets.FlowLogConfig | src/pulumi_gcp_network/subnets.py:81-91 | flow logs are configured iff `subnet_flow_logs` is truthy (their values: `FlowLogsDefaults`, `FlowLogsOverrides`) |
| Subnets.SubnetworkAt | src/pulumi_gcp_network/subnets.py:72-95 | a missing `subnet_name`, then a missing `subnet_ip`, raises that KeyError; a built subnetwork carries the record's name, CIDR range and region, and the secondary ranges listed for its name |
| Subnets.BuildSubnetworks | src/pulumi_gcp_network/subnets.py:64-96 | a key error in any record is raised before any subnetwork is built; a successful build has one subnetwork per dictionary entry, so no more than there are records |
| Subnets.Subnets.constructor | src/pulumi_gcp_network/subnets.py:64-70 | the project id, the keyed records, and no subnetworks yet |
| Subnets.Subnets.Create | src/pulumi_gcp_network/subnets.py:64-96 | `Subnets(...)` raises exactly what `BuildSubnetworks` raises; otherwise its `subnets` is the keyed dictionary and its `created_subnetworks` is `BuildSubnetworks`'s result |
| Subnets.Subnets.AddSubnetworks | src/pulumi_gcp_network/subnets.py:70-96 | the loop appends exactly the subnetworks of the entries, in order, or raises the first entry's exception; `subnets` and `project_id` are unchanged |
| Subnets.DistinctKeysKeepEveryRecord | src/pulumi_gcp_network/subnets.py:65-68 | with pairwise-distinct region/name keys, every record is kept, in input order |
| Subnets.DistinctKeysOneSubnetworkEach | tests/test_subnets.py:102-109 | with distinct keys, there are as many subnetworks as input records, each built from its record at its position |
| Subnets.DuplicateKeysCollapse | src/pulumi_gcp_network/subnets.py:65-68 | two records with the same key leave fewer entries than records |
| Subnets.LastRecordWins | src/pulumi_gcp_network/subnets.py:65-68 | the record stored under a key is the last record with that key |
| Subnets.EntriesInFirstOccurrenceOrder | src/pulumi_gcp_network/subnets.py:65-68 | entries follow the order of the keys' first occurrences |
| Subnets.MissingRegionFails | src/pulumi_gcp_network/subnets.py:66 | the first record without `subnet_region` raises `KeyError("subnet_region")` |
| Subnets.MissingNameFails | src/pulumi_gcp_network/subnets.py:66 | the first record with a region but no `subnet_name` raises `KeyError("subnet_name")` |
| Subnets.MissingIpFails | src/pulumi_gcp_network/subnets.py:71-76 | `subnet_ip` is read only from stored entries: the first stored entry without it raises `KeyError("subnet_ip")` |
| Subnets.OverwrittenRecordNotBuilt | src/pulumi_gcp_network/subnets.py:65-76 | a record without `subnet_ip` does not raise when a later record with the same region and name replaces it; only the replacement is built, as `subnetwork-0` |
| Subnets.SubnetworkFields | src/pulumi_gcp_network/subnets.py:71-94 | subnetwork `i` is `subnetwork-{i}` and carries entry `i`'s name, ip range, region, private access (default False), description, flow-log config (exactly `FlowLogConfig` of the record) and secondary ranges, plus the network and project |
| Subnets.BuiltRecordsAreKeyed | src/pulumi_gcp_network/subnets.py:66 | a successful build means every input record had both key fields |
| Subnets.SubnetworkNamesDistinct | src/pulumi_gcp_network/subnets.py:73 | resource names `subnetwork-{i}` are pairwise distinct |
| Subnets.FlowLogsOff | tests/test_subnets.py:112-142 | without a truthy `subnet_flow_logs`, `log_config` is exactly `{}` |
| Subnets.FlowLogsDefaults | src/pulumi_gcp_network/subnets.py:81-89 | with flow logs on and no overrides: INTERVAL_5_SEC, 0.5, INCLUDE_ALL_METADATA |
| Subnets.FlowLogsOverrides | src/pulumi_gcp_network/subnets.py:81-89 | with flow logs on, each of interval, sampling and metadata is the record's value when given and its default otherwise, independently of the other two |
| Subnets.SecondaryIpRanges | src/pulumi_gcp_network/subnets.py:98-111 | an unhashable subnet name raises; a name with no entry gets `[]`; listed ranges succeed iff every range has `range_name` and `ip_cidr_range`, and then come out one per range, in order, with those two values |
| Routes.RouteName | src/pulumi_gcp_network/routes.py:53 | a record's own name if it has one, otherwise `{network_name}-route-{i}` |
| Routes.NamedRoutes | src/pulumi_gcp_network/routes.py:52-55 | the dictionary is built iff every route's name (its own, or the `DerivedName` for its position) is hashable; its keys are distinct and it has at most one entry per record |
| Routes.Tags | src/pulumi_gcp_network/routes.py:66 | raises `AttributeError` exactly when `tags` is present and not a string; the parsed tags are comma-free and stripped |
| Routes.NextHopGateway | src/pulumi_gcp_network/routes.py:68-70 | the gateway is set iff `next_hop_internet` is truthy, and is then `default-internet-gateway` |
| Routes.RouteAt | src/pulumi_gcp_network/routes.py:60-78 | a route is built iff its tags parse; it carries the entry's name, the builder's project and network, the parsed tags and the gateway choice |
| Routes.BuildRoutes | src/pulumi_gcp_network/routes.py:51-79 | a naming error is raised before any route is built; a successful build has one route per dictionary entry, so no more than there are records |
| Routes.Routes.constructor | src/pulumi_gcp_network/routes.py:51-57 | the project id, the named records, and no routes yet |
| Routes.Routes.Create | src/pulumi_gcp_network/routes.py:51-79 | `Routes(...)` raises exactly what `BuildRoutes` raises; otherwise `routes` is the named dictionary and `created_routes` is `BuildRoutes`'s result |
| Routes.Routes.AddRoutes | src/pulumi_gcp_network/routes.py:57-79 | the loop appends exactly the routes of the entries, in order, or raises the first entry's exception; `routes` and `project_id` are unchanged |
| Routes.Routes.AppendEach | src/pulumi_gcp_network/routes.py:57-79 | the append loop, for any loop body: `created_routes` is the body's result for every entry in order, or the first entry's exception is raised |
| Routes.DerivedNamesDistinct | src/pulumi_gcp_network/routes.py:53 | unnamed records at different positions get different derived names |
| Routes.EmptyNameKept | src/pulumi_gcp_network/routes.py:53 | an explicit empty name is kept, not replaced by the derived one |
| Routes.NamedPairsAt | src/pulumi_gcp_network/routes.py:52-55 | with hashable names, pair `i` is record `i` under its name |
| Routes.DistinctNamesKeepEveryRoute | src/pulumi_gcp_network/routes.py:52-55 | with pairwise-distinct names, every record is kept, in input order |
| Routes.DistinctNamesOneRouteEach | tests/test_routes.py:66-74 | with distinct names, there are as many routes as input records, each built from its record at its position |
| Routes.DuplicateNamesCollapse | src/pulumi_gcp_network/routes.py:52-55 | two records with the same name leave fewer entries than records |
| Routes.LastRouteWins | src/pulumi_gcp_network/routes.py:52-55 | the record stored under a name is the last record with that name |
| Routes.RoutesInFirstOccurrenceOrder | src/pulumi_gcp_network/routes.py:52-55 | entries follow the order of the names' first occurrences |
| Routes.UnhashableNameFails | src/pulumi_gcp_network/routes.py:53 | the first record whose name is a list or dict raises |
| Routes.RouteFields | src/pulumi_gcp_network/routes.py:60-76 | route `i` is `route-{i}` with the project, the network, entry `i`'s name, its parsed tags, the gateway iff `next_hop_internet` is truthy, and every other field from `route.get` |
| Routes.RouteResourceNamesDistinct | src/pulumi_gcp_network/routes.py:61 | resource names `route-{i}` are pairwise distinct |
| Routes.TagsOfRecord | src/pulumi_gcp_network/routes.py:66 | no `tags`: no tags; a string: its parsed tags; anything else raises |
| Routes.SpacedTags | tests/test_routes.py:76-85 | `"foo, bar, ham"` gives `["foo", "bar", "ham"]` |
| Routes.GatewayFromStrings | tests/test_routes.py:87-97 | a string `next_hop_internet` selects the gateway iff it is non-empty ("false" included); True selects it |
| Routes.NoGatewayByDefault | src/pulumi_gcp_network/routes.py:68-70 | without `next_hop_internet` there is no gateway |
| Routes.ExampleNames | tests/test_routes.py:99-109 | on "test-network", the route named "test-egress-inet" keeps its name and the unnamed second route is named "test-network-route-1" |
| FirewallRules.ParseDirection | src/pulumi_gcp_network/firewall_rules.py:18-20 | a parsed direction names the string it was parsed from |
| FirewallRules.ParseMetadata | src/pulumi_gcp_network/firewall_rules.py:24-26 | a parsed metadata value names the string it was parsed from |
| FirewallRules.EnumNamesRoundTrip | src/pulumi_gcp_network/firewall_rules.py:18-26 | the two enums accept exactly their member values, and each value parses back to its member |
| FirewallRules.StrList | src/pulumi_gcp_network/firewall_rules.py:48-52 | a `List[str]` field is valid iff it is a list of strings, and then holds those strings in order |
| FirewallRules.AllowDenyList | src/pulumi_gcp_network/firewall_rules.py:53-54 | the field is accepted iff it is absent or `None`, or a list whose every entry validates as `FirewallRulesAllowDenyArgs`; it is `None` iff absent or `None`; an accepted list holds the validated entries, in order |
| FirewallRules.OptionalStrList | src/pulumi_gcp_network/firewall_rules.py:49-52 | an `Optional[List[str]]` field is accepted iff it is absent, `None` or a list of strings, and is `None` iff absent or `None` |
| FirewallRules.NameField | src/pulumi_gcp_network/firewall_rules.py:44 | `name` is required: accepted iff present and a string, and then that string |
| FirewallRules.DescriptionField | src/pulumi_gcp_network/firewall_rules.py:45 | `description` is accepted iff absent, `None` or a string, and is `None` iff absent or `None` |
| FirewallRules.DirectionField | src/pulumi_gcp_network/firewall_rules.py:46 | an absent direction is INGRESS; a given one is accepted iff it is the string of an enum member, and is then that member |
| FirewallRules.PriorityField | src/pulumi_gcp_network/firewall_rules.py:47 | an absent priority is 1000; a given one is accepted iff it is an integer in [0, 65535], and is then that integer |
| FirewallRules.RangesField | src/pulumi_gcp_network/firewall_rules.py:48 | absent ranges default to the empty list (acceptance is `StrList`'s) |
| FirewallRules.LogConfigField | src/pulumi_gcp_network/firewall_rules.py:55 | `log_config` is accepted iff absent, `None` or a valid log configuration, and is `None` iff absent or `None` |
| FirewallRules.LogConfigOf | src/pulumi_gcp_network/firewall_rules.py:36-39 | a log configuration must be a dictionary; without `metadata` it gets INCLUDE_ALL_METADATA; a given metadata is accepted iff it is the string of an enum member, and is then that member |
| FirewallRules.CoerceRule | src/pulumi_gcp_network/firewall_rules.py:79-80 | coercion fails only with a `ValidationError` |
| FirewallRules.Position | src/pulumi_gcp_network/firewall_rules.py:44-55 | each declared field has a place in the declaration order |
| FirewallRules.ValidationSucceeds | src/pulumi_gcp_network/firewall_rules.py:79-80 | coercion succeeds iff every declared field is valid |
| FirewallRules.AllFieldsValidIff | src/pulumi_gcp_network/firewall_rules.py:44-55 | the field-by-field test agrees with "every field is valid" |
| FirewallRules.AllFieldsValidEach | src/pulumi_gcp_network/firewall_rules.py:44-55 | when all twelve validators pass, each declared field is valid |
| FirewallRules.SomeFieldInvalid | src/pulumi_gcp_network/firewall_rules.py:44-55 | when coercion fails, some declared field is invalid |
| FirewallRules.ReportedFields | src/pulumi_gcp_network/firewall_rules.py:79-80 | a `ValidationError` lists exactly the invalid fields, in declaration order, and only declared ones |
| FirewallRules.ReportedNamesExact | src/pulumi_gcp_network/firewall_rules.py:44-55 | a name is listed iff its field is invalid |
| FirewallRules.InvalidKeysExact | src/pulumi_gcp_network/firewall_rules.py:44-55 | a field is listed iff it is invalid |
| FirewallRules.InvalidFromExact | src/pulumi_gcp_network/firewall_rules.py:44-55 | from position `i` on, exactly the invalid fields at or after `i` are listed |
| FirewallRules.InvalidFromAgree | src/pulumi_gcp_network/firewall_rules.py:44-55 | the listing depends only on which fields are valid |
| FirewallRules.KeyNameInjective | src/pulumi_gcp_network/firewall_rules.py:44-55 | distinct fields are read from distinct keys |
| FirewallRules.PositionOfKeyAt | src/pulumi_gcp_network/firewall_rules.py:44-55 | the declaration order is a bijection |
| FirewallRules.CoerceDefaults | src/pulumi_gcp_network/firewall_rules.py:44-55 | a record giving only a string name takes every default: INGRESS, priority 1000, no ranges, every optional field None |
| FirewallRules.UndeclaredKeysIgnored | src/pulumi_gcp_network/firewall_rules.py:43-55 | adding or changing an undeclared key does not change the coercion's outcome |
| FirewallRules.SameDeclaredSameCoercion | src/pulumi_gcp_network/firewall_rules.py:43-55 | records that agree on every declared key coerce alike |
| FirewallRules.NameRequired | src/pulumi_gcp_network/firewall_rules.py:44 | a missing or non-string name is reported as `name` |
| FirewallRules.PriorityOutOfRange | src/pulumi_gcp_network/firewall_rules.py:47 | an integer priority outside [0, 65535] is reported as `priority` |
| FirewallRules.UnknownDirection | src/pulumi_gcp_network/firewall_rules.py:46 | a direction other than INGRESS/EGRESS is reported as `direction` |
| FirewallRules.CoercedRule | src/pulumi_gcp_network/firewall_rules.py:44-48 | a coerced rule carries the record's name, its direction (default INGRESS), its priority (default 1000) and its ranges (default []) |
| FirewallRules.CoercedPassThrough | src/pulumi_gcp_network/firewall_rules.py:45-55 | a coerced rule's description, tag and service-account lists, allow and deny lists and log configuration are absent exactly when the record gives nothing or `None`, and otherwise are the record's own values, validated |
| FirewallRules.CoerceInput | src/pulumi_gcp_network/firewall_rules.py:79-80 | an already validated rule is used as it is; only a raw record can fail, and only with a `ValidationError` (when it fails: `ValidationSucceeds`, `ReportedFields`) |
| FirewallRules.LogConfigDefaultMetadata | src/pulumi_gcp_network/firewall_rules.py:36-39 | a log config without metadata gets INCLUDE_ALL_METADATA |
| FirewallRules.Expand | src/pulumi_gcp_network/firewall_rules.py:97-98 | an absent or empty list becomes `None`; otherwise the list is kept, non-empty |
| FirewallRules.FirewallAt | src/pulumi_gcp_network/firewall_rules.py:82-99 | source ranges are set iff INGRESS and destination ranges iff EGRESS, each then the rule's ranges; allows and denies, when set, are the rule's non-empty lists |
| FirewallRules.BuildFirewallRules | src/pulumi_gcp_network/firewall_rules.py:74-100 | the build succeeds iff every rule coerces, and then has one firewall per rule |
| FirewallRules.RangesFollowDirection | src/pulumi_gcp_network/firewall_rules.py:89-90 | INGRESS gives source ranges only, EGRESS destination ranges only: exactly one of the two is set |
| FirewallRules.AllowDenyExpanded | src/pulumi_gcp_network/firewall_rules.py:97-98 | allows/denies are absent iff the list is absent or empty, and otherwise are the list itself |
| FirewallRules.FirewallFields | src/pulumi_gcp_network/firewall_rules.py:82-96 | the firewall is named `rule-{name}-{i}`, carries the builder's network and project, and passes the rule's name, description, direction, tag and service-account lists, priority and log configuration through unchanged |
| FirewallRules.FirewallRules.constructor | src/pulumi_gcp_network/firewall_rules.py:74-76 | the project id and no firewalls yet |
| FirewallRules.FirewallRules.Create | src/pulumi_gcp_network/firewall_rules.py:74-100 | `FirewallRules(...)` raises exactly what `BuildFirewallRules` raises; otherwise `created_firewall_rules` is its result |
| FirewallRules.FirewallRules.AppendEach | src/pulumi_gcp_network/firewall_rules.py:76-100 | the append loop, for any loop body: `created_firewall_rules` is the body's result for every rule in order, or the first failing rule's exception is raised; `project_id` is unchanged |
| FirewallRules.OneFirewallPerRule | tests/test_firewall_rules.py:73-81 | one firewall per rule, in order, each built from its coerced rule at its position |
| FirewallRules.FirstInvalidRuleRaises | src/pulumi_gcp_network/firewall_rules.py:77-80 | the first rule that fails validation is the one whose error is raised |
| FirewallRules.FirewallResourceNamesDistinct | src/pulumi_gcp_network/firewall_rules.py:83 | resource names `rule-{name}-{i}` are pairwise distinct, whatever the names |
| FirewallRules.SingleStrList | src/pulumi_gcp_network/firewall_rules.py:48 | a one-string list validates to that string |
| FirewallRules.FirstTestRule | tests/test_firewall_rules.py:25-37 | the first test rule coerces to an INGRESS rule with its one range and no allow list |
| FirewallRules.FirstTestRuleFields | tests/test_firewall_rules.py:25-37 | its name, description, direction, priority and ranges |
| FirewallRules.FirstTestRuleAbsent | tests/test_firewall_rules.py:29-36 | its optional fields, allow and deny included, are None |
| FirewallRules.SecondTestRule | tests/test_firewall_rules.py:38-43 | the second test rule coerces to an EGRESS rule with its one range |
| FirewallRules.SecondTestRuleFields | tests/test_firewall_rules.py:38-43 | its name, description, direction, priority and ranges |
| FirewallRules.SecondTestRuleAbsent | tests/test_firewall_rules.py:38-43 | its optional fields are None |
| FirewallRules.TestRules | tests/test_firewall_rules.py:83-107 | two firewalls: source ranges `[["0.0.0.0/0"], None]`, destination ranges `[None, ["10.10.20.0/24"]]`, and no allows on the first |
| FirewallRules.TestRulesBuilt | tests/test_firewall_rules.py:83-107 | the same outcome, from the two coerced rules |
| Vpc.ParseRoutingMode | src/pulumi_gcp_network/vpc.py:17-19 | a parsed routing mode names the string it was parsed from |
| Vpc.RoutingModesExact | src/pulumi_gcp_network/vpc.py:17-19 | the routing modes are exactly GLOBAL and REGIONAL, and each value parses back to its member |
| Vpc.SharedHostOf | src/pulumi_gcp_network/vpc.py:56-61 | a shared-host descriptor exists iff the flag is truthy, and is then scoped to the project |
| Vpc.SharedHostByTruthiness | src/pulumi_gcp_network/vpc.py:57 | False, None and 0 give no host; True, any non-empty string and any non-zero integer give one |
| Vpc.Vpc.constructor | src/pulumi_gcp_network/vpc.py:43-61 | the network carries the name, project, routing mode, auto-create flag, description, MTU and delete-default-routes flag given; the host is present iff the flag is truthy, scoped to the project |
| Vpc.DefaultVpc | src/pulumi_gcp_network/vpc.py:28-33 | with every default: GLOBAL routing, no description, no auto-created subnetworks, default routes kept, MTU 0, no shared host |

Definitions with no `ensures` of their own, and the members that state what they do:

- `Routes.DerivedName` (src/pulumi_gcp_network/routes.py:53): `RouteName`, `DerivedNamesDistinct`, `ExampleNames`.
- `Subnets.KeyPair`, `Subnets.KeyPairs`, `Routes.NamedPair`, `Routes.NamedPairs`: `KeyedSubnets`,
  `NamedRoutes`, `NamedPairsAt`.
- `Subnets.SecondaryRangeOf`: `SecondaryIpRanges`.
- `Subnets.Subnetworks`, `Subnets.SubnetworkOfEntry`, `Routes.RoutesOf`, `Routes.RouteOfEntry`:
  `AddSubnetworks`, `AddRoutes`, `SubnetworkFields`, `RouteFields`.
- `FirewallRules.PortOf`, `FirewallRules.PortsOf`, `FirewallRules.AllowDenyOf`
  (src/pulumi_gcp_network/firewall_rules.py:30-32): `AllowDenyList`.
- `FirewallRules.Coerced`, `FirewallRules.FirewallRuleAt`, `FirewallRules.FirewallOfRule`:
  `CoercedRule`, `CoercedPassThrough`, `OneFirewallPerRule`, `FirstInvalidRuleRaises`.
- `Raw.Render` (src/pulumi_gcp_network/subnets.py:66, the f-string key): `SubnetKey`, `OverwrittenRecordNotBuilt`.

## Left out

- The Pulumi runtime is not modelled: `ComponentResource` registration, URNs, `Output`,
  resource options and parenting. `resource_name` and `opts` have no effect in the model.
- `src/pulumi_gcp_network/network.py` is not part of this model. It only calls the four
  builders.
- The `RoutesArgs` and `SubnetsArgs` input types and the unused `module_depends_on` argument
  are left out. No builder reads them.
- Floating-point values are opaque. A float is kept as the text Python prints for it, and
  its truthiness is decided on that text.
- Python's cross-type key equality (`True == 1 == 1.0` as dictionary keys) is not modelled.
  Keys compare as raw values.
- `str()` of a list or a dictionary, as used in a subnet key, is modelled as a placeholder.
  Two distinct lists or dicts can therefore render alike.
- Pydantic's lax coercions are left out: a string accepted as an integer, an integer as a
  string, and a boolean as an integer. So are its nested error locations. Validation here
  is strict per field and reports top-level field names only.
- `str.isspace()` is modelled by the fixed list of whitespace code points, not by the full
  Unicode database.
- FirewallRules.CoerceRule: reports which fields failed, not pydantic's messages or error
  types.
- Vpc.Vpc.constructor: the `routing_mode` argument is typed by the enum, so a string that
  is not a member cannot reach it. The source does not check this at run time either.
- Subnets.Subnets.Create, Routes.Routes.Create, FirewallRules.FirewallRules.Create: the
  created descriptors are values, so the model does not capture Pulumi's resource identity.
