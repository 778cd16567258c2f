/**
 * The firewall-rule builder: each rule, given either as a raw record or as an already
 * validated rule, is coerced against the declared rule schema, and one firewall descriptor
 * is appended per rule, in input order and without deduplication.
 */
module FirewallRules {
  import opened Wrappers
  import opened Raw
  import opened Text

  /** `FirewallDirectionEnum`. */
  datatype Direction = INGRESS | EGRESS

  function DirectionName(d: Direction): string {
    match d
    case INGRESS => "INGRESS"
    case EGRESS => "EGRESS"
  }

  /** The enum member whose value is `s`, if any. */
  function ParseDirection(s: string): (r: Option<Direction>)
    ensures r.Some? ==> DirectionName(r.value) == s
  {
    if s == "INGRESS" then Some(INGRESS)
    else if s == "EGRESS" then Some(EGRESS)
    else None
  }

  /** `FirewallLogConfigMetadataEnum`. */
  datatype Metadata = EXCLUDE_ALL_METADATA | INCLUDE_ALL_METADATA

  function MetadataName(m: Metadata): string {
    match m
    case EXCLUDE_ALL_METADATA => "EXCLUDE_ALL_METADATA"
    case INCLUDE_ALL_METADATA => "INCLUDE_ALL_METADATA"
  }

  function ParseMetadata(s: string): (r: Option<Metadata>)
    ensures r.Some? ==> MetadataName(r.value) == s
  {
    if s == "EXCLUDE_ALL_METADATA" then Some(EXCLUDE_ALL_METADATA)
    else if s == "INCLUDE_ALL_METADATA" then Some(INCLUDE_ALL_METADATA)
    else None
  }

  /** Each enum value parses back to its member, and only the enum values parse. */
  lemma EnumNamesRoundTrip(d: Direction, m: Metadata, s: string)
    ensures ParseDirection(DirectionName(d)) == Some(d)
    ensures ParseMetadata(MetadataName(m)) == Some(m)
    ensures ParseDirection(s).Some? <==> s == "INGRESS" || s == "EGRESS"
    ensures ParseMetadata(s).Some? <==> s == "EXCLUDE_ALL_METADATA" || s == "INCLUDE_ALL_METADATA"
  {
  }

  /** The declared bounds of `priority`: `Field(default=1000, ge=0, le=65535)`. */
  const MinPriority := 0
  const MaxPriority := 65535
  const DefaultPriority := 1000
  type Priority = p: int | MinPriority <= p <= MaxPriority witness DefaultPriority

  datatype Port = PortName(name: string) | PortNumber(number: int)

  /** `ports: Union[Union[str, int], List[Union[str, int]]]`. */
  datatype Ports = Single(port: Port) | Many(ports: seq<Port>)

  /** `FirewallRulesAllowDenyArgs`. */
  datatype AllowDeny = AllowDeny(protocol: string, ports: Ports)

  /** `FirewallRulesLogConfigArgs`. */
  datatype LogConfig = LogConfig(metadata: Metadata)

  /** `FirewallRulesRuleArgs`: a rule that passed validation. */
  datatype RuleArgs = RuleArgs(
    name: string,
    description: Option<string>,
    direction: Direction,
    priority: Priority,
    ranges: seq<string>,
    sourceTags: Option<seq<string>>,
    sourceServiceAccounts: Option<seq<string>>,
    targetTags: Option<seq<string>>,
    targetServiceAccounts: Option<seq<string>>,
    allow: Option<seq<AllowDeny>>,
    deny: Option<seq<AllowDeny>>,
    logConfig: Option<LogConfig>)

  /** A rule as the builder receives it: a plain dictionary, or an already validated rule. */
  datatype RuleInput = RawRule(record: Record) | TypedRule(args: RuleArgs)

  /** The outcome of validating one field. */
  datatype Field<T> = Valid(value: T) | Invalid

  /** The arguments of one `gcp.compute.Firewall(...)` call; `None` stands for an absent argument. */
  datatype Firewall = Firewall(
    resourceName: string,
    name: string,
    description: Option<string>,
    direction: Direction,
    network: string,
    project: string,
    sourceRanges: Option<seq<string>>,
    destinationRanges: Option<seq<string>>,
    sourceTags: Option<seq<string>>,
    sourceServiceAccounts: Option<seq<string>>,
    targetTags: Option<seq<string>>,
    targetServiceAccounts: Option<seq<string>>,
    priority: Priority,
    logConfig: Option<LogConfig>,
    denies: Option<seq<AllowDeny>>,
    allows: Option<seq<AllowDeny>>)

  /** The declared fields of the rule schema. */
  datatype RuleKey =
    | NameKey | DescriptionKey | DirectionKey | PriorityKey | RangesKey | SourceTagsKey
    | SourceServiceAccountsKey | TargetTagsKey | TargetServiceAccountsKey | AllowKey | DenyKey | LogConfigKey

  /** The record key a declared field is read from. */
  function KeyName(k: RuleKey): string {
    match k
    case NameKey => "name"
    case DescriptionKey => "description"
    case DirectionKey => "direction"
    case PriorityKey => "priority"
    case RangesKey => "ranges"
    case SourceTagsKey => "source_tags"
    case SourceServiceAccountsKey => "source_service_accounts"
    case TargetTagsKey => "target_tags"
    case TargetServiceAccountsKey => "target_service_accounts"
    case AllowKey => "allow"
    case DenyKey => "deny"
    case LogConfigKey => "log_config"
  }

  /** Whether `key` is one the schema declares. */
  predicate Declared(key: string) {
    exists k: RuleKey :: KeyName(k) == key
  }

  /* Field validators. A field that is absent takes its default; `None` is accepted only by
     the `Optional` fields. */

  function StrList(v: Value): (r: Field<seq<string>>)
    ensures r.Valid? <==> v.List? && forall k :: 0 <= k < |v.items| ==> v.items[k].Str?
    ensures r.Valid? ==> |r.value| == |v.items| && forall k :: 0 <= k < |v.items| ==> v.items[k] == Str(r.value[k])
  {
    if v.List? && forall k :: 0 <= k < |v.items| ==> v.items[k].Str? then
      Valid(seq(|v.items|, k requires 0 <= k < |v.items| => v.items[k].s))
    else Invalid
  }

  function OptionalStrList(record: Record, key: string): (r: Field<Option<seq<string>>>)
    ensures r.Valid? <==> Get(record, key, Null).Null? || StrList(Get(record, key, Null)).Valid?
    ensures r == Valid(None) <==> Get(record, key, Null).Null?
  {
    var v := Get(record, key, Null);
    if v.Null? then Valid(None)
    else match StrList(v)
      case Valid(l) => Valid(Some(l))
      case Invalid => Invalid
  }

  function PortOf(v: Value): Field<Port> {
    match v
    case Str(s) => Valid(PortName(s))
    case Int(n) => Valid(PortNumber(n))
    case _ => Invalid
  }

  function PortsOf(v: Value): Field<Ports> {
    if v.List? then
      if forall k :: 0 <= k < |v.items| ==> PortOf(v.items[k]).Valid? then
        Valid(Many(seq(|v.items|, k requires 0 <= k < |v.items| => PortOf(v.items[k]).value)))
      else Invalid
    else match PortOf(v)
      case Valid(p) => Valid(Single(p))
      case Invalid => Invalid
  }

  /** `FirewallRulesAllowDenyArgs(**entry)`: both fields are required. */
  function AllowDenyOf(v: Value): Field<AllowDeny> {
    if v.Dict? && "protocol" in v.entries && v.entries["protocol"].Str? && "ports" in v.entries then
      match PortsOf(v.entries["ports"])
      case Valid(ports) => Valid(AllowDeny(v.entries["protocol"].s, ports))
      case Invalid => Invalid
    else Invalid
  }

  function AllowDenyList(record: Record, key: string): (r: Field<Option<seq<AllowDeny>>>)
    ensures r.Valid? <==>
      || Get(record, key, Null).Null?
      || (Get(record, key, Null).List? &&
          forall k :: 0 <= k < |Get(record, key, Null).items| ==> AllowDenyOf(Get(record, key, Null).items[k]).Valid?)
    ensures r == Valid(None) <==> Get(record, key, Null).Null?
    ensures r.Valid? && r.value.Some? ==>
      && Get(record, key, Null).List?
      && |r.value.value| == |Get(record, key, Null).items|
      && forall k :: 0 <= k < |r.value.value| ==> AllowDenyOf(Get(record, key, Null).items[k]) == Valid(r.value.value[k])
  {
    var v := Get(record, key, Null);
    if v.Null? then Valid(None)
    else if v.List? && forall k :: 0 <= k < |v.items| ==> AllowDenyOf(v.items[k]).Valid? then
      Valid(Some(seq(|v.items|, k requires 0 <= k < |v.items| => AllowDenyOf(v.items[k]).value)))
    else Invalid
  }

  /** `FirewallRulesLogConfigArgs(**log_config)`: `metadata` defaults to INCLUDE_ALL_METADATA. */
  function LogConfigOf(v: Value): (r: Field<LogConfig>)
    ensures r.Valid? ==> v.Dict?
    ensures v.Dict? && "metadata" !in v.entries ==> r == Valid(LogConfig(INCLUDE_ALL_METADATA))
    ensures v.Dict? && "metadata" in v.entries ==>
      (r.Valid? <==> v.entries["metadata"].Str? && ParseMetadata(v.entries["metadata"].s).Some?)
    ensures r.Valid? && "metadata" in v.entries ==> v.entries["metadata"] == Str(MetadataName(r.value.metadata))
  {
    if !v.Dict? then Invalid
    else if "metadata" !in v.entries then Valid(LogConfig(INCLUDE_ALL_METADATA))
    else
      var m := v.entries["metadata"];
      if m.Str? && ParseMetadata(m.s).Some? then Valid(LogConfig(ParseMetadata(m.s).value)) else Invalid
  }

  function NameField(record: Record): (r: Field<string>)
    ensures r.Valid? <==> "name" in record && record["name"].Str?
    ensures r.Valid? ==> record["name"] == Str(r.value)
  {
    match Get(record, "name", Null)
    case Str(s) => Valid(s)
    case _ => Invalid
  }

  function DescriptionField(record: Record): (r: Field<Option<string>>)
    ensures r.Valid? <==> Get(record, "description", Null).Null? || Get(record, "description", Null).Str?
    ensures r == Valid(None) <==> Get(record, "description", Null).Null?
  {
    match Get(record, "description", Null)
    case Null => Valid(None)
    case Str(s) => Valid(Some(s))
    case _ => Invalid
  }

  function DirectionField(record: Record): (r: Field<Direction>)
    ensures "direction" !in record ==> r == Valid(INGRESS)
    ensures "direction" in record ==>
      (r.Valid? <==> record["direction"].Str? && ParseDirection(record["direction"].s).Some?)
    ensures r.Valid? && "direction" in record ==> record["direction"] == Str(DirectionName(r.value))
  {
    match Get(record, "direction", Str("INGRESS"))
    case Str(s) => if ParseDirection(s).Some? then Valid(ParseDirection(s).value) else Invalid
    case _ => Invalid
  }

  function PriorityField(record: Record): (r: Field<Priority>)
    ensures "priority" !in record ==> r == Valid(DefaultPriority)
    ensures "priority" in record ==>
      (r.Valid? <==> record["priority"].Int? && MinPriority <= record["priority"].i <= MaxPriority)
    ensures r.Valid? && "priority" in record ==> record["priority"] == Int(r.value)
  {
    match Get(record, "priority", Int(DefaultPriority))
    case Int(p) => if MinPriority <= p <= MaxPriority then Valid(p) else Invalid
    case _ => Invalid
  }

  function RangesField(record: Record): (r: Field<seq<string>>)
    ensures "ranges" !in record ==> r == Valid([])
  {
    StrList(Get(record, "ranges", List([])))
  }

  function LogConfigField(record: Record): (r: Field<Option<LogConfig>>)
    ensures r.Valid? <==> Get(record, "log_config", Null).Null? || LogConfigOf(Get(record, "log_config", Null)).Valid?
    ensures r == Valid(None) <==> Get(record, "log_config", Null).Null?
  {
    var v := Get(record, "log_config", Null);
    if v.Null? then Valid(None)
    else match LogConfigOf(v)
      case Valid(c) => Valid(Some(c))
      case Invalid => Invalid
  }

  /** Whether the declared field `k` of `record` passes validation. */
  predicate FieldValid(record: Record, k: RuleKey) {
    match k
    case NameKey => NameField(record).Valid?
    case DescriptionKey => DescriptionField(record).Valid?
    case DirectionKey => DirectionField(record).Valid?
    case PriorityKey => PriorityField(record).Valid?
    case RangesKey => RangesField(record).Valid?
    case AllowKey => AllowDenyList(record, "allow").Valid?
    case DenyKey => AllowDenyList(record, "deny").Valid?
    case LogConfigKey => LogConfigField(record).Valid?
    case _ => OptionalStrList(record, KeyName(k)).Valid?
  }

  /** The declaration order of the fields. */
  const FieldCount := 12

  function Position(k: RuleKey): (i: nat)
    ensures i < FieldCount && KeyAt(i) == k
  {
    match k
    case NameKey => 0
    case DescriptionKey => 1
    case DirectionKey => 2
    case PriorityKey => 3
    case RangesKey => 4
    case SourceTagsKey => 5
    case SourceServiceAccountsKey => 6
    case TargetTagsKey => 7
    case TargetServiceAccountsKey => 8
    case AllowKey => 9
    case DenyKey => 10
    case LogConfigKey => 11
  }

  function KeyAt(i: nat): RuleKey
    requires i < FieldCount
  {
    if i == 0 then NameKey
    else if i == 1 then DescriptionKey
    else if i == 2 then DirectionKey
    else if i == 3 then PriorityKey
    else if i == 4 then RangesKey
    else if i == 5 then SourceTagsKey
    else if i == 6 then SourceServiceAccountsKey
    else if i == 7 then TargetTagsKey
    else if i == 8 then TargetServiceAccountsKey
    else if i == 9 then AllowKey
    else if i == 10 then DenyKey
    else LogConfigKey
  }

  lemma PositionOfKeyAt(i: nat)
    requires i < FieldCount
    ensures Position(KeyAt(i)) == i
  {
  }

  /** The fields from position `i` on that `valid` rejects, in declaration order. */
  function InvalidFrom(valid: RuleKey -> bool, i: nat): seq<RuleKey>
    requires i <= FieldCount
    decreases FieldCount - i
  {
    if i == FieldCount then []
    else (if valid(KeyAt(i)) then [] else [KeyAt(i)]) + InvalidFrom(valid, i + 1)
  }

  /** Which fields of `record` pass validation. */
  function Validity(record: Record): RuleKey -> bool {
    k => FieldValid(record, k)
  }

  /** The fields that `valid` rejects, in declaration order. */
  function InvalidKeys(valid: RuleKey -> bool): seq<RuleKey> {
    InvalidFrom(valid, 0)
  }

  function KeyNames(keys: seq<RuleKey>): (names: seq<string>)
    ensures |names| == |keys| && forall i :: 0 <= i < |keys| ==> names[i] == KeyName(keys[i])
  {
    seq(|keys|, i requires 0 <= i < |keys| => KeyName(keys[i]))
  }

  predicate AllFieldsValid(record: Record) {
    && NameField(record).Valid? && DescriptionField(record).Valid? && DirectionField(record).Valid?
    && PriorityField(record).Valid? && RangesField(record).Valid?
    && OptionalStrList(record, "source_tags").Valid? && OptionalStrList(record, "source_service_accounts").Valid?
    && OptionalStrList(record, "target_tags").Valid? && OptionalStrList(record, "target_service_accounts").Valid?
    && AllowDenyList(record, "allow").Valid? && AllowDenyList(record, "deny").Valid?
    && LogConfigField(record).Valid?
  }

  /** `FirewallRulesRuleArgs(**record)`: every failing field is reported, in declaration order. */
  function CoerceRule(record: Record): (r: Result<RuleArgs>)
    ensures r.Err? ==> r.error.ValidationError?
  {
    if AllFieldsValid(record) then Ok(Coerced(record))
    else Err(ValidationError(KeyNames(InvalidKeys(Validity(record)))))
  }

  /** The validated rule, once every field has passed. */
  function Coerced(record: Record): RuleArgs
    requires AllFieldsValid(record)
  {
    RuleArgs(
      NameField(record).value,
      DescriptionField(record).value,
      DirectionField(record).value,
      PriorityField(record).value,
      RangesField(record).value,
      OptionalStrList(record, "source_tags").value,
      OptionalStrList(record, "source_service_accounts").value,
      OptionalStrList(record, "target_tags").value,
      OptionalStrList(record, "target_service_accounts").value,
      AllowDenyList(record, "allow").value,
      AllowDenyList(record, "deny").value,
      LogConfigField(record).value)
  }

  /** `if not isinstance(rule, FirewallRulesRuleArgs): rule = FirewallRulesRuleArgs(**rule)`. */
  function CoerceInput(rule: RuleInput): (r: Result<RuleArgs>)
    ensures rule.TypedRule? ==> r == Ok(rule.args)
    ensures r.Err? ==> rule.RawRule? && r.error.ValidationError?
  {
    match rule
    case RawRule(record) => CoerceRule(record)
    case TypedRule(args) => Ok(args)
  }

  /** `[r.dict() for r in rules] if rules else None`: an absent or empty list becomes absent. */
  function Expand(rules: Option<seq<AllowDeny>>): (r: Option<seq<AllowDeny>>)
    ensures r.None? <==> rules.None? || rules.value == []
    ensures r.Some? ==> r == rules && r.value != []
  {
    if rules.Some? && rules.value != [] then rules else None
  }

  /** The i-th `gcp.compute.Firewall(...)` call. */
  function FirewallAt(projectId: string, networkName: string, i: nat, rule: RuleArgs): (r: Firewall)
    ensures r.sourceRanges.Some? <==> rule.direction == INGRESS
    ensures r.destinationRanges.Some? <==> rule.direction == EGRESS
    ensures r.sourceRanges.Some? ==> r.sourceRanges.value == rule.ranges
    ensures r.destinationRanges.Some? ==> r.destinationRanges.value == rule.ranges
    ensures r.allows.Some? ==> r.allows == rule.allow && r.allows.value != []
    ensures r.denies.Some? ==> r.denies == rule.deny && r.denies.value != []
  {
    Firewall(
      "rule-" + rule.name + "-" + NatToString(i),
      rule.name,
      rule.description,
      rule.direction,
      networkName,
      projectId,
      if rule.direction == INGRESS then Some(rule.ranges) else None,
      if rule.direction == EGRESS then Some(rule.ranges) else None,
      rule.sourceTags,
      rule.sourceServiceAccounts,
      rule.targetTags,
      rule.targetServiceAccounts,
      rule.priority,
      rule.logConfig,
      Expand(rule.deny),
      Expand(rule.allow))
  }

  function FirewallRuleAt(projectId: string, networkName: string, i: nat, rule: RuleInput): Result<Firewall> {
    match CoerceInput(rule)
    case Err(e) => Err(e)
    case Ok(args) => Ok(FirewallAt(projectId, networkName, i, args))
  }

  /** Everything `FirewallRules.__init__` creates, or the exception it raises. */
  function BuildFirewallRules(projectId: string, networkName: string, rules: seq<RuleInput>): (r: Result<seq<Firewall>>)
    ensures r.Ok? <==> forall i :: 0 <= i < |rules| ==> CoerceInput(rules[i]).Ok?
    ensures r.Ok? ==> |r.value| == |rules|
  {
    assert forall i: nat :: i < |rules| ==>
      FirewallOfRule(projectId, networkName)(i, rules[i]) == FirewallRuleAt(projectId, networkName, i, rules[i]);
    MapWithIndex(rules, FirewallOfRule(projectId, networkName))
  }

  /** The loop body: coerce the i-th rule and build its firewall. */
  function FirewallOfRule(projectId: string, networkName: string): (nat, RuleInput) -> Result<Firewall> {
    (i: nat, rule: RuleInput) => FirewallRuleAt(projectId, networkName, i, rule)
  }

  /** The `FirewallRules` component resource. */
  class FirewallRules {
    var projectId: string
    var createdFirewallRules: seq<Firewall>

    constructor (projectId: string)
      ensures this.projectId == projectId && createdFirewallRules == []
    {
      this.projectId := projectId;
      createdFirewallRules := [];
    }

    /** `FirewallRules(resource_name, project_id, network_name, rules)`. */
    static method Create(projectId: string, networkName: string, rules: seq<RuleInput> := [])
      returns (r: Result<FirewallRules>)
      ensures r.Err? ==> BuildFirewallRules(projectId, networkName, rules) == Err(r.error)
      ensures r.Ok? ==> fresh(r.value) && r.value.projectId == projectId
      ensures r.Ok? ==> BuildFirewallRules(projectId, networkName, rules) == Ok(r.value.createdFirewallRules)
    {
      var s := new FirewallRules(projectId);
      var failure := s.AppendEach(rules, FirewallOfRule(projectId, networkName));
      if failure.Some? {
        return Err(failure.value);
      }
      return Ok(s);
    }

    /**
     * The loop of `__init__`, for any loop body `f` that coerces the i-th rule and builds its
     * firewall, or raises: one firewall per rule, appended in input order.
     */
    method AppendEach(rules: seq<RuleInput>, f: (nat, RuleInput) -> Result<Firewall>) returns (failure: Option<Error>)
      requires createdFirewallRules == []
      modifies this
      ensures projectId == old(projectId)
      ensures failure.Some? ==> MapWithIndex(rules, f) == Err(failure.value)
      ensures failure.None? ==> MapWithIndex(rules, f) == Ok(createdFirewallRules)
    {
      var i := 0;
      while i < |rules|
        invariant 0 <= i <= |rules|
        invariant projectId == old(projectId)
        invariant MapWithIndex(rules[..i], f) == Ok(createdFirewallRules)
      {
        var firewall := f(i, rules[i]);
        MapWithIndexStep(rules, f, i, createdFirewallRules);
        if firewall.Err? {
          return Some(firewall.error);
        }
        createdFirewallRules := createdFirewallRules + [firewall.value];
        i := i + 1;
      }
      assert rules[..i] == rules;
      return None;
    }
  }

  /** A record giving only `name` (plus any undeclared keys) takes every default. */
  lemma CoerceDefaults(record: Record)
    requires "name" in record && record["name"].Str?
    requires forall k :: k != NameKey ==> KeyName(k) !in record
    ensures CoerceRule(record) ==
      Ok(RuleArgs(record["name"].s, None, INGRESS, DefaultPriority, [], None, None, None, None, None, None, None))
  {
    DefaultsFirstHalf(record);
    DefaultsSecondHalf(record);
  }

  lemma DefaultsFirstHalf(record: Record)
    requires forall k :: k != NameKey ==> KeyName(k) !in record
    ensures DescriptionField(record) == Valid(None)
    ensures DirectionField(record) == Valid(INGRESS)
    ensures PriorityField(record) == Valid(DefaultPriority)
    ensures RangesField(record) == Valid([])
  {
    assert KeyName(DescriptionKey) !in record && KeyName(DirectionKey) !in record;
    assert KeyName(PriorityKey) !in record && KeyName(RangesKey) !in record;
    assert StrList(List([])) == Valid([]);
  }

  lemma DefaultsSecondHalf(record: Record)
    requires forall k :: k != NameKey ==> KeyName(k) !in record
    ensures OptionalStrList(record, "source_tags") == Valid(None)
    ensures OptionalStrList(record, "source_service_accounts") == Valid(None)
    ensures OptionalStrList(record, "target_tags") == Valid(None)
    ensures OptionalStrList(record, "target_service_accounts") == Valid(None)
    ensures AllowDenyList(record, "allow") == Valid(None)
    ensures AllowDenyList(record, "deny") == Valid(None)
    ensures LogConfigField(record) == Valid(None)
  {
    assert KeyName(SourceTagsKey) !in record && KeyName(SourceServiceAccountsKey) !in record;
    assert KeyName(TargetTagsKey) !in record && KeyName(TargetServiceAccountsKey) !in record;
    assert KeyName(AllowKey) !in record && KeyName(DenyKey) !in record && KeyName(LogConfigKey) !in record;
  }

  /** Two records that agree on every declared field. */
  ghost predicate SameDeclared(r1: Record, r2: Record) {
    forall k :: Get(r1, KeyName(k), Null) == Get(r2, KeyName(k), Null) && (KeyName(k) in r1 <==> KeyName(k) in r2)
  }

  /** Keys the schema does not declare are ignored. */
  lemma UndeclaredKeysIgnored(record: Record, key: string, v: Value)
    requires !Declared(key)
    ensures CoerceRule(record[key := v]) == CoerceRule(record)
  {
    var r := record[key := v];
    assert SameDeclared(r, record) by {
      forall k ensures Get(r, KeyName(k), Null) == Get(record, KeyName(k), Null) && (KeyName(k) in r <==> KeyName(k) in record) {
        assert KeyName(k) != key;
      }
    }
    SameDeclaredSameCoercion(r, record);
  }

  /** Validation reads only the declared fields. */
  lemma SameDeclaredSameCoercion(r1: Record, r2: Record)
    requires SameDeclared(r1, r2)
    ensures CoerceRule(r1) == CoerceRule(r2)
  {
    SameDeclaredFirstHalf(r1, r2);
    SameDeclaredSecondHalf(r1, r2);
    if !AllFieldsValid(r1) {
      forall k ensures Validity(r1)(k) == Validity(r2)(k) {
        match k
        case NameKey =>
        case DescriptionKey =>
        case DirectionKey =>
        case PriorityKey =>
        case RangesKey =>
        case SourceTagsKey =>
        case SourceServiceAccountsKey =>
        case TargetTagsKey =>
        case TargetServiceAccountsKey =>
        case AllowKey =>
        case DenyKey =>
        case LogConfigKey =>
      }
      InvalidFromAgree(Validity(r1), Validity(r2), 0);
    }
  }

  lemma SameDeclaredFirstHalf(r1: Record, r2: Record)
    requires SameDeclared(r1, r2)
    ensures NameField(r1) == NameField(r2)
    ensures DescriptionField(r1) == DescriptionField(r2)
    ensures DirectionField(r1) == DirectionField(r2)
    ensures PriorityField(r1) == PriorityField(r2)
    ensures RangesField(r1) == RangesField(r2)
  {
    assert Get(r1, KeyName(NameKey), Null) == Get(r2, KeyName(NameKey), Null);
    assert Get(r1, KeyName(DescriptionKey), Null) == Get(r2, KeyName(DescriptionKey), Null);
    assert Get(r1, KeyName(DirectionKey), Null) == Get(r2, KeyName(DirectionKey), Null);
    assert Get(r1, KeyName(PriorityKey), Null) == Get(r2, KeyName(PriorityKey), Null);
    assert Get(r1, KeyName(RangesKey), Null) == Get(r2, KeyName(RangesKey), Null);
  }

  lemma SameDeclaredSecondHalf(r1: Record, r2: Record)
    requires SameDeclared(r1, r2)
    ensures OptionalStrList(r1, "source_tags") == OptionalStrList(r2, "source_tags")
    ensures OptionalStrList(r1, "source_service_accounts") == OptionalStrList(r2, "source_service_accounts")
    ensures OptionalStrList(r1, "target_tags") == OptionalStrList(r2, "target_tags")
    ensures OptionalStrList(r1, "target_service_accounts") == OptionalStrList(r2, "target_service_accounts")
    ensures AllowDenyList(r1, "allow") == AllowDenyList(r2, "allow")
    ensures AllowDenyList(r1, "deny") == AllowDenyList(r2, "deny")
    ensures LogConfigField(r1) == LogConfigField(r2)
  {
    assert Get(r1, KeyName(SourceTagsKey), Null) == Get(r2, KeyName(SourceTagsKey), Null);
    assert Get(r1, KeyName(SourceServiceAccountsKey), Null) == Get(r2, KeyName(SourceServiceAccountsKey), Null);
    assert Get(r1, KeyName(TargetTagsKey), Null) == Get(r2, KeyName(TargetTagsKey), Null);
    assert Get(r1, KeyName(TargetServiceAccountsKey), Null) == Get(r2, KeyName(TargetServiceAccountsKey), Null);
    assert Get(r1, KeyName(AllowKey), Null) == Get(r2, KeyName(AllowKey), Null);
    assert Get(r1, KeyName(DenyKey), Null) == Get(r2, KeyName(DenyKey), Null);
    assert Get(r1, KeyName(LogConfigKey), Null) == Get(r2, KeyName(LogConfigKey), Null);
  }

  /** A missing or non-string `name` is reported. */
  lemma NameRequired(record: Record)
    requires "name" !in record || !record["name"].Str?
    ensures CoerceRule(record).Err? && "name" in CoerceRule(record).error.fields
  {
    assert !FieldValid(record, NameKey);
    ValidationSucceeds(record);
    ReportedFields(record);
  }

  /** A `priority` outside [0, 65535] is reported. */
  lemma PriorityOutOfRange(record: Record, p: int)
    requires "priority" in record && record["priority"] == Int(p)
    requires p < MinPriority || MaxPriority < p
    ensures CoerceRule(record).Err? && "priority" in CoerceRule(record).error.fields
  {
    assert !FieldValid(record, PriorityKey);
    ValidationSucceeds(record);
    ReportedFields(record);
  }

  /** A `direction` other than "INGRESS" or "EGRESS" is reported. */
  lemma UnknownDirection(record: Record)
    requires "direction" in record && record["direction"] != Str("INGRESS") && record["direction"] != Str("EGRESS")
    ensures CoerceRule(record).Err? && "direction" in CoerceRule(record).error.fields
  {
    assert !FieldValid(record, DirectionKey);
    ValidationSucceeds(record);
    ReportedFields(record);
  }

  /**
   * A coerced rule carries the record's name, its direction (INGRESS by default), its priority
   * (1000 by default, within the bounds) and its ranges ([] by default).
   */
  lemma CoercedRule(record: Record)
    requires CoerceRule(record).Ok?
    ensures var a := CoerceRule(record).value;
      && "name" in record && record["name"] == Str(a.name)
      && ("direction" !in record ==> a.direction == INGRESS)
      && ("direction" in record ==> record["direction"] == Str(DirectionName(a.direction)))
      && ("priority" !in record ==> a.priority == DefaultPriority)
      && ("priority" in record ==> record["priority"] == Int(a.priority))
      && ("ranges" !in record ==> a.ranges == [])
      && ("ranges" in record ==>
            && |a.ranges| == |record["ranges"].items|
            && forall k :: 0 <= k < |a.ranges| ==> record["ranges"].items[k] == Str(a.ranges[k]))
  {
    assert StrList(List([])) == Valid([]);
  }

  /**
   * An optional list field of a coerced rule: absent exactly when the record gives nothing or
   * `None` for it, and otherwise the record's list of strings, element by element.
   */
  ghost predicate ListFrom(record: Record, key: string, l: Option<seq<string>>) {
    && (l.None? <==> Get(record, key, Null) == Null)
    && (l.Some? ==>
          && key in record && record[key].List? && |l.value| == |record[key].items|
          && forall k :: 0 <= k < |l.value| ==> record[key].items[k] == Str(l.value[k]))
  }

  /**
   * The remaining fields of a coerced rule come from the record unchanged: the description,
   * the four tag and service-account lists, and the log configuration (absent when not given).
   */
  lemma CoercedPassThrough(record: Record)
    requires CoerceRule(record).Ok?
    ensures var a := CoerceRule(record).value;
      && (a.description.None? <==> Get(record, "description", Null) == Null)
      && (a.description.Some? ==> record["description"] == Str(a.description.value))
      && ListFrom(record, "source_tags", a.sourceTags)
      && ListFrom(record, "source_service_accounts", a.sourceServiceAccounts)
      && ListFrom(record, "target_tags", a.targetTags)
      && ListFrom(record, "target_service_accounts", a.targetServiceAccounts)
      && (a.logConfig.None? <==> Get(record, "log_config", Null) == Null)
      && (a.logConfig.Some? ==> LogConfigOf(record["log_config"]) == Valid(a.logConfig.value))
      && (a.allow.None? <==> Get(record, "allow", Null) == Null)
      && (a.allow.Some? ==> AllowDenyList(record, "allow") == Valid(a.allow))
      && (a.deny.None? <==> Get(record, "deny", Null) == Null)
      && (a.deny.Some? ==> AllowDenyList(record, "deny") == Valid(a.deny))
  {
    var a := CoerceRule(record).value;
    OptionalListFrom(record, "source_tags");
    OptionalListFrom(record, "source_service_accounts");
    OptionalListFrom(record, "target_tags");
    OptionalListFrom(record, "target_service_accounts");
  }

  lemma OptionalListFrom(record: Record, key: string)
    requires OptionalStrList(record, key).Valid?
    ensures ListFrom(record, key, OptionalStrList(record, key).value)
  {
  }

  /**
   * The firewall built from a rule: resource name `rule-{name}-{i}`, the builder's network and
   * project, and the rule's name, description, direction, tag and service-account lists,
   * priority and log configuration passed through unchanged.
   */
  lemma FirewallFields(projectId: string, networkName: string, i: nat, rule: RuleArgs)
    ensures var f := FirewallAt(projectId, networkName, i, rule);
      && f.resourceName == "rule-" + rule.name + "-" + NatToString(i)
      && f.name == rule.name && f.description == rule.description && f.direction == rule.direction
      && f.network == networkName && f.project == projectId
      && f.sourceTags == rule.sourceTags && f.sourceServiceAccounts == rule.sourceServiceAccounts
      && f.targetTags == rule.targetTags && f.targetServiceAccounts == rule.targetServiceAccounts
      && f.priority == rule.priority && f.logConfig == rule.logConfig
  {
  }

  /** A log configuration without `metadata` gets INCLUDE_ALL_METADATA. */
  lemma LogConfigDefaultMetadata(record: Record, config: map<string, Value>)
    requires "log_config" in record && record["log_config"] == Dict(config) && "metadata" !in config
    ensures LogConfigField(record) == Valid(Some(LogConfig(INCLUDE_ALL_METADATA)))
  {
  }

  /** INGRESS rules get source ranges, EGRESS rules destination ranges; never both, never neither. */
  lemma RangesFollowDirection(projectId: string, networkName: string, i: nat, rule: RuleArgs)
    ensures var f := FirewallAt(projectId, networkName, i, rule);
      && (f.sourceRanges.Some? <==> !f.destinationRanges.Some?)
      && (rule.direction == INGRESS ==> f.sourceRanges == Some(rule.ranges))
      && (rule.direction == EGRESS ==> f.destinationRanges == Some(rule.ranges))
  {
  }

  /** Allow and deny lists: absent when absent or empty, otherwise the same entries in order. */
  lemma AllowDenyExpanded(projectId: string, networkName: string, i: nat, rule: RuleArgs)
    ensures var f := FirewallAt(projectId, networkName, i, rule);
      && (f.allows.None? <==> rule.allow.None? || rule.allow == Some([]))
      && (f.allows.Some? ==> f.allows == rule.allow)
      && (f.denies.None? <==> rule.deny.None? || rule.deny == Some([]))
      && (f.denies.Some? ==> f.denies == rule.deny)
  {
  }

  /** One firewall per rule, in input order, each built from its rule at its position. */
  lemma OneFirewallPerRule(projectId: string, networkName: string, rules: seq<RuleInput>)
    requires BuildFirewallRules(projectId, networkName, rules).Ok?
    ensures |BuildFirewallRules(projectId, networkName, rules).value| == |rules|
    ensures forall i :: 0 <= i < |rules| ==>
      && CoerceInput(rules[i]).Ok?
      && BuildFirewallRules(projectId, networkName, rules).value[i]
           == FirewallAt(projectId, networkName, i, CoerceInput(rules[i]).value)
  {
    var f := FirewallOfRule(projectId, networkName);
    assert forall i :: 0 <= i < |rules| ==> f(i, rules[i]) == FirewallRuleAt(projectId, networkName, i, rules[i]);
  }

  /** The first rule, by position, that fails validation is the one whose error is raised. */
  lemma FirstInvalidRuleRaises(projectId: string, networkName: string, rules: seq<RuleInput>, k: nat)
    requires k < |rules| && CoerceInput(rules[k]).Err?
    requires forall i :: 0 <= i < k ==> CoerceInput(rules[i]).Ok?
    ensures BuildFirewallRules(projectId, networkName, rules) == Err(CoerceInput(rules[k]).error)
  {
    MapWithIndexFirstError(rules, FirewallOfRule(projectId, networkName), k);
  }

  /** Resource names `rule-{name}-{i}` are pairwise distinct, whatever the rule names are. */
  lemma FirewallResourceNamesDistinct(projectId: string, networkName: string, rules: seq<RuleInput>, a: nat, b: nat)
    requires BuildFirewallRules(projectId, networkName, rules).Ok?
    requires a < b < |rules|
    ensures BuildFirewallRules(projectId, networkName, rules).value[a].resourceName
         != BuildFirewallRules(projectId, networkName, rules).value[b].resourceName
  {
    OneFirewallPerRule(projectId, networkName, rules);
    var na, nb := CoerceInput(rules[a]).value.name, CoerceInput(rules[b]).value.name;
    if "rule-" + na + "-" + NatToString(a) == "rule-" + nb + "-" + NatToString(b) {
      DashNumberSuffix("rule-" + na, "rule-" + nb, a, b);
    }
  }

  /** The first rule of the firewall tests: `allows` and `denies` are not declared keys. */
  lemma FirstTestRule(r: Record)
    requires r == FirstTestRecord()
    ensures CoerceRule(r) == Ok(RuleArgs(
      "test-rule-1", Some("Test rule 1"), INGRESS, DefaultPriority, ["0.0.0.0/0"],
      None, None, None, None, None, None, None))
  {
    FirstTestRuleFields(r);
    FirstTestRuleAbsent(r);
  }

  /** `TEST_FIREWALLRULES[0]`. */
  function FirstTestRecord(): Record {
    map[
      "name" := Str("test-rule-1"), "description" := Str("Test rule 1"),
      "ranges" := List([Str("0.0.0.0/0")]),
      "allows" := List([Dict(map["protocol" := Str("tcp"), "ports" := List([Str("22")])])]),
      "denies" := List([]), "log_config" := Null]
  }

  lemma FirstTestRuleFields(r: Record)
    requires r == FirstTestRecord()
    ensures NameField(r) == Valid("test-rule-1") && DescriptionField(r) == Valid(Some("Test rule 1"))
    ensures DirectionField(r) == Valid(INGRESS) && PriorityField(r) == Valid(DefaultPriority)
    ensures RangesField(r) == Valid(["0.0.0.0/0"])
  {
    assert KeyName(DirectionKey) !in r && KeyName(PriorityKey) !in r;
    SingleStrList("0.0.0.0/0");
  }

  lemma FirstTestRuleAbsent(r: Record)
    requires r == FirstTestRecord()
    ensures OptionalStrList(r, "source_tags") == Valid(None)
    ensures OptionalStrList(r, "source_service_accounts") == Valid(None)
    ensures OptionalStrList(r, "target_tags") == Valid(None)
    ensures OptionalStrList(r, "target_service_accounts") == Valid(None)
    ensures AllowDenyList(r, "allow") == Valid(None)
    ensures AllowDenyList(r, "deny") == Valid(None)
    ensures LogConfigField(r) == Valid(None)
  {
    assert KeyName(AllowKey) !in r && KeyName(DenyKey) !in r;
    assert KeyName(SourceTagsKey) !in r && KeyName(SourceServiceAccountsKey) !in r;
    assert KeyName(TargetTagsKey) !in r && KeyName(TargetServiceAccountsKey) !in r;
  }

  /** The second rule of the firewall tests: an EGRESS rule. */
  lemma SecondTestRule(r: Record)
    requires r == SecondTestRecord()
    ensures CoerceRule(r) == Ok(RuleArgs(
      "test-rule-2", Some("Test rule 2"), EGRESS, DefaultPriority, ["10.10.20.0/24"],
      None, None, None, None, None, None, None))
  {
    SecondTestRuleFields(r);
    SecondTestRuleAbsent(r);
  }

  /** `TEST_FIREWALLRULES[1]`. */
  function SecondTestRecord(): Record {
    map[
      "name" := Str("test-rule-2"), "description" := Str("Test rule 2"),
      "ranges" := List([Str("10.10.20.0/24")]), "direction" := Str("EGRESS")]
  }

  lemma SecondTestRuleFields(r: Record)
    requires r == SecondTestRecord()
    ensures NameField(r) == Valid("test-rule-2") && DescriptionField(r) == Valid(Some("Test rule 2"))
    ensures DirectionField(r) == Valid(EGRESS) && PriorityField(r) == Valid(DefaultPriority)
    ensures RangesField(r) == Valid(["10.10.20.0/24"])
  {
    assert KeyName(PriorityKey) !in r;
    SingleStrList("10.10.20.0/24");
  }

  lemma SecondTestRuleAbsent(r: Record)
    requires r == SecondTestRecord()
    ensures OptionalStrList(r, "source_tags") == Valid(None)
    ensures OptionalStrList(r, "source_service_accounts") == Valid(None)
    ensures OptionalStrList(r, "target_tags") == Valid(None)
    ensures OptionalStrList(r, "target_service_accounts") == Valid(None)
    ensures AllowDenyList(r, "allow") == Valid(None)
    ensures AllowDenyList(r, "deny") == Valid(None)
    ensures LogConfigField(r) == Valid(None)
  {
    assert KeyName(AllowKey) !in r && KeyName(DenyKey) !in r && KeyName(LogConfigKey) !in r;
    assert KeyName(SourceTagsKey) !in r && KeyName(SourceServiceAccountsKey) !in r;
    assert KeyName(TargetTagsKey) !in r && KeyName(TargetServiceAccountsKey) !in r;
  }

  /** A list holding one string validates to that one string. */
  lemma SingleStrList(s: string)
    ensures StrList(List([Str(s)])) == Valid([s])
  {
    var r := StrList(List([Str(s)]));
    assert List([Str(s)]).items[0] == Str(s);
    assert r.Valid? && |r.value| == 1 && r.value[0] == s;
    assert r.value == [s];
  }

  /**
   * The rules of the firewall tests: two firewalls, the INGRESS one with source ranges only
   * and the EGRESS one with destination ranges only; the first has no allow list, because
   * its entries were given under the undeclared key `allows`.
   */
  lemma TestRules(r1: Record, r2: Record)
    requires r1 == FirstTestRecord() && r2 == SecondTestRecord()
    ensures var fs := BuildFirewallRules("test", "test-network", [RawRule(r1), RawRule(r2)]);
      && fs.Ok? && |fs.value| == 2
      && fs.value[0].sourceRanges == Some(["0.0.0.0/0"]) && fs.value[1].sourceRanges == None
      && fs.value[0].destinationRanges == None && fs.value[1].destinationRanges == Some(["10.10.20.0/24"])
      && fs.value[0].allows == None
  {
    FirstTestRule(r1);
    SecondTestRule(r2);
    TestRulesBuilt(r1, r2);
  }

  lemma TestRulesBuilt(r1: Record, r2: Record)
    requires CoerceRule(r1) == Ok(RuleArgs(
      "test-rule-1", Some("Test rule 1"), INGRESS, DefaultPriority, ["0.0.0.0/0"],
      None, None, None, None, None, None, None))
    requires CoerceRule(r2) == Ok(RuleArgs(
      "test-rule-2", Some("Test rule 2"), EGRESS, DefaultPriority, ["10.10.20.0/24"],
      None, None, None, None, None, None, None))
    ensures var fs := BuildFirewallRules("test", "test-network", [RawRule(r1), RawRule(r2)]);
      && fs.Ok? && |fs.value| == 2
      && fs.value[0].sourceRanges == Some(["0.0.0.0/0"]) && fs.value[1].sourceRanges == None
      && fs.value[0].destinationRanges == None && fs.value[1].destinationRanges == Some(["10.10.20.0/24"])
      && fs.value[0].allows == None
  {
    var rules := [RawRule(r1), RawRule(r2)];
    assert forall i :: 0 <= i < |rules| ==> FirewallRuleAt("test", "test-network", i, rules[i]).Ok?;
    OneFirewallPerRule("test", "test-network", rules);
  }

  /** Validation succeeds exactly when every declared field is valid. */
  lemma ValidationSucceeds(record: Record)
    ensures CoerceRule(record).Ok? <==> forall k :: FieldValid(record, k)
  {
    AllFieldsValidIff(record);
  }

  lemma AllFieldsValidIff(record: Record)
    ensures AllFieldsValid(record) <==> forall k :: FieldValid(record, k)
  {
    if AllFieldsValid(record) {
      AllFieldsValidEach(record);
    } else {
      var k := SomeFieldInvalid(record);
    }
  }

  lemma AllFieldsValidEach(record: Record)
    requires AllFieldsValid(record)
    ensures forall k :: FieldValid(record, k)
  {
    forall k ensures FieldValid(record, k) {
      match k
      case NameKey => assert NameField(record).Valid?;
      case DescriptionKey => assert DescriptionField(record).Valid?;
      case DirectionKey => assert DirectionField(record).Valid?;
      case PriorityKey => assert PriorityField(record).Valid?;
      case RangesKey => assert RangesField(record).Valid?;
      case SourceTagsKey => assert OptionalStrList(record, "source_tags").Valid?;
      case SourceServiceAccountsKey => assert OptionalStrList(record, "source_service_accounts").Valid?;
      case TargetTagsKey => assert OptionalStrList(record, "target_tags").Valid?;
      case TargetServiceAccountsKey => assert OptionalStrList(record, "target_service_accounts").Valid?;
      case AllowKey => assert AllowDenyList(record, "allow").Valid?;
      case DenyKey => assert AllowDenyList(record, "deny").Valid?;
      case LogConfigKey => assert LogConfigField(record).Valid?;
    }
  }

  lemma SomeFieldInvalid(record: Record) returns (k: RuleKey)
    requires !AllFieldsValid(record)
    ensures !FieldValid(record, k)
  {
    k :=
      if NameField(record).Invalid? then NameKey
      else if DescriptionField(record).Invalid? then DescriptionKey
      else if DirectionField(record).Invalid? then DirectionKey
      else if PriorityField(record).Invalid? then PriorityKey
      else if RangesField(record).Invalid? then RangesKey
      else if OptionalStrList(record, "source_tags").Invalid? then SourceTagsKey
      else if OptionalStrList(record, "source_service_accounts").Invalid? then SourceServiceAccountsKey
      else if OptionalStrList(record, "target_tags").Invalid? then TargetTagsKey
      else if OptionalStrList(record, "target_service_accounts").Invalid? then TargetServiceAccountsKey
      else if AllowDenyList(record, "allow").Invalid? then AllowKey
      else if AllowDenyList(record, "deny").Invalid? then DenyKey
      else LogConfigKey;
  }

  /** The failing fields listed are exactly the invalid ones. */
  lemma InvalidKeysExact(valid: RuleKey -> bool)
    ensures forall k :: k in InvalidKeys(valid) <==> !valid(k)
  {
    InvalidFromExact(valid, 0);
  }

  lemma {:induction false} InvalidFromExact(valid: RuleKey -> bool, i: nat)
    requires i <= FieldCount
    ensures forall k :: k in InvalidFrom(valid, i) <==> i <= Position(k) && !valid(k)
    decreases FieldCount - i
  {
    if i < FieldCount {
      InvalidFromExact(valid, i + 1);
      var key := KeyAt(i);
      PositionOfKeyAt(i);
      var head := if valid(key) then [] else [key];
      assert InvalidFrom(valid, i) == head + InvalidFrom(valid, i + 1);
      forall k ensures k in InvalidFrom(valid, i) <==> i <= Position(k) && !valid(k) {
        assert k in InvalidFrom(valid, i) <==> k in head || k in InvalidFrom(valid, i + 1);
        if Position(k) == i {
          assert key == k;
        } else {
          assert key != k;
        }
      }
    }
  }

  /** A failed validation reports exactly the declared fields that are invalid, in declaration order. */
  lemma ReportedFields(record: Record)
    requires CoerceRule(record).Err?
    ensures CoerceRule(record).error.fields == KeyNames(InvalidKeys(Validity(record)))
    ensures forall k :: KeyName(k) in CoerceRule(record).error.fields <==> !FieldValid(record, k)
    ensures forall key :: key in CoerceRule(record).error.fields ==> Declared(key)
  {
    ReportedNamesExact(Validity(record));
  }

  /** The names reported for `valid` are exactly the names of the fields it rejects. */
  lemma ReportedNamesExact(valid: RuleKey -> bool)
    ensures forall k :: KeyName(k) in KeyNames(InvalidKeys(valid)) <==> !valid(k)
    ensures forall key :: key in KeyNames(InvalidKeys(valid)) ==> Declared(key)
  {
    InvalidKeysExact(valid);
    var invalid := InvalidKeys(valid);
    var names := KeyNames(invalid);
    forall k ensures KeyName(k) in names <==> !valid(k) {
      if !valid(k) {
        var i :| 0 <= i < |invalid| && invalid[i] == k;
        assert names[i] == KeyName(k);
      } else if KeyName(k) in names {
        var i :| 0 <= i < |names| && names[i] == KeyName(k);
        KeyNameInjective(invalid[i], k);
      }
    }
    forall key | key in names ensures Declared(key) {
      var i :| 0 <= i < |names| && names[i] == key;
      assert KeyName(invalid[i]) == key;
    }
  }

  /** Two validity tests that agree on every field reject the same fields. */
  lemma {:induction false} InvalidFromAgree(v1: RuleKey -> bool, v2: RuleKey -> bool, i: nat)
    requires i <= FieldCount
    requires forall k :: v1(k) == v2(k)
    ensures InvalidFrom(v1, i) == InvalidFrom(v2, i)
    decreases FieldCount - i
  {
    if i < FieldCount {
      InvalidFromAgree(v1, v2, i + 1);
    }
  }

  lemma KeyNameInjective(a: RuleKey, b: RuleKey)
    requires KeyName(a) == KeyName(b)
    ensures a == b
  {
  }

}
