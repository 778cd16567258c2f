/**
 * The subnet builder: the raw subnet records are first collected into an insertion-ordered
 * dictionary keyed by "{subnet_region}/{subnet_name}" (a later record with the same key
 * replaces an earlier one in place), then one subnetwork descriptor is appended per entry.
 */
module Subnets {
  import opened Wrappers
  import opened Raw
  import opened Text
  import OrderedMap

  /** The `log_config` argument: the empty dict `{}`, or the three flow-log settings. */
  datatype LogConfig =
    | NoLogConfig
    | FlowLogs(aggregationInterval: Value, flowSampling: Value, metadata: Value)

  /** One `SubnetworkSecondaryIpRangeArgs`. */
  datatype SecondaryIpRange = SecondaryIpRange(rangeName: Value, ipCidrRange: Value)

  /** The arguments of one `gcp.compute.Subnetwork(...)` call. */
  datatype Subnetwork = Subnetwork(
    resourceName: string,
    name: Value,
    ipCidrRange: Value,
    region: Value,
    privateIpGoogleAccess: Value,
    network: string,
    project: string,
    description: Value,
    logConfig: LogConfig,
    secondaryIpRanges: seq<SecondaryIpRange>)

  /** Secondary ranges, keyed by subnet name. */
  type SecondaryRanges = map<Value, seq<Record>>

  /** The dictionary key of a subnet record: `f"{subnet['subnet_region']}/{subnet['subnet_name']}"`. */
  function SubnetKey(subnet: Record): (r: Result<string>)
    ensures r.Ok? <==> "subnet_region" in subnet && "subnet_name" in subnet
    ensures "subnet_region" !in subnet ==> r == Err(KeyError("subnet_region"))
    ensures "subnet_region" in subnet && "subnet_name" !in subnet ==> r == Err(KeyError("subnet_name"))
  {
    if "subnet_region" !in subnet then Err(KeyError("subnet_region"))
    else if "subnet_name" !in subnet then Err(KeyError("subnet_name"))
    else Ok(Render(subnet["subnet_region"]) + "/" + Render(subnet["subnet_name"]))
  }

  function KeyPair(subnet: Record): Result<(string, Record)> {
    match SubnetKey(subnet)
    case Err(e) => Err(e)
    case Ok(k) => Ok((k, subnet))
  }

  /** The key and record of each subnet, in input order. */
  function KeyPairs(subnets: seq<Record>): Result<seq<(string, Record)>> {
    MapWithIndex(subnets, (_, s) => KeyPair(s))
  }

  /** `self.subnets = {key(subnet): subnet for subnet in subnets}`. */
  function KeyedSubnets(subnets: seq<Record>): (r: Result<seq<(string, Record)>>)
    ensures r.Ok? <==> forall i :: 0 <= i < |subnets| ==> SubnetKey(subnets[i]).Ok?
    ensures r.Ok? ==> OrderedMap.DistinctKeys(r.value) && |r.value| <= |subnets|
  {
    assert forall i :: 0 <= i < |subnets| ==> ((_, s) => KeyPair(s))(i, subnets[i]) == KeyPair(subnets[i]);
    match KeyPairs(subnets)
    case Err(e) => Err(e)
    case Ok(pairs) => Ok(OrderedMap.FromPairs(pairs))
  }

  function SecondaryRangeOf(range: Record): Result<SecondaryIpRange> {
    if "range_name" !in range then Err(KeyError("range_name"))
    else if "ip_cidr_range" !in range then Err(KeyError("ip_cidr_range"))
    else Ok(SecondaryIpRange(range["range_name"], range["ip_cidr_range"]))
  }

  /** `Subnets.get_secondary_ip_ranges`: the ranges listed for the subnet name, or none. */
  function SecondaryIpRanges(secondaryRanges: SecondaryRanges, subnetName: Value): (r: Result<seq<SecondaryIpRange>>)
    ensures !Hashable(subnetName) ==> r == Err(UnhashableKey)
    ensures Hashable(subnetName) && subnetName !in secondaryRanges ==> r == Ok([])
    ensures Hashable(subnetName) && subnetName in secondaryRanges ==>
      var listed := secondaryRanges[subnetName];
      && (r.Ok? <==> forall j :: 0 <= j < |listed| ==> "range_name" in listed[j] && "ip_cidr_range" in listed[j])
      && (r.Ok? ==>
          |r.value| == |listed| &&
          forall j :: 0 <= j < |listed| ==>
            r.value[j] == SecondaryIpRange(listed[j]["range_name"], listed[j]["ip_cidr_range"]))
  {
    if !Hashable(subnetName) then Err(UnhashableKey)
    else
      var listed := if subnetName in secondaryRanges then secondaryRanges[subnetName] else [];
      var f := (_, range) => SecondaryRangeOf(range);
      assert forall j :: 0 <= j < |listed| ==> f(j, listed[j]) == SecondaryRangeOf(listed[j]);
      MapWithIndex(listed, f)
  }

  /** The `log_config` argument: `{}` unless `subnet_flow_logs` is truthy, then defaults filled in. */
  function FlowLogConfig(subnet: Record): (r: LogConfig)
    ensures r.FlowLogs? <==> Truthy(Get(subnet, "subnet_flow_logs", Bool(false)))
  {
    if Truthy(Get(subnet, "subnet_flow_logs", Bool(false))) then
      FlowLogs(
        Get(subnet, "subnet_flow_logs_interval", Str("INTERVAL_5_SEC")),
        Get(subnet, "subnet_flow_logs_sampling", Float("0.5")),
        Get(subnet, "subnet_flow_logs_metadata", Str("INCLUDE_ALL_METADATA")))
    else NoLogConfig
  }

  /**
   * The i-th `gcp.compute.Subnetwork(...)` call. Its keyword arguments are evaluated in
   * order, so a missing `subnet_ip` is reported before a malformed secondary range.
   */
  function SubnetworkAt(projectId: string, networkName: string, secondaryRanges: SecondaryRanges,
                        i: nat, subnet: Record): (r: Result<Subnetwork>)
    ensures "subnet_name" !in subnet ==> r == Err(KeyError("subnet_name"))
    ensures "subnet_name" in subnet && "subnet_ip" !in subnet ==> r == Err(KeyError("subnet_ip"))
    ensures r.Ok? ==>
      && "subnet_name" in subnet && "subnet_ip" in subnet && "subnet_region" in subnet
      && r.value.name == subnet["subnet_name"] && r.value.ipCidrRange == subnet["subnet_ip"]
      && r.value.region == subnet["subnet_region"]
      && SecondaryIpRanges(secondaryRanges, subnet["subnet_name"]) == Ok(r.value.secondaryIpRanges)
  {
    if "subnet_name" !in subnet then Err(KeyError("subnet_name"))
    else if "subnet_ip" !in subnet then Err(KeyError("subnet_ip"))
    else if "subnet_region" !in subnet then Err(KeyError("subnet_region"))
    else
      match SecondaryIpRanges(secondaryRanges, subnet["subnet_name"])
      case Err(e) => Err(e)
      case Ok(ranges) =>
        Ok(Subnetwork(
          "subnetwork-" + NatToString(i),
          subnet["subnet_name"],
          subnet["subnet_ip"],
          subnet["subnet_region"],
          Get(subnet, "subnet_private_access", Bool(false)),
          networkName,
          projectId,
          Get(subnet, "description", Null),
          FlowLogConfig(subnet),
          ranges))
  }

  /** The descriptor of each keyed entry, in the dictionary's order. */
  function Subnetworks(projectId: string, networkName: string, secondaryRanges: SecondaryRanges,
                       entries: seq<(string, Record)>): Result<seq<Subnetwork>>
  {
    MapWithIndex(entries, SubnetworkOfEntry(projectId, networkName, secondaryRanges))
  }

  /** The loop body: the subnetwork of the i-th entry of the dictionary. */
  function SubnetworkOfEntry(projectId: string, networkName: string, secondaryRanges: SecondaryRanges)
    : (nat, (string, Record)) -> Result<Subnetwork>
  {
    (i: nat, e: (string, Record)) => SubnetworkAt(projectId, networkName, secondaryRanges, i, e.1)
  }

  /** Everything `Subnets.__init__` creates, or the exception it raises. */
  function BuildSubnetworks(projectId: string, networkName: string, subnets: seq<Record>,
                            secondaryRanges: SecondaryRanges): (r: Result<seq<Subnetwork>>)
    ensures KeyedSubnets(subnets).Err? ==> r == Err(KeyedSubnets(subnets).error)
    ensures r.Ok? ==>
      KeyedSubnets(subnets).Ok? && |r.value| == |KeyedSubnets(subnets).value| && |r.value| <= |subnets|
  {
    match KeyedSubnets(subnets)
    case Err(e) => Err(e)
    case Ok(entries) => Subnetworks(projectId, networkName, secondaryRanges, entries)
  }

  /** The `Subnets` component resource. */
  class Subnets {
    var projectId: string
    /** `self.subnets`: the records keyed by "{region}/{name}", in insertion order. */
    var subnets: seq<(string, Record)>
    var createdSubnetworks: seq<Subnetwork>

    constructor (projectId: string, keyed: seq<(string, Record)>)
      ensures this.projectId == projectId && subnets == keyed && createdSubnetworks == []
    {
      this.projectId := projectId;
      subnets := keyed;
      createdSubnetworks := [];
    }

    /** `Subnets(resource_name, project_id, network_name, subnets, secondary_ranges)`. */
    static method Create(projectId: string, networkName: string, subnets: seq<Record>,
                         secondaryRanges: SecondaryRanges := map[])
      returns (r: Result<Subnets>)
      ensures r.Err? ==> BuildSubnetworks(projectId, networkName, subnets, secondaryRanges) == Err(r.error)
      ensures r.Ok? ==> fresh(r.value) && r.value.projectId == projectId
      ensures r.Ok? ==> KeyedSubnets(subnets) == Ok(r.value.subnets)
      ensures r.Ok? ==> BuildSubnetworks(projectId, networkName, subnets, secondaryRanges)
                          == Ok(r.value.createdSubnetworks)
    {
      var keyed := KeyedSubnets(subnets);
      if keyed.Err? {
        return Err(keyed.error);
      }
      var s := new Subnets(projectId, keyed.value);
      var failure := s.AddSubnetworks(networkName, secondaryRanges);
      if failure.Some? {
        return Err(failure.value);
      }
      return Ok(s);
    }

    /**
     * The loop of `__init__`: one `gcp.compute.Subnetwork` per entry of `self.subnets`,
     * appended to `self.created_subnetworks` in the dictionary's order; stops at the
     * first exception.
     */
    method AddSubnetworks(networkName: string, secondaryRanges: SecondaryRanges) returns (failure: Option<Error>)
      requires createdSubnetworks == []
      modifies this
      ensures projectId == old(projectId) && subnets == old(subnets)
      ensures failure.Some? ==> Subnetworks(projectId, networkName, secondaryRanges, subnets) == Err(failure.value)
      ensures failure.None? ==> Subnetworks(projectId, networkName, secondaryRanges, subnets) == Ok(createdSubnetworks)
    {
      var entries, f := subnets, SubnetworkOfEntry(projectId, networkName, secondaryRanges);
      var i := 0;
      while i < |entries|
        invariant 0 <= i <= |entries|
        invariant projectId == old(projectId) && subnets == entries == old(subnets)
        invariant MapWithIndex(entries[..i], f) == Ok(createdSubnetworks)
      {
        var subnetwork := f(i, entries[i]);
        MapWithIndexStep(entries, f, i, createdSubnetworks);
        if subnetwork.Err? {
          return Some(subnetwork.error);
        }
        createdSubnetworks := createdSubnetworks + [subnetwork.value];
        i := i + 1;
      }
      assert entries[..i] == entries;
      return None;
    }
  }

  /** Every record carries both key fields, and each key is computed from its own record. */
  ghost predicate AllKeyed(subnets: seq<Record>) {
    forall i :: 0 <= i < |subnets| ==> SubnetKey(subnets[i]).Ok?
  }

  /** With pairwise-distinct region/name keys every record is kept, in input order. */
  lemma DistinctKeysKeepEveryRecord(subnets: seq<Record>)
    requires AllKeyed(subnets)
    requires forall i, j :: 0 <= i < j < |subnets| ==> SubnetKey(subnets[i]) != SubnetKey(subnets[j])
    ensures KeyedSubnets(subnets).Ok?
    ensures |KeyedSubnets(subnets).value| == |subnets|
    ensures forall i :: 0 <= i < |subnets| ==>
      KeyedSubnets(subnets).value[i] == (SubnetKey(subnets[i]).value, subnets[i])
  {
    var pairs := KeyPairs(subnets).value;
    assert forall i :: 0 <= i < |subnets| ==> pairs[i] == (SubnetKey(subnets[i]).value, subnets[i]) by {
      forall i | 0 <= i < |subnets| ensures pairs[i] == (SubnetKey(subnets[i]).value, subnets[i]) {
        assert KeyPair(subnets[i]) == Ok(pairs[i]);
      }
    }
    OrderedMap.FromPairsDistinct(pairs);
  }

  /** ... and then there is one subnetwork per input record, built from that record at its position. */
  lemma DistinctKeysOneSubnetworkEach(projectId: string, networkName: string, subnets: seq<Record>,
                                      secondaryRanges: SecondaryRanges)
    requires AllKeyed(subnets)
    requires forall i, j :: 0 <= i < j < |subnets| ==> SubnetKey(subnets[i]) != SubnetKey(subnets[j])
    requires BuildSubnetworks(projectId, networkName, subnets, secondaryRanges).Ok?
    ensures |BuildSubnetworks(projectId, networkName, subnets, secondaryRanges).value| == |subnets|
    ensures forall i :: 0 <= i < |subnets| ==>
      Ok(BuildSubnetworks(projectId, networkName, subnets, secondaryRanges).value[i])
        == SubnetworkAt(projectId, networkName, secondaryRanges, i, subnets[i])
  {
    DistinctKeysKeepEveryRecord(subnets);
  }

  /** Two records with the same region/name key collapse into one entry: fewer entries than records. */
  lemma DuplicateKeysCollapse(subnets: seq<Record>, i: nat, j: nat)
    requires AllKeyed(subnets)
    requires i < j < |subnets| && SubnetKey(subnets[i]) == SubnetKey(subnets[j])
    ensures KeyedSubnets(subnets).Ok?
    ensures |KeyedSubnets(subnets).value| < |subnets|
  {
    var pairs := KeyPairs(subnets).value;
    assert KeyPair(subnets[i]) == Ok(pairs[i]) && KeyPair(subnets[j]) == Ok(pairs[j]);
    OrderedMap.FromPairsCollapses(pairs, i, j);
  }

  /** Last wins: the entry stored under a key is the LAST record carrying that key. */
  lemma LastRecordWins(subnets: seq<Record>, i: nat)
    requires AllKeyed(subnets)
    requires i < |subnets|
    requires forall j :: i < j < |subnets| ==> SubnetKey(subnets[j]) != SubnetKey(subnets[i])
    ensures KeyedSubnets(subnets).Ok?
    ensures OrderedMap.Lookup(KeyedSubnets(subnets).value, SubnetKey(subnets[i]).value) == Some(subnets[i])
  {
    var pairs := KeyPairs(subnets).value;
    assert forall j :: 0 <= j < |subnets| ==> pairs[j] == (SubnetKey(subnets[j]).value, subnets[j]) by {
      forall j | 0 <= j < |subnets| ensures pairs[j] == (SubnetKey(subnets[j]).value, subnets[j]) {
        assert KeyPair(subnets[j]) == Ok(pairs[j]);
      }
    }
    OrderedMap.FromPairsLastWins(pairs, i);
  }

  /**
   * First position: the entries are ordered by where their key first occurs among the records,
   * and every stored key is the key of some record.
   */
  lemma EntriesInFirstOccurrenceOrder(subnets: seq<Record>)
    requires AllKeyed(subnets)
    ensures KeyedSubnets(subnets).Ok?
    ensures OrderedMap.InFirstOccurrenceOrder(KeyPairs(subnets).value, OrderedMap.Keys(KeyedSubnets(subnets).value))
  {
    OrderedMap.FromPairsOrder(KeyPairs(subnets).value);
  }

  /** A record lacking `subnet_region`, after records that all have both key fields, raises that KeyError. */
  lemma MissingRegionFails(projectId: string, networkName: string, subnets: seq<Record>,
                           secondaryRanges: SecondaryRanges, k: nat)
    requires k < |subnets| && "subnet_region" !in subnets[k]
    requires forall i :: 0 <= i < k ==> SubnetKey(subnets[i]).Ok?
    ensures BuildSubnetworks(projectId, networkName, subnets, secondaryRanges) == Err(KeyError("subnet_region"))
  {
    MapWithIndexFirstError(subnets, (_, s) => KeyPair(s), k);
  }

  /** A record that has `subnet_region` but lacks `subnet_name` raises that KeyError. */
  lemma MissingNameFails(projectId: string, networkName: string, subnets: seq<Record>,
                         secondaryRanges: SecondaryRanges, k: nat)
    requires k < |subnets| && "subnet_region" in subnets[k] && "subnet_name" !in subnets[k]
    requires forall i :: 0 <= i < k ==> SubnetKey(subnets[i]).Ok?
    ensures BuildSubnetworks(projectId, networkName, subnets, secondaryRanges) == Err(KeyError("subnet_name"))
  {
    MapWithIndexFirstError(subnets, (_, s) => KeyPair(s), k);
  }

  /**
   * The dictionary is built before any subnetwork, so `subnet_ip` is only read from stored
   * entries: the first stored entry without it raises that KeyError.
   */
  lemma MissingIpFails(projectId: string, networkName: string, subnets: seq<Record>,
                       secondaryRanges: SecondaryRanges, k: nat)
    requires KeyedSubnets(subnets).Ok?
    requires k < |KeyedSubnets(subnets).value| && "subnet_ip" !in KeyedSubnets(subnets).value[k].1
    requires forall i :: 0 <= i < k ==>
      SubnetworkAt(projectId, networkName, secondaryRanges, i, KeyedSubnets(subnets).value[i].1).Ok?
    ensures BuildSubnetworks(projectId, networkName, subnets, secondaryRanges) == Err(KeyError("subnet_ip"))
  {
    var pairs := KeyPairs(subnets).value;
    var entries := KeyedSubnets(subnets).value;
    OrderedMap.FromPairsEntries(pairs, k);
    var j :| 0 <= j < |pairs| && pairs[j] == entries[k];
    assert KeyPair(subnets[j]) == Ok(pairs[j]);
    var f := SubnetworkOfEntry(projectId, networkName, secondaryRanges);
    assert forall i :: 0 <= i < |entries| ==>
      f(i, entries[i]) == SubnetworkAt(projectId, networkName, secondaryRanges, i, entries[i].1);
    MapWithIndexFirstError(entries, f, k);
  }

  /**
   * A record without `subnet_ip` does not raise when a later record with the same region and
   * name replaces it: only the replacement is built.
   */
  lemma OverwrittenRecordNotBuilt(projectId: string, networkName: string, r1: Record, r2: Record,
                                  region: string, name: string, ip: string)
    requires r1 == map["subnet_region" := Str(region), "subnet_name" := Str(name)]
    requires r2 == r1["subnet_ip" := Str(ip)]
    ensures BuildSubnetworks(projectId, networkName, [r1, r2], map[]) == Ok([Subnetwork(
      "subnetwork-0", Str(name), Str(ip), Str(region), Bool(false), networkName, projectId,
      Null, NoLogConfig, [])])
  {
    var key := OverwrittenKeyed(r1, r2, region, name, ip);
    var sub := Subnetwork("subnetwork-0", Str(name), Str(ip), Str(region), Bool(false), networkName, projectId,
      Null, NoLogConfig, []);
    FullRecordBuilt(projectId, networkName, r2, region, name, ip);
    var g := SubnetworkOfEntry(projectId, networkName, map[]);
    assert g(0, (key, r2)) == Ok(sub);
    var built := Subnetworks(projectId, networkName, map[], [(key, r2)]);
    assert built.Ok? && built.value[0] == sub;
    assert built.value == [sub];
  }

  /** The replacing record, the only one built, becomes `subnetwork-0` with every default. */
  lemma FullRecordBuilt(projectId: string, networkName: string, r2: Record, region: string, name: string, ip: string)
    requires r2 == map["subnet_region" := Str(region), "subnet_name" := Str(name), "subnet_ip" := Str(ip)]
    ensures SubnetworkAt(projectId, networkName, map[], 0, r2) == Ok(Subnetwork("subnetwork-0", Str(name), Str(ip),
      Str(region), Bool(false), networkName, projectId, Null, NoLogConfig, []))
  {
    assert r2.Keys == {"subnet_region", "subnet_name", "subnet_ip"};
    assert "subnet_private_access" !in r2 && "description" !in r2 && "subnet_flow_logs" !in r2;
    assert FlowLogConfig(r2) == NoLogConfig;
    assert SecondaryIpRanges(map[], Str(name)) == Ok([]);
    assert NatToString(0) == "0";
    assert "subnetwork-" + NatToString(0) == "subnetwork-0";
    assert Get(r2, "subnet_private_access", Bool(false)) == Bool(false) && Get(r2, "description", Null) == Null;
  }

  /** Both records carry the same key, so the dictionary holds only the second. */
  lemma OverwrittenKeyed(r1: Record, r2: Record, region: string, name: string, ip: string) returns (key: string)
    requires r1 == map["subnet_region" := Str(region), "subnet_name" := Str(name)]
    requires r2 == r1["subnet_ip" := Str(ip)]
    ensures key == region + "/" + name
    ensures KeyedSubnets([r1, r2]) == Ok([(key, r2)])
  {
    key := region + "/" + name;
    var f := (_, s) => KeyPair(s);
    assert SubnetKey(r1) == Ok(key) && SubnetKey(r2) == Ok(key);
    assert f(0, r1) == Ok((key, r1)) && f(1, r2) == Ok((key, r2));
    var pairs := [(key, r1), (key, r2)];
    var computed := KeyPairs([r1, r2]);
    assert computed.Ok? && computed.value[0] == pairs[0] && computed.value[1] == pairs[1];
    assert computed.value == pairs;
    OrderedMap.FromPairsSameKeyTwice(key, r1, r2);
  }

  /**
   * What the i-th subnetwork holds: resource name `subnetwork-{i}`, the stored record's name,
   * CIDR range and region (so that record has `subnet_ip`), the network and project of the
   * builder, private access defaulting to false, the description or nothing, flow logs exactly
   * when `subnet_flow_logs` is truthy, and the secondary ranges joined by subnet name.
   */
  lemma SubnetworkFields(projectId: string, networkName: string, subnets: seq<Record>,
                         secondaryRanges: SecondaryRanges, i: nat)
    requires BuildSubnetworks(projectId, networkName, subnets, secondaryRanges).Ok?
    requires i < |BuildSubnetworks(projectId, networkName, subnets, secondaryRanges).value|
    ensures KeyedSubnets(subnets).Ok? && i < |KeyedSubnets(subnets).value|
    ensures
      var s := KeyedSubnets(subnets).value[i].1;
      var d := BuildSubnetworks(projectId, networkName, subnets, secondaryRanges).value[i];
      && "subnet_name" in s && "subnet_ip" in s && "subnet_region" in s
      && d.resourceName == "subnetwork-" + NatToString(i)
      && d.name == s["subnet_name"] && d.ipCidrRange == s["subnet_ip"] && d.region == s["subnet_region"]
      && d.network == networkName && d.project == projectId
      && d.privateIpGoogleAccess == Get(s, "subnet_private_access", Bool(false))
      && d.description == Get(s, "description", Null)
      && (d.logConfig.FlowLogs? <==> Truthy(Get(s, "subnet_flow_logs", Bool(false))))
      && d.logConfig == FlowLogConfig(s)
      && Ok(d.secondaryIpRanges) == SecondaryIpRanges(secondaryRanges, s["subnet_name"])
  {
    var entries := KeyedSubnets(subnets).value;
    var f := SubnetworkOfEntry(projectId, networkName, secondaryRanges);
    assert f(i, entries[i]) == SubnetworkAt(projectId, networkName, secondaryRanges, i, entries[i].1);
  }

  /** Every record of a successful build has both key fields (overwritten ones included). */
  lemma BuiltRecordsAreKeyed(projectId: string, networkName: string, subnets: seq<Record>,
                             secondaryRanges: SecondaryRanges)
    requires BuildSubnetworks(projectId, networkName, subnets, secondaryRanges).Ok?
    ensures forall i :: 0 <= i < |subnets| ==> "subnet_region" in subnets[i] && "subnet_name" in subnets[i]
  {
    forall i | 0 <= i < |subnets| ensures "subnet_region" in subnets[i] && "subnet_name" in subnets[i] {
      assert KeyPair(subnets[i]).Ok?;
    }
  }

  /** Resource names `subnetwork-{i}` are pairwise distinct. */
  lemma SubnetworkNamesDistinct(projectId: string, networkName: string, subnets: seq<Record>,
                                secondaryRanges: SecondaryRanges, a: nat, b: nat)
    requires BuildSubnetworks(projectId, networkName, subnets, secondaryRanges).Ok?
    requires a < b < |BuildSubnetworks(projectId, networkName, subnets, secondaryRanges).value|
    ensures BuildSubnetworks(projectId, networkName, subnets, secondaryRanges).value[a].resourceName
         != BuildSubnetworks(projectId, networkName, subnets, secondaryRanges).value[b].resourceName
  {
    SubnetworkFields(projectId, networkName, subnets, secondaryRanges, a);
    SubnetworkFields(projectId, networkName, subnets, secondaryRanges, b);
    if "subnetwork-" + NatToString(a) == "subnetwork-" + NatToString(b) {
      NumberedNamesDistinct("subnetwork-", a, b);
    }
  }

  /** Absent or falsy `subnet_flow_logs`: the log configuration is exactly `{}`. */
  lemma FlowLogsOff(subnet: Record)
    requires "subnet_flow_logs" !in subnet || !Truthy(subnet["subnet_flow_logs"])
    ensures FlowLogConfig(subnet) == NoLogConfig
  {
  }

  /** Flow logs on with no overrides: interval `INTERVAL_5_SEC`, sampling 0.5, all metadata. */
  lemma FlowLogsDefaults(subnet: Record)
    requires "subnet_flow_logs" in subnet && Truthy(subnet["subnet_flow_logs"])
    requires "subnet_flow_logs_interval" !in subnet && "subnet_flow_logs_sampling" !in subnet
    requires "subnet_flow_logs_metadata" !in subnet
    ensures FlowLogConfig(subnet) == FlowLogs(Str("INTERVAL_5_SEC"), Float("0.5"), Str("INCLUDE_ALL_METADATA"))
  {
  }

  /**
   * Flow logs on: each of the three settings is taken from the record when given and
   * defaulted otherwise, independently of the other two.
   */
  lemma FlowLogsOverrides(subnet: Record)
    requires Truthy(Get(subnet, "subnet_flow_logs", Bool(false)))
    ensures FlowLogConfig(subnet).FlowLogs?
    ensures "subnet_flow_logs_interval" in subnet ==>
      FlowLogConfig(subnet).aggregationInterval == subnet["subnet_flow_logs_interval"]
    ensures "subnet_flow_logs_interval" !in subnet ==> FlowLogConfig(subnet).aggregationInterval == Str("INTERVAL_5_SEC")
    ensures "subnet_flow_logs_sampling" in subnet ==>
      FlowLogConfig(subnet).flowSampling == subnet["subnet_flow_logs_sampling"]
    ensures "subnet_flow_logs_sampling" !in subnet ==> FlowLogConfig(subnet).flowSampling == Float("0.5")
    ensures "subnet_flow_logs_metadata" in subnet ==>
      FlowLogConfig(subnet).metadata == subnet["subnet_flow_logs_metadata"]
    ensures "subnet_flow_logs_metadata" !in subnet ==> FlowLogConfig(subnet).metadata == Str("INCLUDE_ALL_METADATA")
  {
  }
}
