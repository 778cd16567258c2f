/**
 * The network builder: one `gcp.compute.Network` descriptor carrying the builder's
 * arguments, and, when `shared_vpc_host` is set, one `gcp.compute.SharedVPCHostProject`
 * descriptor that makes the project a shared-VPC host.
 */
module Vpc {
  import opened Wrappers
  import opened Raw

  /** `VpcRoutingModeEnum`, a string enum with exactly two members. */
  datatype RoutingMode = GLOBAL | REGIONAL

  function RoutingModeName(m: RoutingMode): string {
    match m
    case GLOBAL => "GLOBAL"
    case REGIONAL => "REGIONAL"
  }

  /** `VpcRoutingModeEnum(s)`: the member whose value is `s`, or `None` where Python raises `ValueError`. */
  function ParseRoutingMode(s: string): (r: Option<RoutingMode>)
    ensures r.Some? ==> RoutingModeName(r.value) == s
  {
    if s == "GLOBAL" then Some(GLOBAL)
    else if s == "REGIONAL" then Some(REGIONAL)
    else None
  }

  /** The enum's values are exactly "GLOBAL" and "REGIONAL", and each names one member. */
  lemma RoutingModesExact(m: RoutingMode, s: string)
    ensures ParseRoutingMode(RoutingModeName(m)) == Some(m)
    ensures ParseRoutingMode(s).Some? <==> s == "GLOBAL" || s == "REGIONAL"
    ensures RoutingModeName(m) == "GLOBAL" || RoutingModeName(m) == "REGIONAL"
  {
  }

  /** The arguments of the `gcp.compute.Network("vpc", ...)` call. */
  datatype Network = Network(
    resourceName: string,
    name: string,
    autoCreateSubnetworks: bool,
    routingMode: RoutingMode,
    project: string,
    description: Option<string>,
    deleteDefaultRoutesOnCreate: bool,
    mtu: int)

  /** The arguments of the `gcp.compute.SharedVPCHostProject("shared_vpc_host", ...)` call. */
  datatype SharedVpcHostProject = SharedVpcHostProject(resourceName: string, project: string)

  /** The shared-host descriptor the builder ends up with for the flag `sharedVpcHost`. */
  function SharedHostOf(projectId: string, sharedVpcHost: Value): (h: Option<SharedVpcHostProject>)
    ensures h.Some? <==> Truthy(sharedVpcHost)
    ensures h.Some? ==> h.value.project == projectId && h.value.resourceName == "shared_vpc_host"
  {
    if Truthy(sharedVpcHost) then Some(SharedVpcHostProject("shared_vpc_host", projectId)) else None
  }

  /**
   * The flag is tested for truthiness, not compared with `True`: the default `False` and
   * every falsy value give no host, while any non-empty string, even "false", gives one.
   */
  lemma {:induction false} SharedHostByTruthiness(projectId: string, s: string, i: int)
    ensures SharedHostOf(projectId, Bool(false)) == None
    ensures SharedHostOf(projectId, Null) == None
    ensures SharedHostOf(projectId, Bool(true)) == Some(SharedVpcHostProject("shared_vpc_host", projectId))
    ensures SharedHostOf(projectId, Str(s)).Some? <==> s != ""
    ensures SharedHostOf(projectId, Int(i)).Some? <==> i != 0
  {
  }

  class Vpc {
    var projectId: string
    var vpc: Network
    var sharedVpcHost: Option<SharedVpcHostProject>

    /**
     * `Vpc(resource_name, project_id, network_name, ...)` with the source's defaults:
     * GLOBAL routing, no shared host, no description, no auto-created subnetworks,
     * default routes kept, and MTU 0 (the provider's default).
     */
    constructor(
      resourceName: string,
      projectId: string,
      networkName: string,
      routingMode: RoutingMode := GLOBAL,
      sharedVpcHost: Value := Bool(false),
      description: Option<string> := None,
      autoCreateSubnetworks: bool := false,
      deleteDefaultInternetGatewayRoutes: bool := false,
      mtu: int := 0)
      ensures this.projectId == projectId
      ensures vpc.resourceName == "vpc" && vpc.name == networkName && vpc.project == projectId
      ensures vpc.routingMode == routingMode && vpc.autoCreateSubnetworks == autoCreateSubnetworks
      ensures vpc.description == description && vpc.mtu == mtu
      ensures vpc.deleteDefaultRoutesOnCreate == deleteDefaultInternetGatewayRoutes
      ensures this.sharedVpcHost.Some? <==> Truthy(sharedVpcHost)
      ensures this.sharedVpcHost.Some? ==> this.sharedVpcHost.value.project == projectId
      ensures this.sharedVpcHost == SharedHostOf(projectId, sharedVpcHost)
    {
      this.projectId := projectId;
      vpc := Network(
        "vpc", networkName, autoCreateSubnetworks, routingMode, projectId,
        description, deleteDefaultInternetGatewayRoutes, mtu);
      this.sharedVpcHost := None;
      if Truthy(sharedVpcHost) {
        this.sharedVpcHost := Some(SharedVpcHostProject("shared_vpc_host", projectId));
      }
    }
  }

  /** A network built with every default: the descriptor the builder makes for `Vpc(name, project, network)`. */
  method DefaultVpc(resourceName: string, projectId: string, networkName: string) returns (v: Vpc)
    ensures v.projectId == projectId
    ensures v.vpc == Network("vpc", networkName, false, GLOBAL, projectId, None, false, 0)
    ensures v.sharedVpcHost == None
  {
    v := new Vpc(resourceName, projectId, networkName);
  }
}
