/** Filling in the placeholders of a macvlan configuration from the state of the host. */
module Enrich {
  import opened Sequences
  import opened Subnet
  import opened ArpProbe
  import opened ArpPick
  import opened CidrNumbers

  /** An interface with its address and mask length. */
  datatype HostNIC = HostNIC(name: string, ip: IP, prefix: nat)

  /** What can be read of the host; the interface list is missing when the query failed. */
  datatype Host = Host(nics: Option<seq<HostNIC>>, probe: Probe, cache: ArpCache)

  predicate OnSubnet(nic: HostNIC, ip: IP) {
    nic.prefix <= 32 && Masked(nic.ip, nic.prefix) == Masked(ip, nic.prefix)
  }

  function FirstOnSubnet(nics: seq<HostNIC>, ip: IP): (r: Option<HostNIC>)
    ensures r.Some? ==> r.value in nics && OnSubnet(r.value, ip)
    ensures r.None? ==> forall n :: n in nics ==> !OnSubnet(n, ip)
  {
    if nics == [] then None else if OnSubnet(nics[0], ip) then Some(nics[0]) else FirstOnSubnet(nics[1..], ip)
  }

  function FirstNamed(nics: seq<HostNIC>, name: string): (r: Option<HostNIC>)
    ensures r.Some? ==> r.value in nics && r.value.name == name
    ensures r.None? ==> forall n :: n in nics ==> n.name != name
  {
    if nics == [] then None else if nics[0].name == name then Some(nics[0]) else FirstNamed(nics[1..], name)
  }

  method FindNICForSubnet(nics: seq<HostNIC>, ip: IP) returns (r: Option<HostNIC>)
    ensures r == FirstOnSubnet(nics, ip)
  {
    for i := 0 to |nics|
      invariant FirstOnSubnet(nics[i..], ip) == FirstOnSubnet(nics, ip)
    {
      assert nics[i..][1..] == nics[i + 1..];
      if OnSubnet(nics[i], ip) {
        return Some(nics[i]);
      }
    }
    return None;
  }

  method IPv4OnNIC(nics: seq<HostNIC>, name: string) returns (r: Option<HostNIC>)
    ensures r == FirstNamed(nics, name)
  {
    for i := 0 to |nics|
      invariant FirstNamed(nics[i..], name) == FirstNamed(nics, name)
    {
      assert nics[i..][1..] == nics[i + 1..];
      if nics[i].name == name {
        return Some(nics[i]);
      }
    }
    return None;
  }

  /** The interface to attach to and the host's address on it, if it can be determined. */
  datatype Attachment = Attachment(nic: string, hostIP: Option<IP>)

  function Attach(cfg: MacvlanConfig, nics: seq<HostNIC>, ip: IP): Option<Attachment> {
    if cfg.hostNIC == "" then
      match FirstOnSubnet(nics, ip)
      case None => None
      case Some(n) => Some(Attachment(n.name, Some(n.ip)))
    else
      match FirstNamed(nics, cfg.hostNIC)
      case None => Some(Attachment(cfg.hostNIC, None))
      case Some(n) => Some(Attachment(cfg.hostNIC, Some(n.ip)))
  }

  const START_OCTET := 100

  /** What is known of a configuration's placeholders before anything is picked. */
  datatype Plan = Leave | AttachOnly(nic: string) | PickFor(nic: string, hostIP: Option<IP>, net: Net)

  ghost predicate PlanOk(plan: Plan) {
    plan.PickFor? ==> ValidNet(plan.net)
  }

  function PlanOf(cfg: MacvlanConfig, nics: Option<seq<HostNIC>>): (plan: Plan)
    ensures PlanOk(plan)
  {
    match ParseIPNet(cfg.ip)
    case None => Leave
    case Some((ip, net)) =>
      if nics.None? then Leave
      else
        match Attach(cfg, nics.value, ip)
        case None => Leave
        case Some(at) => if ip == net.base then PickFor(at.nic, at.hostIP, net) else AttachOnly(at.nic)
  }

  function PickOf(plan: Plan, host: Host): Pick
    requires plan.PickFor? && PlanOk(plan)
  {
    ProbePick(plan.net, plan.hostIP, START_OCTET, host.probe, host.cache)
  }

  function Enriched(cfg: MacvlanConfig, host: Host): MacvlanConfig {
    var plan := PlanOf(cfg, host.nics);
    if plan.Leave? then cfg
    else if plan.PickFor? && PickOf(plan, host).Picked? then
      cfg.(hostNIC := plan.nic, ip := Cidr(PickOf(plan, host).ip, plan.net.prefix))
    else cfg.(hostNIC := plan.nic)
  }

  predicate Panicking(cfg: MacvlanConfig, host: Host) {
    var plan := PlanOf(cfg, host.nics);
    plan.PickFor? && PickOf(plan, host).Panics?
  }

  /** A configuration that its owner shares by reference. */
  class ConfigCell {
    var cfg: MacvlanConfig

    constructor (cfg: MacvlanConfig)
      ensures this.cfg == cfg
    {
      this.cfg := cfg;
    }

    /** Step 1: the interface to attach to. */
    method ResolveHostNIC(nics: seq<HostNIC>, ip: IP) returns (at: Option<Attachment>)
      modifies this
      ensures at == Attach(old(cfg), nics, ip)
      ensures cfg == if at.None? then old(cfg) else old(cfg).(hostNIC := at.value.nic)
    {
      if cfg.hostNIC == "" {
        var found := FindNICForSubnet(nics, ip);
        if found.None? {
          return None;
        }
        cfg := cfg.(hostNIC := found.value.name);
        return Some(Attachment(cfg.hostNIC, Some(found.value.ip)));
      }
      var found := IPv4OnNIC(nics, cfg.hostNIC);
      return Some(Attachment(cfg.hostNIC, if found.Some? then Some(found.value.ip) else None));
    }

    /** Step 2: an address in place of a network address. */
    method ResolveIP(net: Net, hostIP: Option<IP>, host: Host) returns (panicked: bool)
      requires ValidNet(net)
      modifies this
      ensures var pick := ProbePick(net, hostIP, START_OCTET, host.probe, host.cache);
              && panicked == pick.Panics?
              && cfg == if pick.Picked? then old(cfg).(ip := Cidr(pick.ip, net.prefix)) else old(cfg)
    {
      var pick := ProbeFreeIP(net, hostIP, START_OCTET, host.probe, host.cache);
      if pick.Picked? {
        cfg := cfg.(ip := Cidr(pick.ip, net.prefix));
      }
      return pick.Panics?;
    }

    method EnrichMACVLANConfig(host: Host) returns (panicked: bool)
      modifies this
      ensures cfg == Enriched(old(cfg), host)
      ensures panicked == Panicking(old(cfg), host)
    {
      var parsed := ParseIPNet(cfg.ip);
      if parsed.None? || host.nics.None? {
        return false;
      }
      var (ip, net) := parsed.value;
      var at := ResolveHostNIC(host.nics.value, ip);
      if at.None? || ip != net.base {
        return false;
      }
      panicked := ResolveIP(net, at.value.hostIP, host);
    }
  }

  // ------------------------------------------------------------------
  // What enrichment achieves
  // ------------------------------------------------------------------

  /** The addresses in use are those of `segment`, and the probe sees exactly that. */
  ghost predicate SeesSegment(plan: Plan, host: Host, segment: set<IP>) {
    && plan.PickFor? && PlanOk(plan)
    && Usable(host.probe, plan.hostIP)
    && Exact(Candidates(plan.net, plan.hostIP, START_OCTET), host.probe.round, segment)
  }

  /**
   * A placeholder, seen through an exact probe, becomes the first candidate not in use; it then validates unless that
   * is the network address itself. With no candidate free it stays a placeholder, which does not validate.
   */
  lemma PlaceholderResolved(cfg: MacvlanConfig, host: Host, segment: set<IP>)
    requires cfg.name != ""
    requires var plan := PlanOf(cfg, host.nics); SeesSegment(plan, host, segment) && plan.nic != ""
    ensures !Panicking(cfg, host)
    ensures var plan := PlanOf(cfg, host.nics);
            var free := LowestFree(Candidates(plan.net, plan.hostIP, START_OCTET), segment);
            var after := Enriched(cfg, host);
            && after.name == cfg.name && after.gateway == cfg.gateway && after.hostNIC == plan.nic
            && (free.None? ==> after.ip == cfg.ip && Validate(after) == IsNetworkAddress)
            && (free.Some? ==>
                  after.ip == Cidr(free.value, plan.net.prefix) && free.value !in segment && plan.hostIP != free)
            && (free.Some? ==> Validate(after) == if free.value == plan.net.base then IsNetworkAddress else Valid)
            && (free.Some? && plan.net.base.d == 0 ==> Validate(after) == Valid)
  {
    var plan := PlanOf(cfg, host.nics);
    ProbeRefinesLinearSearch(plan.net, plan.hostIP, START_OCTET, host.probe, host.cache, segment);
    var free := LowestFree(Candidates(plan.net, plan.hostIP, START_OCTET), segment);
    if free.Some? {
      CandidatesMean(plan.net, plan.hostIP, START_OCTET);
      PickValidates(cfg.(hostNIC := plan.nic), plan.net, plan.hostIP, START_OCTET, free.value);
    }
  }

  lemma {:induction false} FirstOnSubnetIs(nics: seq<HostNIC>, ip: IP, i: nat)
    requires i < |nics| && OnSubnet(nics[i], ip) && forall j :: 0 <= j < i ==> !OnSubnet(nics[j], ip)
    ensures FirstOnSubnet(nics, ip) == Some(nics[i])
  {
    if i > 0 {
      FirstOnSubnetIs(nics[1..], ip, i - 1);
    }
  }

  /** An address is on an interface's subnet if both round down to the same multiple of the network's size. */
  lemma OnSubnetIsSameMultiple(nic: HostNIC, ip: IP)
    ensures OnSubnet(nic, ip) <==>
            && nic.prefix <= 32
            && Number(nic.ip) - Number(nic.ip) % Size(nic.prefix) == Number(ip) - Number(ip) % Size(nic.prefix)
  {
    if nic.prefix <= 32 {
      RoundedDown(nic.ip, nic.prefix);
      RoundedDown(ip, nic.prefix);
      if Number(Masked(nic.ip, nic.prefix)) == Number(Masked(ip, nic.prefix)) {
        NumberIsOneToOne(Masked(nic.ip, nic.prefix), Masked(ip, nic.prefix));
      }
    }
  }

  /** A missing interface becomes the first one whose subnet has the address, and its address the host's. */
  lemma MissingNICResolved(cfg: MacvlanConfig, host: Host, i: nat)
    requires cfg.hostNIC == "" && host.nics.Some? && i < |host.nics.value| && ParseIPNet(cfg.ip).Some?
    requires var ip := ParseIPNet(cfg.ip).value.0;
             OnSubnet(host.nics.value[i], ip) && forall j :: 0 <= j < i ==> !OnSubnet(host.nics.value[j], ip)
    ensures Enriched(cfg, host).hostNIC == host.nics.value[i].name
    ensures var plan := PlanOf(cfg, host.nics); plan.PickFor? ==> plan.hostIP == Some(host.nics.value[i].ip)
  {
    FirstOnSubnetIs(host.nics.value, ParseIPNet(cfg.ip).value.0, i);
  }

  lemma {:induction false} FirstNamedIs(nics: seq<HostNIC>, name: string, i: nat)
    requires i < |nics| && nics[i].name == name && forall j :: 0 <= j < i ==> nics[j].name != name
    ensures FirstNamed(nics, name) == Some(nics[i])
  {
    if i > 0 {
      FirstNamedIs(nics[1..], name, i - 1);
    }
  }

  /** A named interface is attached to, and the first address listed under its name is the host's. */
  lemma NamedNICResolved(cfg: MacvlanConfig, host: Host, i: nat)
    requires cfg.hostNIC != "" && host.nics.Some? && i < |host.nics.value| && ParseIPNet(cfg.ip).Some?
    requires host.nics.value[i].name == cfg.hostNIC && forall j :: 0 <= j < i ==> host.nics.value[j].name != cfg.hostNIC
    ensures Enriched(cfg, host).hostNIC == cfg.hostNIC
    ensures var plan := PlanOf(cfg, host.nics); plan.PickFor? ==> plan.hostIP == Some(host.nics.value[i].ip)
  {
    FirstNamedIs(host.nics.value, cfg.hostNIC, i);
  }

  /** Whatever the probe hears and the cache holds, the host's own address is never picked. */
  lemma HostIsNeverPicked(cfg: MacvlanConfig, host: Host)
    requires PlanOf(cfg, host.nics).PickFor? && PlanOf(cfg, host.nics).hostIP.Some?
    ensures var plan := PlanOf(cfg, host.nics);
            PickOf(plan, host) != Picked(plan.hostIP.value)
            && (PickOf(plan, host).Picked? ==> Enriched(cfg, host).ip == Cidr(PickOf(plan, host).ip, plan.net.prefix))
  {
    var plan := PlanOf(cfg, host.nics);
    PickMeans(plan.net, plan.hostIP, START_OCTET, host.probe, host.cache);
    CandidatesMean(plan.net, plan.hostIP, START_OCTET);
    var candidates := Candidates(plan.net, plan.hostIP, START_OCTET);
    assert plan.hostIP.value !in candidates;
    assert forall k :: 0 <= k < |candidates| ==> candidates[k] in candidates;
  }

  /** On eth0 with 10.0.0.1/24, without a probe and with an empty ARP cache, 10.0.0.0 becomes 10.0.0.100/24. */
  lemma PlaceholderExample(cfg: MacvlanConfig, host: Host)
    requires cfg == MacvlanConfig("eth0", "macvlan0", Plain(IP(10, 0, 0, 0)), None)
    requires host == Host(Some([HostNIC("eth0", IP(10, 0, 0, 1), 24)]), Unavailable, Some({}))
    ensures Enriched(cfg, host) == cfg.(ip := Cidr(IP(10, 0, 0, 100), 24))
  {
    var net, hostIP := Net(IP(10, 0, 0, 0), 24), Some(IP(10, 0, 0, 1));
    FirstTwo(net, hostIP, 100);
    NamedNICResolved(cfg, host, 0);
    PickMeans(net, hostIP, 100, Unavailable, Some({}));
    assert 0 !in Cached(Candidates(net, hostIP, 100), {});
  }

  /** A concrete address is never replaced, and a named interface never changed. */
  lemma ConcreteStays(cfg: MacvlanConfig, host: Host)
    requires var p := ParseIPNet(cfg.ip); p.Some? ==> p.value.0 != p.value.1.base
    ensures Enriched(cfg, host).ip == cfg.ip && !Panicking(cfg, host)
    ensures cfg.hostNIC != "" ==> Enriched(cfg, host) == cfg
  {
  }

  /** Once a configuration validates, enriching it again changes nothing, whatever has become of the host. */
  lemma EnrichingAgain(cfg: MacvlanConfig, host: Host, later: Host)
    requires Validate(Enriched(cfg, host)) == Valid
    ensures Enriched(Enriched(cfg, host), later) == Enriched(cfg, host)
    ensures !Panicking(Enriched(cfg, host), later)
  {
    ConcreteStays(Enriched(cfg, host), later);
  }
}
