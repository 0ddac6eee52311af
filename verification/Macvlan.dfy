/** Creating, configuring and destroying macvlan links, and the Setup call that does so for a pod. */
module Macvlan {
  import opened Sequences
  import opened Subnet
  import opened Enrich

  // ------------------------------------------------------------------
  // Network namespaces
  // ------------------------------------------------------------------

  datatype Link = Link(addrs: set<(IP, nat)>, up: bool)

  type Links = map<string, Link>

  /** The links of the host's namespace and of every pod's, the latter by process id. */
  datatype NetState = NetState(host: Links, pods: map<int, Links>)

  function LinksOf(net: NetState, ns: int): Links {
    if ns in net.pods then net.pods[ns] else map[]
  }

  function Put(net: NetState, ns: int, name: string, link: Link): NetState {
    net.(pods := net.pods[ns := LinksOf(net, ns)[name := link]])
  }

  function Drop(net: NetState, ns: int, name: string): NetState {
    if name in LinksOf(net, ns) then net.(pods := net.pods[ns := LinksOf(net, ns) - {name}]) else net
  }

  lemma DropAfterPut(net: NetState, ns: int, name: string, link: Link)
    requires ns in net.pods
    ensures Drop(Put(net, ns, name, link), ns, name) == Drop(net, ns, name)
  {
    var links := net.pods[ns];
    assert links[name := link] - {name} == links - {name};
    if name !in links {
      assert links - {name} == links;
    }
    var put := Put(net, ns, name, link);
    assert put.pods[ns := links - {name}] == net.pods[ns := links - {name}];
    assert net.pods[ns := links] == net.pods;
  }

  lemma PutTwice(net: NetState, ns: int, name: string, first: Link, second: Link)
    ensures Put(Put(net, ns, name, first), ns, name, second) == Put(net, ns, name, second)
  {
    var links := LinksOf(net, ns);
    assert links[name := first][name := second] == links[name := second];
    assert net.pods[ns := links[name := first]][ns := links[name := second]] == net.pods[ns := links[name := second]];
  }

  /** The address that configure() assigns; unlike validation it supplies no default prefix. */
  function Address(cfg: MacvlanConfig): Option<(IP, nat)> {
    if ParseCIDR(cfg.ip).Some? then Some((ParseCIDR(cfg.ip).value.0, ParseCIDR(cfg.ip).value.1.prefix)) else None
  }

  /** Carries its address and is up. */
  predicate Configured(link: Link, cfg: MacvlanConfig) {
    Address(cfg).Some? && Address(cfg).value in link.addrs && link.up
  }

  /**
   * The kernel's links. With `sureDelete`, deleting a link and what that needs never fails; with `obliging`, no call
   * fails for which the network itself gives no reason.
   */
  class Kernel {
    var net: NetState
    const sureDelete: bool
    const obliging: bool

    constructor (net: NetState, sureDelete: bool, obliging: bool)
      ensures this.net == net && this.sureDelete == sureDelete && this.obliging == obliging
    {
      this.net := net;
      this.sureDelete := sureDelete;
      this.obliging := obliging;
    }

    /** Any other call. */
    method Succeeds() returns (ok: bool)
      ensures obliging ==> ok
    {
      ok := true;
      if !obliging {
        ok := *;
      }
    }

    /** A handle bound to a pod's namespace. */
    method OpenHandle(ns: int) returns (ok: bool)
      ensures ok ==> ns in net.pods
      ensures obliging ==> ok == (ns in net.pods)
    {
      ok := Succeeds();
      ok := ok && ns in net.pods;
    }

    method LinkByName(ns: int, name: string) returns (ok: bool)
      ensures ok ==> name in LinksOf(net, ns)
      ensures obliging ==> ok == (name in LinksOf(net, ns))
    {
      ok := Succeeds();
      ok := ok && name in LinksOf(net, ns);
    }

    /** Removes a link of the host. */
    method HostLinkDel(name: string)
      requires name in net.host
      modifies this
      ensures net == old(net) || net == old(net).(host := old(net).host - {name})
      ensures sureDelete ==> name !in net.host
    {
      if !sureDelete {
        if * {
          return;
        }
      }
      net := net.(host := net.host - {name});
    }

    /** Removes a pod's link, if the handle, the lookup and the deletion succeed. */
    method PodLinkDel(ns: int, name: string)
      modifies this
      ensures net == old(net) || net == Drop(old(net), ns, name)
      ensures sureDelete ==> net == Drop(old(net), ns, name)
    {
      if !sureDelete {
        if * {
          return;
        }
      }
      net := Drop(net, ns, name);
    }

    /** Moves a link of the host into a pod, which the kernel refuses when the name is taken there. */
    method MoveLink(name: string, ns: int) returns (ok: bool)
      requires name in net.host
      modifies this
      ensures ok ==> ns in old(net).pods && name !in LinksOf(old(net), ns)
      ensures ok ==> net == Put(old(net).(host := old(net).host - {name}), ns, name, old(net).host[name])
      ensures !ok ==> net == old(net)
      ensures obliging && ns in old(net).pods && name !in LinksOf(old(net), ns) ==> ok
    {
      if ns !in net.pods || name in LinksOf(net, ns) {
        return false;
      }
      ok := Succeeds();
      if !ok {
        return;
      }
      net := Put(net.(host := net.host - {name}), ns, name, net.host[name]);
      return true;
    }
  }

  // ------------------------------------------------------------------
  // One macvlan
  // ------------------------------------------------------------------

  function TargetOf(pid: int, self: nat): int {
    if pid == 0 then self else pid
  }

  /**
   * Nothing stands in the way of setting the config up: the process exists, the address has a written prefix, the
   * gateway is an address, and the name is free on the host unless the link is already in place.
   */
  predicate Feasible(net: NetState, cfg: MacvlanConfig, pid: int, self: nat) {
    var ns := TargetOf(pid, self);
    && pid >= 0 && ns in net.pods && Address(cfg).Some? && (cfg.gateway.Some? ==> cfg.gateway.value.Plain?)
    && (cfg.name in LinksOf(net, ns) || cfg.name !in net.host)
  }

  class MACVLAN {
    const kernel: Kernel
    const cfg: MacvlanConfig
    const pid: int
    /** The process whose namespace pid 0 stands for. */
    const self: nat
    var created: bool

    constructor (kernel: Kernel, cfg: MacvlanConfig, pid: int, self: nat)
      ensures this.kernel == kernel && this.cfg == cfg && this.pid == pid && this.self == self && !created
    {
      this.kernel := kernel;
      this.cfg := cfg;
      this.pid := pid;
      this.self := self;
      created := false;
    }

    function Target(): int {
      TargetOf(pid, self)
    }

    method LinkExists() returns (present: bool)
      ensures present ==> Target() in kernel.net.pods && cfg.name in LinksOf(kernel.net, Target())
      ensures kernel.obliging ==> present == (cfg.name in LinksOf(kernel.net, Target()))
    {
      present := kernel.OpenHandle(Target());
      if present {
        present := kernel.LinkByName(Target(), cfg.name);
      }
    }

    /** Old addresses go, as far as that works; then the address is added and the link brought up. */
    method Configure() returns (ok: bool)
      modifies kernel
      ensures ok ==> Target() in old(kernel.net).pods && cfg.name in LinksOf(old(kernel.net), Target())
      ensures ok ==>
                cfg.name in LinksOf(kernel.net, Target()) && Configured(LinksOf(kernel.net, Target())[cfg.name], cfg)
      ensures (!ok && kernel.net == old(kernel.net))
              || (cfg.name in LinksOf(old(kernel.net), Target()) && cfg.name in LinksOf(kernel.net, Target())
                  && kernel.net == Put(old(kernel.net), Target(), cfg.name, LinksOf(kernel.net, Target())[cfg.name]))
      ensures ok ==> Address(cfg).Some? && (cfg.gateway.Some? ==> cfg.gateway.value.Plain?)
      ensures ok && kernel.obliging ==> LinksOf(kernel.net, Target())[cfg.name].addrs == {Address(cfg).value}
      ensures kernel.obliging && !ok && cfg.name in LinksOf(old(kernel.net), Target()) ==>
                Address(cfg).None? || (cfg.gateway.Some? && !cfg.gateway.value.Plain?)
    {
      var ns, name := Target(), cfg.name;
      ok := LinkExists();
      if !ok {
        return;
      }
      var link := LinksOf(kernel.net, ns)[name];
      var kept: set<(IP, nat)> := {};
      if !kernel.obliging {
        kept := *;
      }
      link := link.(addrs := link.addrs * kept);
      var parsed := ParseCIDR(cfg.ip);
      ok := parsed.Some?;
      if ok {
        var addr := (parsed.value.0, parsed.value.1.prefix);
        if addr !in link.addrs {
          ok := kernel.Succeeds();
        }
        if ok {
          link := link.(addrs := link.addrs + {addr});
          ok := kernel.Succeeds();
          if ok {
            link := link.(up := true);
            if cfg.gateway.Some? {
              ok := kernel.Succeeds();
              ok := ok && cfg.gateway.value.Plain?;
            }
          }
        }
      }
      kernel.net := Put(kernel.net, ns, name, link);
    }

    method Destroy()
      modifies this, kernel
      ensures !created
      ensures kernel.net == old(kernel.net) || kernel.net == Drop(old(kernel.net), Target(), cfg.name)
      ensures old(created) && kernel.sureDelete ==> kernel.net == Drop(old(kernel.net), Target(), cfg.name)
    {
      if !created {
        return;
      }
      kernel.PodLinkDel(Target(), cfg.name);
      created := false;
    }

    /** Steps 1 and 2: a new link on the host, moved into the target. On failure nothing is left behind. */
    method AddAndMove() returns (ok: bool)
      modifies kernel
      ensures ok ==> Target() in old(kernel.net).pods && cfg.name !in LinksOf(old(kernel.net), Target())
      ensures ok ==> kernel.net == Put(old(kernel.net), Target(), cfg.name, Link({}, false))
      ensures !ok && kernel.sureDelete ==> kernel.net == old(kernel.net)
      ensures ok ==> cfg.name !in old(kernel.net).host
      ensures kernel.obliging && !ok && cfg.name !in LinksOf(old(kernel.net), Target()) ==>
                cfg.name in old(kernel.net).host || Target() !in old(kernel.net).pods
    {
      ghost var before := kernel.net;
      ok := kernel.Succeeds();
      if !ok || cfg.name in kernel.net.host {
        return false;
      }
      kernel.net := kernel.net.(host := kernel.net.host[cfg.name := Link({}, false)]);
      assert kernel.net.host - {cfg.name} == before.host;
      ok := kernel.Succeeds();
      if ok {
        ok := kernel.MoveLink(cfg.name, Target());
      }
      if !ok {
        kernel.HostLinkDel(cfg.name);
      }
    }

    /**
     * On success the link is in the target's namespace, configured, and nothing else has changed. A failure leaves
     * everything as it was, except that a link found in place and not configurable is gone. A config that is not
     * feasible never succeeds, and one that is only fails with the kernel.
     */
    method Create() returns (ok: bool)
      requires !created
      modifies this, kernel
      ensures created == ok
      ensures ok ==> Target() in old(kernel.net).pods && cfg.name in LinksOf(kernel.net, Target())
      ensures ok ==> Configured(LinksOf(kernel.net, Target())[cfg.name], cfg)
      ensures ok && kernel.obliging ==> LinksOf(kernel.net, Target())[cfg.name].addrs == {Address(cfg).value}
      ensures ok ==> kernel.net == Put(old(kernel.net), Target(), cfg.name, LinksOf(kernel.net, Target())[cfg.name])
      ensures !ok && kernel.sureDelete ==>
          kernel.net == old(kernel.net) || kernel.net == Drop(old(kernel.net), Target(), cfg.name)
      ensures pid < 0 ==> !ok && kernel.net == old(kernel.net)
      ensures ok ==> Feasible(old(kernel.net), cfg, pid, self)
      ensures kernel.obliging && Feasible(old(kernel.net), cfg, pid, self) ==> ok
    {
      if pid < 0 {
        return false;
      }
      ghost var before, ns := kernel.net, Target();
      var reuse := LinkExists();
      if !reuse {
        ok := AddAndMove();
        if !ok {
          return;
        }
      }
      ghost var placed := kernel.net;
      created := true;
      ok := Configure();
      if placed != before {
        PutTwice(before, ns, cfg.name, Link({}, false), LinksOf(kernel.net, ns)[cfg.name]);
      }
      if !ok {
        if kernel.net != before {
          DropAfterPut(before, ns, cfg.name, LinksOf(kernel.net, ns)[cfg.name]);
        }
        Destroy();
      }
    }
  }

  // ------------------------------------------------------------------
  // Setup
  // ------------------------------------------------------------------

  /** enrichForSetup: a completed copy that validates, or nothing. */
  function Ready(cfg: MacvlanConfig, host: Host): Option<MacvlanConfig> {
    var after := Enriched(cfg, host);
    if Validate(after) == Valid then Some(after) else None
  }

  /** How the configs looked at came out, the i-th completed from what the host shows at that moment. */
  ghost predicate Completed(cfgs: seq<MacvlanConfig>, hosts: nat -> Host, outcomes: seq<Option<MacvlanConfig>>) {
    |outcomes| <= |cfgs| && forall i :: 0 <= i < |outcomes| ==> outcomes[i] == Ready(cfgs[i], hosts(i))
  }

  lemma CompletedNext(cfgs: seq<MacvlanConfig>, hosts: nat -> Host, outcomes: seq<Option<MacvlanConfig>>,
                      last: Option<MacvlanConfig>)
    requires Completed(cfgs, hosts, outcomes) && |outcomes| < |cfgs|
    requires last == Ready(cfgs[|outcomes|], hosts(|outcomes|))
    ensures Completed(cfgs, hosts, outcomes + [last])
  {
  }

  /** The configs that could be completed, in order. */
  function AllReady(outcomes: seq<Option<MacvlanConfig>>): seq<MacvlanConfig> {
    if outcomes == [] then []
    else
      var n := |outcomes| - 1;
      AllReady(outcomes[..n]) + if outcomes[n].Some? then [outcomes[n].value] else []
  }

  lemma AllReadyNext(outcomes: seq<Option<MacvlanConfig>>, last: Option<MacvlanConfig>)
    ensures AllReady(outcomes + [last]) == if last.Some? then AllReady(outcomes) + [last.value] else AllReady(outcomes)
  {
    assert (outcomes + [last])[..|outcomes|] == outcomes;
  }

  function Names(cfgs: seq<MacvlanConfig>): (names: seq<string>)
    ensures |names| == |cfgs|
  {
    seq(|cfgs|, i requires 0 <= i < |cfgs| => cfgs[i].name)
  }

  /** The caller as its connection shows it. */
  datatype Caller = Unidentified | Uninspectable | OnHostNetwork | InPod(pid: int)

  datatype Reply = Refused | Skipped(names: seq<string>) | Failed | Crashed | Created(names: seq<string>)

  /** Nothing but pod `ns` differs, and there only links named in `names`. */
  ghost predicate OnlyTouches(before: NetState, after: NetState, ns: int, names: seq<string>) {
    && after.host == before.host && after.pods.Keys == before.pods.Keys
    && (forall p :: p != ns ==> LinksOf(after, p) == LinksOf(before, p))
    && (forall n :: n !in names ==> SameAt(LinksOf(before, ns), LinksOf(after, ns), n))
  }

  ghost predicate SameAt(a: Links, b: Links, name: string) {
    (name in a <==> name in b) && (name in a ==> a[name] == b[name])
  }

  /** Each config's link is there and up, with the address of the last config of that name. */
  ghost predicate AllPresent(links: Links, ready: seq<MacvlanConfig>) {
    forall i :: 0 <= i < |ready| ==>
                  && ready[i].name in links && links[ready[i].name].up && Address(ready[i]).Some?
                  && ((forall j :: i < j < |ready| ==> ready[j].name != ready[i].name) ==>
                      Configured(links[ready[i].name], ready[i]))
  }

  lemma PresentAfterPut(links: Links, ready: seq<MacvlanConfig>, cfg: MacvlanConfig, link: Link)
    requires AllPresent(links, ready) && Configured(link, cfg)
    ensures AllPresent(links[cfg.name := link], ready + [cfg])
  {
    var all := ready + [cfg];
    forall i | 0 <= i < |all|
      ensures all[i].name in links[cfg.name := link] && links[cfg.name := link][all[i].name].up && Address(all[i]).Some?
      ensures (forall j :: i < j < |all| ==> all[j].name != all[i].name) ==>
          Configured(links[cfg.name := link][all[i].name], all[i])
    {
      if i < |ready| {
        assert all[i] == ready[i];
        assert forall j :: i < j < |ready| ==> all[j] == ready[j];
        assert all[|ready|] == cfg;
      }
    }
  }

  lemma TouchesPut(before: NetState, net: NetState, ns: int, names: seq<string>, name: string, link: Link)
    requires OnlyTouches(before, net, ns, names) && ns in net.pods
    ensures OnlyTouches(before, Put(net, ns, name, link), ns, names + [name])
  {
    var after := Put(net, ns, name, link);
    forall n | n !in names + [name]
      ensures SameAt(LinksOf(before, ns), LinksOf(after, ns), n)
    {
      assert name in names + [name];
      assert n !in names;
    }
  }


  /** Exactly the links named in `names` are gone from pod `ns`. */
  ghost predicate Removed(before: NetState, after: NetState, ns: int, names: seq<string>) {
    && OnlyTouches(before, after, ns, names)
    && (forall n :: n in names ==> n !in LinksOf(after, ns))
  }

  lemma RemovedNext(before: NetState, net: NetState, ns: int, names: seq<string>, name: string)
    requires Removed(before, net, ns, names)
    ensures Removed(before, Drop(net, ns, name), ns, names + [name])
  {
    var after := Drop(net, ns, name);
    forall n | n !in names + [name]
      ensures SameAt(LinksOf(before, ns), LinksOf(after, ns), n)
    {
      assert name in names + [name];
      assert n !in names;
    }
    forall n | n in names + [name]
      ensures n !in LinksOf(after, ns)
    {
      assert n in names || n == name;
    }
  }

  /** The macvlans of one call, all set up, one for each config. */
  ghost predicate AllCreated(mvs: seq<MACVLAN>, kernel: Kernel, ready: seq<MacvlanConfig>, pid: int, self: nat)
    reads mvs
  {
    && |mvs| == |ready|
    && (forall i :: 0 <= i < |mvs| ==>
        mvs[i].kernel == kernel && mvs[i].cfg == ready[i] && mvs[i].pid == pid && mvs[i].self == self)
    && (forall i :: 0 <= i < |mvs| ==> mvs[i].created)
    && (forall i, j :: 0 <= i < j < |mvs| ==> mvs[i] != mvs[j])
  }

  lemma NamesSnoc(ready: seq<MacvlanConfig>, cfg: MacvlanConfig)
    ensures Names(ready + [cfg]) == Names(ready) + [cfg.name]
  {
  }

  /** Destroys every macvlan of a call. */
  method RollBack(kernel: Kernel, mvs: seq<MACVLAN>, ghost ready: seq<MacvlanConfig>, ghost pid: int, ghost self: nat)
    requires AllCreated(mvs, kernel, ready, pid, self)
    modifies kernel, mvs
    ensures kernel.sureDelete ==> Removed(old(kernel.net), kernel.net, TargetOf(pid, self), Names(ready))
  {
    ghost var before, ns := kernel.net, TargetOf(pid, self);
    for i := 0 to |mvs|
      invariant forall j :: i <= j < |mvs| ==> mvs[j].created
      invariant kernel.sureDelete ==> Removed(before, kernel.net, ns, Names(ready[..i]))
    {
      ghost var now := kernel.net;
      mvs[i].Destroy();
      if kernel.sureDelete {
        RemovedNext(before, now, ns, Names(ready[..i]), ready[i].name);
        NamesSnoc(ready[..i], ready[i]);
        assert ready[..i] + [ready[i]] == ready[..i + 1];
      }
    }
    assert ready[..|ready|] == ready;
  }

  /**
   * A call that failed at its last config: the pod has no link it did not have before, none of the macvlans set up by
   * the call is left, other links are untouched, and so is everything outside the pod.
   */
  ghost predicate RolledBack(before: NetState, after: NetState, ns: int, handled: seq<MacvlanConfig>) {
    && handled != []
    && OnlyTouches(before, after, ns, Names(handled))
    && (forall i :: 0 <= i < |handled| - 1 ==> handled[i].name !in LinksOf(after, ns))
    && (forall n :: n in LinksOf(after, ns) ==> SameAt(LinksOf(before, ns), LinksOf(after, ns), n))
  }

  /** The state `failed` left by the failing Create, then the rollback. */
  lemma FailureRollsBack(before: NetState, net: NetState, failed: NetState, after: NetState, ns: int,
                         ready: seq<MacvlanConfig>, last: MacvlanConfig)
    requires OnlyTouches(before, net, ns, Names(ready))
    requires failed == net || failed == Drop(net, ns, last.name)
    requires Removed(failed, after, ns, Names(ready))
    ensures RolledBack(before, after, ns, ready + [last])
  {
    NamesSnoc(ready, last);
    forall n | n in LinksOf(after, ns)
      ensures SameAt(LinksOf(before, ns), LinksOf(after, ns), n)
    {
      assert n !in Names(ready);
      assert SameAt(LinksOf(before, ns), LinksOf(net, ns), n);
      assert SameAt(LinksOf(failed, ns), LinksOf(after, ns), n);
    }
    forall n | n !in Names(ready) + [last.name]
      ensures SameAt(LinksOf(before, ns), LinksOf(after, ns), n)
    {
      assert n !in Names(ready) && n != last.name;
      assert SameAt(LinksOf(before, ns), LinksOf(net, ns), n);
      assert SameAt(LinksOf(failed, ns), LinksOf(after, ns), n);
    }
    forall i | 0 <= i < |ready|
      ensures ready[i].name !in LinksOf(after, ns)
    {
      assert Names(ready)[i] in Names(ready);
    }
  }

  /** Where a call stands after its first `n` configs. */
  ghost predicate Progress(before: NetState, net: NetState, ns: int, ready: seq<MacvlanConfig>) {
    OnlyTouches(before, net, ns, Names(ready)) && AllPresent(LinksOf(net, ns), ready)
  }

  lemma ProgressNext(before: NetState, net: NetState, after: NetState, ns: int, ready: seq<MacvlanConfig>,
                     cfg: MacvlanConfig)
    requires Progress(before, net, ns, ready) && ns in net.pods
    requires cfg.name in LinksOf(after, ns) && Configured(LinksOf(after, ns)[cfg.name], cfg)
    requires after == Put(net, ns, cfg.name, LinksOf(after, ns)[cfg.name])
    ensures Progress(before, after, ns, ready + [cfg])
  {
    NamesSnoc(ready, cfg);
    TouchesPut(before, net, ns, Names(ready), cfg.name, LinksOf(after, ns)[cfg.name]);
    PresentAfterPut(LinksOf(net, ns), ready, cfg, LinksOf(after, ns)[cfg.name]);
  }

  /** Setting up some configs neither makes another one feasible nor keeps it from being so. */
  lemma StaysFeasible(before: NetState, net: NetState, ready: seq<MacvlanConfig>, cfg: MacvlanConfig, pid: int,
                      self: nat)
    requires Progress(before, net, TargetOf(pid, self), ready)
    requires forall r :: r in ready ==> Feasible(before, r, pid, self)
    ensures Feasible(net, cfg, pid, self) <==> Feasible(before, cfg, pid, self)
  {
    var ns := TargetOf(pid, self);
    if cfg.name in Names(ready) {
      var i :| 0 <= i < |ready| && Names(ready)[i] == cfg.name;
      assert ready[i] in ready && ready[i].name == cfg.name && ready[i].name in LinksOf(net, ns);
    } else {
      assert SameAt(LinksOf(before, ns), LinksOf(net, ns), cfg.name);
    }
  }

  /** What a reply says about the network before and after, `ready` being the completed configs that were looked at. */
  ghost predicate ReplyMeans(reply: Reply, before: NetState, after: NetState, ns: int, ready: seq<MacvlanConfig>,
                             sureDelete: bool) {
    && (reply.Created? ==> reply.names == Names(ready) && Progress(before, after, ns, ready))
    && (reply.Failed? && sureDelete ==> RolledBack(before, after, ns, ready))
    && (reply.Crashed? ==> Progress(before, after, ns, ready))
    && (reply.Refused? || reply.Skipped? ==> after == before)
  }

  /**
   * Validation supplies /24 to an address without prefix, configure() does not: of the configs that validate, exactly
   * those with a written prefix can be configured.
   */
  lemma ConfigurableIff(cfg: MacvlanConfig)
    requires Validate(cfg) == Valid
    ensures Address(cfg).Some? <==> cfg.ip.Cidr?
  {
  }

  /** A Created reply means that every completed config was written with its prefix. */
  lemma CreatedMeansWritten(names: seq<string>, before: NetState, after: NetState, ns: int, ready: seq<MacvlanConfig>,
                            sureDelete: bool)
    requires ReplyMeans(Created(names), before, after, ns, ready, sureDelete)
    ensures forall cfg :: cfg in ready ==> cfg.ip.Cidr?
  {
    forall cfg | cfg in ready
      ensures cfg.ip.Cidr?
    {
      var i :| 0 <= i < |ready| && ready[i] == cfg;
      assert Address(ready[i]).Some?;
    }
  }

  /**
   * A config still lacks its prefix when it is completed exactly if it was stored so with other than a network's
   * address.
   */
  lemma ReadyIsPlainIff(cfg: MacvlanConfig, host: Host)
    requires Ready(cfg, host).Some?
    ensures Ready(cfg, host).value.ip.Plain? <==> cfg.ip.Plain? && cfg.ip.ip.d != 0
  {
    if cfg.ip.Plain? {
      assert Pow2(8) == 256;
      ClearedAll(cfg.ip.ip.d, 8);
      assert Masked(cfg.ip.ip, 24) == cfg.ip.ip.(d := 0);
    }
  }

  lemma {:induction false} ReadyIsListed(outcomes: seq<Option<MacvlanConfig>>, i: nat)
    requires i < |outcomes| && outcomes[i].Some?
    ensures outcomes[i].value in AllReady(outcomes)
  {
    var n := |outcomes| - 1;
    if i < n {
      ReadyIsListed(outcomes[..n], i);
      assert outcomes[..n][i] == outcomes[i];
    }
  }

  /**
   * Whatever else a call is given: a stored address without prefix that gets as far as being created fails the call.
   */
  lemma PlainAddressFailsSetup(cfgs: seq<MacvlanConfig>, hosts: nat -> Host, outcomes: seq<Option<MacvlanConfig>>,
                               i: nat, names: seq<string>, before: NetState, after: NetState, ns: int, sureDelete: bool)
    requires Completed(cfgs, hosts, outcomes) && i < |outcomes| && outcomes[i].Some?
    requires cfgs[i].ip.Plain? && cfgs[i].ip.ip.d != 0
    ensures !ReplyMeans(Created(names), before, after, ns, AllReady(outcomes), sureDelete)
  {
    ReadyIsListed(outcomes, i);
    ReadyIsPlainIff(cfgs[i], hosts(i));
    if ReplyMeans(Created(names), before, after, ns, AllReady(outcomes), sureDelete) {
      CreatedMeansWritten(names, before, after, ns, AllReady(outcomes), sureDelete);
    }
  }

  /** 10.0.0.5 on eth0 is such an address: it validates as it stands. */
  lemma PlainAddressValidates(host: Host)
    ensures var cfg := MacvlanConfig("eth0", "macvlan0", Plain(IP(10, 0, 0, 5)), None);
            Ready(cfg, host) == Some(cfg) && Address(cfg).None?
  {
    var cfg := MacvlanConfig("eth0", "macvlan0", Plain(IP(10, 0, 0, 5)), None);
    ConcreteStays(cfg, host);
  }

  class DeviceServer {
    const cfgs: seq<MacvlanConfig>
    const kernel: Kernel
    const self: nat

    constructor (cfgs: seq<MacvlanConfig>, kernel: Kernel, self: nat)
      ensures this.cfgs == cfgs && this.kernel == kernel && this.self == self
    {
      this.cfgs := cfgs;
      this.kernel := kernel;
      this.self := self;
    }

    /** The stored config is copied first and never changes. */
    method EnrichForSetup(cfg: MacvlanConfig, host: Host) returns (r: Option<MacvlanConfig>, crashed: bool)
      ensures crashed == Panicking(cfg, host)
      ensures !crashed ==> r == Ready(cfg, host)
    {
      var copied := new ConfigCell(cfg);
      crashed := copied.EnrichMACVLANConfig(host);
      r := if Validate(copied.cfg) == Valid then Some(copied.cfg) else None;
    }

    /** Creates one more macvlan, or destroys those of the call so far. */
    method CreateOrRollBack(cfg: MacvlanConfig, pid: int, mvs: seq<MACVLAN>, ghost before: NetState,
                            ghost ready: seq<MacvlanConfig>)
      returns (all: seq<MACVLAN>, ok: bool)
      requires AllCreated(mvs, kernel, ready, pid, self)
      requires Progress(before, kernel.net, TargetOf(pid, self), ready)
      requires forall r :: r in ready ==> Feasible(before, r, pid, self)
      modifies kernel, mvs
      ensures |all| == |mvs| + 1 && fresh(all[|mvs|]) && all == mvs + [all[|mvs|]]
      ensures ok ==> AllCreated(all, kernel, ready + [cfg], pid, self)
      ensures ok ==> Progress(before, kernel.net, TargetOf(pid, self), ready + [cfg])
      ensures !ok && kernel.sureDelete ==> RolledBack(before, kernel.net, TargetOf(pid, self), ready + [cfg])
      ensures ok ==> Feasible(before, cfg, pid, self)
      ensures kernel.obliging && Feasible(before, cfg, pid, self) ==> ok
    {
      StaysFeasible(before, kernel.net, ready, cfg, pid, self);
      ghost var ns, now := TargetOf(pid, self), kernel.net;
      var mv := new MACVLAN(kernel, cfg, pid, self);
      ok := mv.Create();
      all := mvs + [mv];
      if ok {
        ProgressNext(before, now, kernel.net, ns, ready, cfg);
      } else {
        ghost var failed := kernel.net;
        RollBack(kernel, mvs, ready, pid, self);
        if kernel.sureDelete {
          FailureRollsBack(before, now, failed, kernel.net, ns, ready, cfg);
        }
      }
    }

    /** The completed copy of the next config. */
    method CompleteNext(hosts: nat -> Host, i: nat, ghost outcomes: seq<Option<MacvlanConfig>>)
      returns (cfg: Option<MacvlanConfig>, crashed: bool)
      requires i == |outcomes| < |cfgs| && Completed(cfgs, hosts, outcomes)
      ensures crashed == Panicking(cfgs[i], hosts(i))
      ensures !crashed ==> Completed(cfgs, hosts, outcomes + [cfg])
      ensures AllReady(outcomes + [cfg]) == if cfg.Some? then AllReady(outcomes) + [cfg.value] else AllReady(outcomes)
    {
      cfg, crashed := EnrichForSetup(cfgs[i], hosts(i));
      if !crashed {
        CompletedNext(cfgs, hosts, outcomes, cfg);
      }
      AllReadyNext(outcomes, cfg);
    }

    /** The locked part, for a caller with its own network. */
    method SetupPod(pid: int, hosts: nat -> Host) returns (reply: Reply, ghost outcomes: seq<Option<MacvlanConfig>>)
      modifies kernel
      ensures Completed(cfgs, hosts, outcomes) && !reply.Refused? && !reply.Skipped?
      ensures reply.Created? ==> |outcomes| == |cfgs| && forall cfg :: cfg in AllReady(outcomes) ==> cfg.ip.Cidr?
      ensures reply.Crashed? ==> |outcomes| < |cfgs| && Panicking(cfgs[|outcomes|], hosts(|outcomes|))
      ensures ReplyMeans(reply, old(kernel.net), kernel.net, TargetOf(pid, self), AllReady(outcomes), kernel.sureDelete)
      ensures reply.Created? ==> forall cfg :: cfg in AllReady(outcomes) ==> Feasible(old(kernel.net), cfg, pid, self)
      ensures kernel.obliging && reply.Failed? ==>
                exists cfg :: cfg in AllReady(outcomes) && !Feasible(old(kernel.net), cfg, pid, self)
    {
      ghost var before, ns := kernel.net, TargetOf(pid, self);
      outcomes := [];
      ghost var ready: seq<MacvlanConfig> := [];
      var created: seq<string> := [];
      var mvs: seq<MACVLAN> := [];
      for i := 0 to |cfgs|
        invariant |outcomes| == i && Completed(cfgs, hosts, outcomes)
        invariant ready == AllReady(outcomes) && created == Names(ready)
        invariant fresh(mvs) && AllCreated(mvs, kernel, ready, pid, self)
        invariant Progress(before, kernel.net, ns, ready)
        invariant forall cfg :: cfg in ready ==> Feasible(before, cfg, pid, self)
      {
        var cfg, crashed := CompleteNext(hosts, i, outcomes);
        if crashed {
          return Crashed, outcomes;
        }
        outcomes := outcomes + [cfg];
        if cfg.None? {
          continue;
        }
        NamesSnoc(ready, cfg.value);
        var all, ok := CreateOrRollBack(cfg.value, pid, mvs, before, ready);
        ready := ready + [cfg.value];
        if !ok {
          assert cfg.value in ready;
          return Failed, outcomes;
        }
        mvs := all;
        created := created + [cfg.value.name];
      }
      CreatedMeansWritten(created, before, kernel.net, ns, ready, kernel.sureDelete);
      return Created(created), outcomes;
    }

    method Setup(caller: Caller, hosts: nat -> Host) returns (reply: Reply, ghost outcomes: seq<Option<MacvlanConfig>>)
      modifies kernel
      ensures reply.Refused? <==> caller.Unidentified? || caller.Uninspectable?
      ensures caller.OnHostNetwork? ==> reply == Skipped(Names(cfgs))
      ensures caller.InPod? ==> reply.Created? || reply.Failed? || reply.Crashed?
      ensures Completed(cfgs, hosts, outcomes)
      ensures reply.Created? ==> |outcomes| == |cfgs| && forall cfg :: cfg in AllReady(outcomes) ==> cfg.ip.Cidr?
      ensures reply.Crashed? ==> |outcomes| < |cfgs| && Panicking(cfgs[|outcomes|], hosts(|outcomes|))
      ensures var ns := if caller.InPod? then TargetOf(caller.pid, self) else 0;
              ReplyMeans(reply, old(kernel.net), kernel.net, ns, AllReady(outcomes), kernel.sureDelete)
      ensures caller.InPod? && reply.Created? ==>
                forall cfg :: cfg in AllReady(outcomes) ==> Feasible(old(kernel.net), cfg, caller.pid, self)
      ensures caller.InPod? && kernel.obliging && reply.Failed? ==>
                exists cfg :: cfg in AllReady(outcomes) && !Feasible(old(kernel.net), cfg, caller.pid, self)
    {
      match caller {
        case Unidentified =>
          return Refused, [];
        case Uninspectable =>
          return Refused, [];
        case OnHostNetwork =>
          return Skipped(Names(cfgs)), [];
        case InPod(pid) =>
          reply, outcomes := SetupPod(pid, hosts);
      }
    }
  }
}
