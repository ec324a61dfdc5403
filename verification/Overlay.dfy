/**
 The overlay functions, as they run: each command goes to the hub or to a node over SSH and may fail. A failed command
 that is checked ends the function.
 */
module Overlay {
  import opened Ipv4
  import opened OverlayHub
  import opened OverlayRetire
  import opened OverlayRoutes
  import opened Plans
  import opened Text
  import opened WgConf
  import opened Wrappers
  import LivePeers

  datatype Allocation = Got(ip: string) | Exhausted | Failed

  /** The sites other than the excluded one. */
  function SitesExcept(sites: seq<Line>, exclude: Option<string>): seq<Line> {
    if sites == [] then []
    else
      var n := |sites| - 1;
      SitesExcept(sites[..n], exclude)
      + if |sites[n]| == 2 && exclude != Some(sites[n][0]) then [sites[n]] else []
  }

  lemma {:induction false} NoneExcepted(sites: seq<Line>)
    requires forall i :: 0 <= i < |sites| ==> |sites[i]| == 2
    ensures SitesExcept(sites, None) == sites
  {
    if sites != [] {
      var n := |sites| - 1;
      NoneExcepted(sites[..n]);
      LastAgain(sites);
    }
  }

  lemma LastAgain<T>(s: seq<T>)
    requires s != []
    ensures s[..|s| - 1] + [s[|s| - 1]] == s
  {
  }

  lemma AllSitesListed(sites: seq<Line>)
    requires SitesOk(sites)
    ensures SitesExcept(sites, None) == sites
  {
    FieldsMeans(sites, 2, 2);
    forall i | 0 <= i < |sites| ensures |sites[i]| == 2 { assert sites[i] in sites; }
    NoneExcepted(sites);
  }

  lemma UsedMore(net: Network, alloc: seq<Line>, i: nat)
    requires i < |alloc|
    ensures UsedIps(net, alloc[..i + 1]) == UsedIps(net, alloc[..i]) + if |alloc[i]| == 2 then {alloc[i][1]} else {}
  {
    var a, b := alloc[..i], alloc[..i + 1];
    assert forall k :: 0 <= k < i ==> b[k] == a[k];
    assert b[i] == alloc[i];
  }

  /** The lines of the allocation file: the addresses in use, and the name's own, if any. */
  method ReadAllocations(net: Network, lines: seq<Line>, name: string)
    returns (used: set<string>, known: Option<string>)
    ensures used == UsedIps(net, lines) && known == LookupLast(lines, name)
  {
    used := {ShowAddress(HubAddress(net))};
    var byName: map<string, string> := map[];
    for i := 0 to |lines|
      invariant used == UsedIps(net, lines[..i])
      invariant LookupLast(lines[..i], name) == if name in byName then Some(byName[name]) else None
    {
      assert lines[..i + 1][..i] == lines[..i];
      UsedMore(net, lines, i);
      if |lines[i]| == 2 {
        byName := byName[lines[i][0] := lines[i][1]];
        used := used + {lines[i][1]};
      }
    }
    assert lines[..|lines|] == lines;
    known := if name in byName then Some(byName[name]) else None;
  }

  method FirstUnused(hosts: seq<nat>, used: set<string>) returns (r: Option<string>)
    ensures r == FirstFree(hosts, used)
  {
    for i := 0 to |hosts|
      invariant FirstFree(hosts, used) == FirstFree(hosts[i..], used)
    {
      if ShowAddress(hosts[i]) !in used { return Some(ShowAddress(hosts[i])); }
    }
    r := None;
  }

  method PickNodes(lines: seq<Line>, only: Option<string>) returns (out: seq<Line>)
    ensures out == NodesOf(lines, only)
  {
    out := [];
    for i := 0 to |lines|
      invariant out == NodesOf(lines[..i], only)
    {
      PickMore(lines, only, i);
      if |lines[i]| == 3 && (only == None || lines[i][0] == only.value) { out := out + [lines[i]]; }
    }
    assert lines[..|lines|] == lines;
  }

  lemma PickMore(lines: seq<Line>, only: Option<string>, i: nat)
    requires i < |lines|
    ensures NodesOf(lines[..i + 1], only) ==
            NodesOf(lines[..i], only)
            + if |lines[i]| == 3 && (only == None || lines[i][0] == only.value) then [lines[i]] else []
  {
    assert lines[..i + 1][..i] == lines[..i];
  }

  datatype Visit = Done | Away | Broken

  /** The hub and the nodes, as the functions reach them. */
  class Remote {
    const net: Network
    var alloc: seq<Line>
    var sites: seq<Line>
    var nodes: seq<Line>
    var dns: seq<Line>
    var conf: Lines
    var live: LivePeers.Live
    var routes: set<string>
    var scripts: Scripts

    constructor (net: Network)
      ensures this.net == net && State() == Hub([], [], [], [], [], map[], {}) && scripts == map[]
    {
      this.net := net;
      alloc, sites, nodes, dns, conf, live, routes := [], [], [], [], [], map[], {};
      scripts := map[];
    }

    function State(): Hub
      reads this
    {
      Hub(alloc, sites, nodes, dns, conf, live, routes)
    }

    /** One command on the hub: it takes effect as a whole or not at all. */
    method Send(c: Command) returns (ok: bool)
      modifies this`alloc, this`sites, this`nodes, this`dns, this`conf, this`live, this`routes
      ensures State() == if ok then Exec(old(State()), c) else old(State())
    {
      ok := *;
      if ok {
        match c {
          case AppendAlloc(line) => alloc := alloc + [line];
          case WriteSites(lines) => sites := lines;
          case WriteNodes(lines) => nodes := lines;
          case WriteDns(lines) => dns := lines;
          case WriteConf(text) => conf := text;
          case AppendConf(peer) => conf := Append(conf, peer);
          case WgSet(key, allowed) => live := LivePeers.Claim(live, key, allowed);
          case RouteReplace(cidr) => routes := routes + {cidr};
          case RouteDel(cidr) => routes := routes - {cidr};
          case RemovePeer(name) =>
            live := live - {KeyOf(conf, name)};
            conf := Remove(conf, name);
          case SedSites(name) => sites := SedDelete(sites, name);
          case SedAlloc(name) => alloc := SedDelete(alloc, name);
          case SedNodes(name) => nodes := SedDelete(nodes, name);
          case SedDns(name) => dns := SedDelete(dns, name);
        }
      }
    }

    /** The next command of a plan. */
    method Step(c: Command, ghost before: Hub, ghost plan: seq<Command>, ghost n: nat) returns (ok: bool)
      requires n < |plan| && plan[n] == c && State() == Run(Exec, before, plan[..n])
      modifies this`alloc, this`sites, this`nodes, this`dns, this`conf, this`live, this`routes
      ensures State() == Run(Exec, before, plan[..if ok then n + 1 else n])
    {
      RunMore(Exec, before, plan, n);
      ok := Send(c);
    }

    // ----- the registries -----

    /** _allocate_overlay_ip() */
    method AllocateIp(name: string) returns (r: Allocation)
      modifies this`alloc, this`sites, this`nodes, this`dns, this`conf, this`live, this`routes
      ensures r.Got? ==> AllocatedIp(net, old(alloc), name) == Some(r.ip)
                         && State() == Run(Exec, old(State()), AllocPlan(net, old(alloc), name))
      ensures r.Exhausted? ==> AllocatedIp(net, old(alloc), name) == None
      ensures !r.Got? ==> State() == old(State())
    {
      var read := *;
      if !read { return Failed; }
      var used, known := ReadAllocations(net, alloc, name);
      if known.Some? { return Got(known.value); }
      var free := FirstUnused(net.Hosts(), used);
      if free == None { return Exhausted; }
      var c := AppendAlloc(LineOf([name, free.value]));
      assert AllocPlan(net, alloc, name) == [c];
      assert [c][..0] == [] && [c][..1] == [c];
      var ok := Step(c, State(), [c], 0);
      r := if ok then Got(free.value) else Failed;
    }

    /** A read, or a query, that may not get through */
    method Asked() returns (ok: bool) {
      ok := *;
    }

    /** _register_site() */
    method RegisterSite(name: string, cidr: string) returns (ok: bool)
      modifies this`alloc, this`sites, this`nodes, this`dns, this`conf, this`live, this`routes
      ensures State() == Run(Exec, old(State()), SitePlan(old(State()), name, cidr)[..if ok then 1 else 0])
    {
      ok := Asked();
      if ok {
        ok := Step(WriteSites(Upsert(sites, 0, name, LineOf([name, cidr]))), State(), SitePlan(State(), name, cidr), 0);
      }
    }

    /** list_other_sites() */
    method ListOtherSites(exclude: Option<string>) returns (r: Option<seq<Line>>)
      ensures r.Some? ==> r.value == SitesExcept(sites, exclude)
    {
      var read := Asked();
      if !read { return None; }
      var lines := sites;
      var result := [];
      for i := 0 to |lines|
        invariant result == SitesExcept(lines[..i], exclude)
      {
        assert lines[..i + 1][..i] == lines[..i];
        if |lines[i]| == 2 && exclude != Some(lines[i][0]) { result := result + [lines[i]]; }
      }
      assert lines[..|lines|] == lines;
      r := Some(result);
    }

    /** add_peer_to_hub(): how many commands of its plan were sent, and whether the marker's query got through */
    method AddPeer(name: string, key: string, ip: string, cidr: string)
      returns (done: bool, ghost sent: nat, ghost asked: bool)
      modifies this`alloc, this`sites, this`nodes, this`dns, this`conf, this`live, this`routes
      ensures var plan := PeerPlan(old(State()), name, key, ip, cidr, asked);
              && sent <= |plan| && (done <==> sent == |plan|)
              && State() == Run(Exec, old(State()), plan[..sent])
    {
      ghost var before := State();
      var answered := Asked();
      var already := answered && FirstLine(conf, Marker(name)).Some?;
      asked := answered;
      ghost var plan := PeerPlan(before, name, key, ip, cidr, asked);
      sent := 0;
      if !already {
        var ok := Step(AppendConf(PeerOf(name, key, ip, cidr)), before, plan, 0);
        if !ok { return false, 0, asked; }
        sent := 1;
      }
      done, sent := SetLive(key, ip, cidr, before, plan, sent);
    }

    /** The end of add_peer_to_hub(): the peer is set live and its addresses are routed. */
    method SetLive(key: string, ip: string, cidr: string, ghost before: Hub, ghost plan: seq<Command>, ghost from: nat)
      returns (done: bool, ghost sent: nat)
      requires from <= |plan| && plan[from..] == SetPlan(key, ip, cidr) && State() == Run(Exec, before, plan[..from])
      modifies this`alloc, this`sites, this`nodes, this`dns, this`conf, this`live, this`routes
      ensures sent <= |plan| && (done <==> sent == |plan|) && State() == Run(Exec, before, plan[..sent])
    {
      sent := from;
      var ok := Step(WgSet(key, {ip + "/32", cidr}), before, plan, sent);
      if !ok { return false, sent; }
      sent := sent + 1;
      var cidrs := [ip + "/32", cidr];
      for i := 0 to |cidrs|
        invariant sent == from + 1 + i && State() == Run(Exec, before, plan[..sent])
      {
        assert plan[sent] == plan[from..][1 + i];
        ok := Step(RouteReplace(cidrs[i]), before, plan, sent);
        if !ok { return false, sent; }
        sent := sent + 1;
      }
      done := true;
    }

    /** The site's address and its line in the registry. */
    method Announce(name: string, cidr: string) returns (ip: Option<string>, ghost sent: nat)
      modifies this`alloc, this`sites, this`nodes, this`dns, this`conf, this`live, this`routes
      ensures AllocatedIp(net, old(alloc), name) == None ==> ip == None && State() == old(State())
      ensures AllocatedIp(net, old(alloc), name).Some? ==>
                var plan := AllocPlan(net, old(alloc), name) + SitePlan(old(State()), name, cidr);
                && sent <= |plan| && State() == Run(Exec, old(State()), plan[..sent])
                && (ip.Some? ==> sent == |plan| && ip == AllocatedIp(net, old(alloc), name))
      ensures conf == old(conf)
    {
      ghost var before := State();
      sent := 0;
      var allocation := AllocateIp(name);
      if !allocation.Got? { return None, 0; }
      AllocLeaves(net, before, name);
      ghost var first, second := AllocPlan(net, before.alloc, name), SitePlan(before, name, cidr);
      ghost var h1 := State();
      var registered := RegisterSite(name, cidr);
      sent := |first| + if registered then 1 else 0;
      SiteLeaves(h1, name, cidr);
      RunInto(Exec, before, first, second, if registered then 1 else 0);
      ip := if registered then Some(allocation.ip) else None;
    }

    /** The last part of a join, after the address and the site are on the hub. */
    method Enter(ghost before: Hub, name: string, cidr: string, key: string, ip: string, ghost sent: nat)
      returns (done: bool, ghost total: nat, ghost asked: bool)
      requires AllocatedIp(net, before.alloc, name) == Some(ip) && conf == before.conf
      requires var both := AllocPlan(net, before.alloc, name) + SitePlan(before, name, cidr);
               sent == |both| && State() == Run(Exec, before, both[..sent])
      modifies this`alloc, this`sites, this`nodes, this`dns, this`conf, this`live, this`routes
      ensures Sent(net, before, State(), name, cidr, key, asked, total, done)
    {
      ghost var h2 := State();
      ghost var more;
      done, more, asked := AddPeer(name, key, ip, cidr);
      StoppedAfter(net, before, h2, State(), name, cidr, key, asked, more, done);
      total := sent + more;
    }

    /**
     ensure_overlay_site_gateway(): the commands on the gateway itself may fail like any other. The overlay address,
     once the gateway has joined.
     */
    method Join(name: string, cidr: string, key: string)
      returns (ip: Option<string>, ghost sent: nat, ghost asked: bool)
      modifies this`alloc, this`sites, this`nodes, this`dns, this`conf, this`live, this`routes
      ensures Sent(net, old(State()), State(), name, cidr, key, asked, sent, ip.Some?)
      ensures ip.Some? ==> ip == AllocatedIp(net, old(alloc), name)
    {
      ghost var before := State();
      sent, asked := 0, true;
      NothingSent(net, before, name, cidr, key);
      var installed := Asked();
      if !installed { return None, 0, true; }
      var address;
      address, sent := Announce(name, cidr);
      ghost var h2 := State();
      StoppedBefore(net, before, h2, name, cidr, key, sent);
      if address == None { return None, sent, true; }
      var others := ListOtherSites(Some(name));
      var up := Asked();
      if others == None || !up { return None, sent, true; }
      var done;
      done, sent, asked := Enter(before, name, cidr, key, address.value, sent);
      ip := if done then address else None;
    }

    /** register_node() */
    method RegisterNode(site: string, host: string, gateway: string) returns (ok: bool)
      modifies this`alloc, this`sites, this`nodes, this`dns, this`conf, this`live, this`routes
      ensures State() == Run(Exec, old(State()), NodePlan(old(State()), site, host, gateway)[..if ok then 1 else 0])
    {
      ok := Asked();
      if ok {
        ok := Step(WriteNodes(UpsertTidy(nodes, 1, host, LineOf([site, host, gateway]))), State(),
          NodePlan(State(), site, host, gateway), 0);
      }
    }

    /** register_dns_server() */
    method RegisterDns(site: string, ip: string, domain: string) returns (ok: bool)
      modifies this`alloc, this`sites, this`nodes, this`dns, this`conf, this`live, this`routes
      ensures State() == Run(Exec, old(State()), DnsPlan(old(State()), site, ip, domain)[..if ok then 1 else 0])
    {
      ok := Asked();
      if ok {
        ok := Step(WriteDns(UpsertTidy(dns, 0, site, DnsLine(site, ip, domain))), State(),
          DnsPlan(State(), site, ip, domain), 0);
      }
    }

    /** forget_node() */
    method ForgetNode(host: string) returns (ghost done: bool)
      modifies this`nodes
      ensures State() == if done then old(State()).(nodes := Forgotten(old(nodes), host)) else old(State())
    {
      var ok := Asked();
      done := ok;
      if ok { nodes := Forgotten(nodes, host); }
    }

    /**
     ensure_overlay_hub_ready(): wg0.conf is written when the test for it says that it is not there, and the hub's own
     site is registered when it is given.
     */
    method HubReady(header: Lines, name: string, cidr: string) returns (ok: bool, ghost sent: nat, ghost asked: bool)
      modifies this`alloc, this`sites, this`nodes, this`dns, this`conf, this`live, this`routes
      ensures var plan := ReadyPlan(old(State()), header, asked, name, cidr);
              && sent <= |plan| && (ok ==> sent == |plan|)
              && State() == Run(Exec, old(State()), plan[..sent])
    {
      ghost var before := State();
      sent, asked := 0, true;
      var installed := Asked();
      if !installed { return false, 0, true; }
      var answered := Asked();
      asked := answered;
      ghost var first, second := HeaderPlan(before, header, asked), OwnPlan(before, name, cidr);
      if !(answered && conf != []) {
        ok := Step(WriteConf(header), before, first + second, 0);
        if !ok { return false, 0, asked; }
        sent := 1;
      }
      HeaderSent(before, header, asked, name, cidr);
      ghost var h1 := State();
      ok := Asked();
      if ok && name != "" && cidr != "" {
        assert OwnPlan(before, name, cidr) == SitePlan(h1, name, cidr);
        ok := RegisterSite(name, cidr);
        RunInto(Exec, before, first, second, if ok then 1 else 0);
        sent := sent + if ok then 1 else 0;
      }
    }

    // ----- the nodes -----

    /** list_nodes() */
    method ListNodes(only: Option<string>) returns (r: Option<seq<Line>>)
      ensures r.Some? ==> r.value == NodesOf(nodes, only)
    {
      var read := Asked();
      if !read { return None; }
      var listed := PickNodes(nodes, only);
      r := Some(listed);
    }

    /** ensure_route_via_site_gateway(): the script, the unit and its start, each checked */
    method EnsureRoute(host: string, gateway: string, cidrs: seq<string>) returns (done: bool)
      modifies this`scripts
      ensures cidrs == [] ==> done && scripts == old(scripts)
      ensures done && cidrs != [] ==> scripts == old(scripts)[host := RoutesVia(cidrs, gateway)]
      ensures !done ==> scripts == old(scripts) || scripts == old(scripts)[host := RoutesVia(cidrs, gateway)]
    {
      if cidrs == [] { return true; }
      var written := Asked();
      if !written { return false; }
      scripts := scripts[host := RoutesVia(cidrs, gateway)];
      var unit := Asked();
      if !unit { return false; }
      done := Asked();
    }

    /** One node of a refresh: refreshed, out of reach, or a checked command failed. */
    method RefreshNode(registry: seq<Line>, line: Line, up: set<string>, stuck: set<string>) returns (v: Visit)
      requires IsNode(line)
      modifies this`scripts
      ensures v.Away? <==> line[1] !in up
      ensures v.Away? ==> scripts == old(scripts)
      ensures v.Done? ==> scripts == Put(old(scripts), line[1], Wanted(registry, line[0], line[2]), line[1] in stuck)
      ensures v.Broken? ==> scripts == old(scripts)
                            || scripts == Put(old(scripts), line[1], Wanted(registry, line[0], line[2]),
                                              line[1] in stuck)
    {
      var site, host, gateway := line[0], line[1], line[2];
      var remote := RemoteCidrs(registry, site);
      if host !in up { return Away; }
      if remote != [] {
        var done := EnsureRoute(host, gateway, remote);
        v := if done then Done else Broken;
      } else {
        if host !in stuck { scripts := scripts - {host}; }
        v := Done;
      }
    }

    /** The loop over the nodes, with its counters. */
    method RefreshEach(registry: seq<Line>, all: seq<Line>, up: set<string>, stuck: set<string>)
      returns (r: Option<(nat, nat)>, ghost upTo: nat)
      requires AllNodes(all)
      modifies this`scripts
      ensures Reached(registry, all, old(scripts), scripts, up, stuck, upTo)
      ensures r.Some? ==> upTo == |all| && r.value.0 + r.value.1 == |all| && r.value.1 == Unreached(all, up)
    {
      ghost var start := scripts;
      var refreshed, unreachable := 0, 0;
      assert all[..0] == [];
      for i := 0 to |all|
        invariant Reached(registry, all, start, scripts, up, stuck, i)
        invariant refreshed + unreachable == i && unreachable == Unreached(all[..i], up)
      {
        OneMore(registry, all, start, up, stuck, i);
        var v := RefreshNode(registry, all[i], up, stuck);
        match v {
          case Away => unreachable := unreachable + 1;
          case Done => refreshed := refreshed + 1;
          case Broken =>
            return None, if Reached(registry, all, start, scripts, up, stuck, i) then i else i + 1;
        }
      }
      assert all[..|all|] == all;
      r, upTo := Some((refreshed, unreachable)), |all|;
    }

    /**
     refresh_routes(): up are the nodes that answer, stuck those on which a removal fails. The counts of nodes
     refreshed and out of reach; or None, where a checked command failed on the way.
     */
    method RefreshRoutes(only: Option<string>, up: set<string>, stuck: set<string>)
      returns (r: Option<(nat, nat)>, ghost upTo: nat)
      requires SitesOk(sites) && NodesOk(nodes)
      modifies this`scripts
      ensures Reached(sites, NodesOf(nodes, only), old(scripts), scripts, up, stuck, upTo)
      ensures r.Some? ==> var listed := NodesOf(nodes, only);
                          upTo == |listed| && r.value.0 + r.value.1 == |listed| && r.value.1 == Unreached(listed, up)
    {
      RefreshReady(sites, nodes, only);
      NoneReached(sites, NodesOf(nodes, only), scripts, up, stuck);
      var listed := ListNodes(only);
      if listed == None { return None, 0; }
      if listed.value == [] { return Some((0, 0)), 0; }
      var others := ListOtherSites(None);
      if others == None { return None, 0; }
      r, upTo := RefreshEach(others.value, listed.value, up, stuck);
    }

    // ----- retiring a site -----

    /** The commands of a retirement on the hub, none of them checked. */
    method RetireOnHub(name: string, cidr: string) returns (ghost o: Outcome)
      modifies this`alloc, this`sites, this`nodes, this`dns, this`conf, this`live, this`routes
      ensures State() == Retired(old(State()), name, cidr, o)
    {
      var peer := Send(RemovePeer(name));
      var route := Send(RouteDel(cidr));
      var inSites := Send(SedSites(name));
      var inAlloc := Send(SedAlloc(name));
      var inNodes := Send(SedNodes(name));
      var inDns := Send(SedDns(name));
      o := Outcome(peer, route, inSites, inAlloc, inNodes, inDns);
    }

    /**
     retire_site(): the site's network, "" when the hub has no such site, None where a checked command failed. The
     outcome says which of the commands on the hub took effect.
     */
    method RetireSite(name: string, up: set<string>, stuck: set<string>)
      returns (cidr: Option<string>, ghost o: Outcome, ghost upTo: nat)
      requires Inv(net, State())
      modifies this
      ensures State() == if Registered(old(sites), name) then Retired(old(State()), name, SiteCidr(old(sites), name), o)
              else old(State())
      ensures cidr.Some? ==> cidr.value == SiteCidr(old(sites), name)
      ensures scripts == old(scripts) || Reached(sites, NodesOf(nodes, None), old(scripts), scripts, up, stuck, upTo)
      ensures cidr.Some? && cidr.value != "" ==>
                Reached(sites, NodesOf(nodes, None), old(scripts), scripts, up, stuck, |NodesOf(nodes, None)|)
    {
      o, upTo := NOTHING, 0;
      ghost var before := State();
      NothingRetired(net, before, name);
      var listed := ListOtherSites(None);
      if listed == None { return None, o, 0; }
      var found := SiteCidr(listed.value, name);
      if found == "" { return Some(""), o, 0; }
      o := RetireOnHub(name, found);
      StillRefreshable(net, before, State(), name, found, o);
      var counts;
      counts, upTo := RefreshRoutes(None, up, stuck);
      cidr := if counts.Some? then Some(found) else None;
    }
  }

  lemma NothingRetired(net: Network, h: Hub, name: string)
    requires Inv(net, h)
    ensures SitesExcept(h.sites, None) == h.sites
    ensures Retired(h, name, SiteCidr(h.sites, name), NOTHING) == h
  {
    AllSitesListed(h.sites);
  }

  lemma StillRefreshable(net: Network, h: Hub, now: Hub, name: string, cidr: string, o: Outcome)
    requires Inv(net, h) && now == Retired(h, name, cidr, o)
    ensures SitesOk(now.sites) && NodesOk(now.nodes)
  {
    RetiredRegistries(net, h, name, cidr, o);
  }

  /**
   The join got through that many of its commands on the hub, all of them if it is done. Without a free address it
   sends none.
   */
  predicate Sent(net: Network, before: Hub, now: Hub, name: string, cidr: string, key: string, asked: bool, sent: nat,
                 done: bool) {
    if AllocatedIp(net, before.alloc, name) == None then now == before && !done
    else
      var plan := JoinPlan(before, net, name, cidr, key, asked);
      sent <= |plan| && now == Run(Exec, before, plan[..sent]) && (done ==> sent == |plan|)
  }

  /** A join keeps the invariant of the hub, wherever it stopped. */
  lemma SentKeeps(net: Network, before: Hub, now: Hub, name: string, cidr: string, key: string, asked: bool, sent: nat,
                  done: bool)
    requires Sent(net, before, now, name, cidr, key, asked, sent, done)
    requires Inv(net, before) && IsWord(name) && IsWord(cidr) && IsWord(key)
    requires asked || !HasPeer(ReadPeers(before.conf), name)
    ensures Inv(net, now)
  {
    if AllocatedIp(net, before.alloc, name).Some? {
      JoinSteady(net, before, name, cidr, key, asked);
      SteadyMeans(Holds(net), Exec, before, JoinPlan(before, net, name, cidr, key, asked), sent);
    }
  }

  lemma NothingSent(net: Network, h: Hub, name: string, cidr: string, key: string)
    ensures Sent(net, h, h, name, cidr, key, true, 0, false)
  {
  }

  /** Where the hub is made ready, before its own site is registered. */
  lemma HeaderSent(h: Hub, header: Lines, asked: bool, name: string, cidr: string)
    ensures var first := HeaderPlan(h, header, asked);
            && ReadyPlan(h, header, asked, name, cidr)[..|first|] == first
            && Run(Exec, h, first) == if asked && h.conf != [] then h else h.(conf := header)
  {
    if !(asked && h.conf != []) { RunOne(Exec, h, WriteConf(header)); }
  }

  /** Where a join stops before it adds its peer. */
  lemma StoppedBefore(net: Network, h: Hub, now: Hub, name: string, cidr: string, key: string, n: nat)
    requires AllocatedIp(net, h.alloc, name) == None ==> now == h
    requires AllocatedIp(net, h.alloc, name).Some? ==>
               var plan := AllocPlan(net, h.alloc, name) + SitePlan(h, name, cidr);
               n <= |plan| && now == Run(Exec, h, plan[..n])
    ensures Sent(net, h, now, name, cidr, key, true, n, false)
  {
    if AllocatedIp(net, h.alloc, name).Some? {
      var plan := AllocPlan(net, h.alloc, name) + SitePlan(h, name, cidr);
      assert JoinPlan(h, net, name, cidr, key, true)[..n] == plan[..n];
    }
  }

  /** Where it stops after that. */
  lemma StoppedAfter(net: Network, h: Hub, h2: Hub, now: Hub, name: string, cidr: string, key: string, asked: bool,
                     n: nat, done: bool)
    requires AllocatedIp(net, h.alloc, name).Some? && h2.conf == h.conf
    requires var both := AllocPlan(net, h.alloc, name) + SitePlan(h, name, cidr);
             h2 == Run(Exec, h, both[..|both|])
    requires var peer := PeerPlan(h2, name, key, AllocatedIp(net, h.alloc, name).value, cidr, asked);
             n <= |peer| && (done ==> n == |peer|) && now == Run(Exec, h2, peer[..n])
    ensures var both := AllocPlan(net, h.alloc, name) + SitePlan(h, name, cidr);
            Sent(net, h, now, name, cidr, key, asked, |both| + n, done)
  {
    var both := AllocPlan(net, h.alloc, name) + SitePlan(h, name, cidr);
    assert both[..|both|] == both;
    RunInto(Exec, h, both, PeerPlan(h, name, key, AllocatedIp(net, h.alloc, name).value, cidr, asked), n);
  }

  /** Allocating touches nothing that the rest of a join's plan is made from. */
  lemma AllocLeaves(net: Network, h: Hub, name: string)
    requires AllocatedIp(net, h.alloc, name).Some?
    ensures var after := Run(Exec, h, AllocPlan(net, h.alloc, name)); after.sites == h.sites && after.conf == h.conf
  {
    if LookupLast(h.alloc, name) == None {
      var c := AppendAlloc(LineOf([name, AllocatedIp(net, h.alloc, name).value]));
      assert [c][1..] == [];
      assert Run(Exec, h, [c]) == Run(Exec, Exec(h, c), []);
    }
  }

  lemma SiteLeaves(h: Hub, name: string, cidr: string)
    ensures Run(Exec, h, SitePlan(h, name, cidr)).conf == h.conf
    ensures SitePlan(h, name, cidr)[..1] == SitePlan(h, name, cidr)
  {
    var c := SitePlan(h, name, cidr)[0];
    assert [c][1..] == [];
    assert Run(Exec, h, [c]) == Run(Exec, Exec(h, c), []);
  }

  /** The first nodes of the list were visited. */
  predicate Reached(sites: seq<Line>, all: seq<Line>, before: Scripts, now: Scripts, up: set<string>,
                    stuck: set<string>, n: nat) {
    AllNodes(all) && n <= |all| && AllNodes(all[..n]) && now == Refreshed(sites, all[..n], before, up, stuck)
  }

  /** A refresh, broken off by a failed command or not, is one of the acts whose runs converge. */
  lemma BrokenOffIsAct(w: World, only: Option<string>, now: Scripts, up: set<string>, stuck: set<string>, n: nat)
    requires UniqueAt(w.hub.nodes, 1)
    requires Reached(w.hub.sites, NodesOf(w.hub.nodes, only), w.scripts, now, up, stuck, n)
    ensures Next(w, Refresh(only, up * Hosts(NodesOf(w.hub.nodes, only)[..n]), stuck)) == w.(scripts := now)
  {
    NodesOfKeeps(w.hub.nodes, only);
    PrefixIsRefresh(w.hub.sites, NodesOf(w.hub.nodes, only), w.scripts, up, stuck, n);
  }

  lemma NoneReached(sites: seq<Line>, all: seq<Line>, scripts: Scripts, up: set<string>, stuck: set<string>)
    requires AllNodes(all)
    ensures Reached(sites, all, scripts, scripts, up, stuck, 0)
    ensures all == [] ==> Unreached(all, up) == 0
  {
    assert all[..0] == [];
  }

  lemma RefreshReady(sites: seq<Line>, nodes: seq<Line>, only: Option<string>)
    requires SitesOk(sites) && NodesOk(nodes)
    ensures AllNodes(NodesOf(nodes, only)) && SitesExcept(sites, None) == sites
  {
    NodesOfKeeps(nodes, only);
    AllSitesListed(sites);
  }

  /** One more node of a refresh. */
  lemma OneMore(sites: seq<Line>, all: seq<Line>, scripts: Scripts, up: set<string>, stuck: set<string>, i: nat)
    requires i < |all| && AllNodes(all) && AllNodes(all[..i])
    ensures IsNode(all[i]) && AllNodes(all[..i + 1])
    ensures var before, line := Refreshed(sites, all[..i], scripts, up, stuck), all[i];
            Refreshed(sites, all[..i + 1], scripts, up, stuck) ==
            if line[1] in up then Put(before, line[1], Wanted(sites, line[0], line[2]), line[1] in stuck) else before
    ensures Unreached(all[..i + 1], up) == Unreached(all[..i], up) + if all[i][1] in up then 0 else 1
  {
    assert all[i] in all;
    assert all[..i + 1][..i] == all[..i];
  }
}
