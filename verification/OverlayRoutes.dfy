/**
 The routes of the ordinary nodes: the script each node keeps of the other sites' networks, via its own site's gateway.

 A script is what survives a reboot; the routes a node has at the moment are not modelled.
 */
module OverlayRoutes {
  import opened Ipv4
  import opened OverlayHub
  import opened OverlayRetire
  import opened Text
  import opened WgConf
  import opened Wrappers

  datatype Route = Route(cidr: string, via: string)

  /** The route script of every node that has one. */
  type Scripts = map<string, seq<Route>>

  /** The networks of the other sites, in the registry's order. */
  function RemoteCidrs(sites: seq<Line>, site: string): (r: seq<string>)
    ensures forall c :: c in r <==>
              exists i :: 0 <= i < |sites| && |sites[i]| == 2 && sites[i][0] != site && sites[i][1] == c
  {
    if sites == [] then []
    else
      var n := |sites| - 1;
      RemoteCidrs(sites[..n], site) + if |sites[n]| == 2 && sites[n][0] != site then [sites[n][1]] else []
  }

  function RoutesVia(cidrs: seq<string>, gateway: string): seq<Route> {
    seq(|cidrs|, i requires 0 <= i < |cidrs| => Route(cidrs[i], gateway))
  }

  /** The script a node of the site should have; none when there is no other site. */
  function Wanted(sites: seq<Line>, site: string, gateway: string): Option<seq<Route>> {
    var cidrs := RemoteCidrs(sites, site);
    if cidrs == [] then None else Some(RoutesVia(cidrs, gateway))
  }

  /** The line is another site's, with this network. */
  predicate OtherSite(line: Line, site: string, cidr: string) {
    |line| == 2 && line[0] != site && line[1] == cidr
  }

  /** The script routes exactly the networks of the other sites, all of them by way of the gateway. */
  lemma WantedSays(sites: seq<Line>, site: string, gateway: string, cidr: string, via: string)
    ensures Wanted(sites, site, gateway) == None <==> forall l :: l in sites && |l| == 2 ==> l[0] == site
    ensures Wanted(sites, site, gateway).Some? ==>
              (Route(cidr, via) in Wanted(sites, site, gateway).value <==>
               via == gateway && exists l :: l in sites && OtherSite(l, site, cidr))
  {
    var cidrs := RemoteCidrs(sites, site);
    if cidrs != [] { assert cidrs[0] in cidrs; }
    if l :| l in sites && |l| == 2 && l[0] != site { assert l[1] in cidrs; }
    NetworksOfOthers(sites, site, cidr);
    InRoutes(cidrs, gateway, cidr, via);
  }

  lemma NetworksOfOthers(sites: seq<Line>, site: string, cidr: string)
    ensures cidr in RemoteCidrs(sites, site) <==> exists l :: l in sites && OtherSite(l, site, cidr)
  {
    if i :| 0 <= i < |sites| && |sites[i]| == 2 && sites[i][0] != site && sites[i][1] == cidr {
      assert OtherSite(sites[i], site, cidr);
    }
  }

  lemma InRoutes(cidrs: seq<string>, gateway: string, cidr: string, via: string)
    ensures Route(cidr, via) in RoutesVia(cidrs, gateway) <==> via == gateway && cidr in cidrs
  {
    if i :| 0 <= i < |cidrs| && cidrs[i] == cidr { assert RoutesVia(cidrs, gateway)[i] == Route(cidr, gateway); }
  }

  function ScriptOf(scripts: Scripts, host: string): Option<seq<Route>> {
    if host in scripts then Some(scripts[host]) else None
  }

  /** The node's script is written, or removed; the removal is not checked and may fail. */
  function Put(scripts: Scripts, host: string, wanted: Option<seq<Route>>, stuck: bool): Scripts {
    match wanted
    case Some(routes) => scripts[host := routes]
    case None => if stuck then scripts else scripts - {host}
  }

  /** A registered node: the fields of its line. */
  predicate IsNode(line: Line) {
    |line| == 3
  }

  predicate AllNodes(nodes: seq<Line>) {
    forall l :: l in nodes ==> IsNode(l)
  }

  /** The nodes that a refresh considers, all of them or those of one site. */
  function NodesOf(nodes: seq<Line>, only: Option<string>): (r: seq<Line>)
    ensures forall l :: l in r <==> l in nodes && |l| == 3 && (only.Some? ==> l[0] == only.value)
  {
    if nodes == [] then []
    else
      var n := |nodes| - 1;
      NodesOf(nodes[..n], only)
      + if |nodes[n]| == 3 && (only.Some? ==> nodes[n][0] == only.value) then [nodes[n]] else []
  }

  /** A refresh of these nodes, of which some are reached, and on some of which the removal fails. */
  function Refreshed(sites: seq<Line>, nodes: seq<Line>, scripts: Scripts, reached: set<string>,
                     stuck: set<string>): Scripts
    requires AllNodes(nodes)
  {
    if nodes == [] then scripts
    else
      var l := nodes[|nodes| - 1];
      assert IsNode(l);
      var before := Refreshed(sites, nodes[..|nodes| - 1], scripts, reached, stuck);
      if l[1] in reached then Put(before, l[1], Wanted(sites, l[0], l[2]), l[1] in stuck) else before
  }

  function Unreached(nodes: seq<Line>, reached: set<string>): nat
    requires AllNodes(nodes)
  {
    if nodes == [] then 0
    else
      assert IsNode(nodes[|nodes| - 1]);
      Unreached(nodes[..|nodes| - 1], reached) + if nodes[|nodes| - 1][1] in reached then 0 else 1
  }

  /** No node of the list has that host. */
  predicate NoHost(nodes: seq<Line>, host: string) {
    forall l :: l in nodes ==> !FieldIs(l, 1, host)
  }

  lemma {:induction false} OthersUntouched(sites: seq<Line>, nodes: seq<Line>, scripts: Scripts, reached: set<string>,
                                           stuck: set<string>, host: string)
    requires AllNodes(nodes) && (NoHost(nodes, host) || host !in reached)
    ensures ScriptOf(Refreshed(sites, nodes, scripts, reached, stuck), host) == ScriptOf(scripts, host)
  {
    if nodes != [] {
      var n := |nodes| - 1;
      assert nodes[n] in nodes;
      OthersUntouched(sites, nodes[..n], scripts, reached, stuck, host);
    }
  }

  /**
   After a refresh every node reached has exactly the other sites' networks in its script, via its own gateway, and
   no script when there is no other site, unless the removal failed. Nodes that were not reached keep theirs.
   */
  lemma {:induction false} RefreshGives(sites: seq<Line>, nodes: seq<Line>, scripts: Scripts, reached: set<string>,
                                        stuck: set<string>, line: Line)
    requires AllNodes(nodes) && UniqueAt(nodes, 1) && line in nodes && line[1] in reached
    ensures ScriptOf(Refreshed(sites, nodes, scripts, reached, stuck), line[1]) ==
            if Wanted(sites, line[0], line[2]) == None && line[1] in stuck then ScriptOf(scripts, line[1])
            else Wanted(sites, line[0], line[2])
  {
    var n := |nodes| - 1;
    assert nodes[n] in nodes;
    InLines(nodes[..n], 1, nodes[n][1]);
    if line in nodes[..n] {
      RefreshGives(sites, nodes[..n], scripts, reached, stuck, line);
    } else {
      OthersUntouched(sites, nodes[..n], scripts, reached, stuck, line[1]);
    }
  }

  lemma SameScripts(a: Scripts, b: Scripts)
    requires forall host :: ScriptOf(a, host) == ScriptOf(b, host)
    ensures a == b
  {
    forall host | host in a ensures host in b && a[host] == b[host] { assert ScriptOf(a, host) == ScriptOf(b, host); }
    forall host | host in b ensures host in a { assert ScriptOf(a, host) == ScriptOf(b, host); }
  }

  /** Refreshing again, with the same nodes reached, changes nothing. */
  lemma RefreshIdempotent(sites: seq<Line>, nodes: seq<Line>, scripts: Scripts, reached: set<string>,
                          stuck: set<string>)
    requires AllNodes(nodes) && UniqueAt(nodes, 1)
    ensures var once := Refreshed(sites, nodes, scripts, reached, stuck);
            Refreshed(sites, nodes, once, reached, stuck) == once
  {
    var once := Refreshed(sites, nodes, scripts, reached, stuck);
    forall host ensures ScriptOf(Refreshed(sites, nodes, once, reached, stuck), host) == ScriptOf(once, host) {
      if host !in reached || NoHost(nodes, host) {
        OthersUntouched(sites, nodes, once, reached, stuck, host);
      } else {
        var l :| l in nodes && FieldIs(l, 1, host);
        RefreshGives(sites, nodes, scripts, reached, stuck, l);
        RefreshGives(sites, nodes, once, reached, stuck, l);
      }
    }
    SameScripts(Refreshed(sites, nodes, once, reached, stuck), once);
  }

  function Hosts(nodes: seq<Line>): set<string> {
    set i | 0 <= i < |nodes| && |nodes[i]| == 3 :: nodes[i][1]
  }

  lemma {:induction false} OnlyOwnHosts(sites: seq<Line>, nodes: seq<Line>, scripts: Scripts, reached: set<string>,
                                        stuck: set<string>, hosts: set<string>)
    requires AllNodes(nodes) && forall l :: l in nodes ==> l[1] in hosts
    ensures Refreshed(sites, nodes, scripts, reached * hosts, stuck) == Refreshed(sites, nodes, scripts, reached, stuck)
  {
    if nodes != [] {
      assert nodes[|nodes| - 1] in nodes;
      OnlyOwnHosts(sites, nodes[..|nodes| - 1], scripts, reached, stuck, hosts);
    }
  }

  /** A refresh that was broken off after n nodes is a refresh that reached those of the others that it had visited. */
  lemma {:induction false} PrefixIsRefresh(sites: seq<Line>, nodes: seq<Line>, scripts: Scripts, reached: set<string>,
                                           stuck: set<string>, n: nat)
    requires AllNodes(nodes) && UniqueAt(nodes, 1) && n <= |nodes| && AllNodes(nodes[..n])
    ensures Refreshed(sites, nodes, scripts, reached * Hosts(nodes[..n]), stuck) ==
            Refreshed(sites, nodes[..n], scripts, reached, stuck)
    decreases |nodes|
  {
    if n == |nodes| {
      assert nodes[..n] == nodes;
      forall l | l in nodes ensures l[1] in Hosts(nodes) { var i :| 0 <= i < |nodes| && nodes[i] == l; }
      OnlyOwnHosts(sites, nodes, scripts, reached, stuck, Hosts(nodes));
    } else {
      var m := |nodes| - 1;
      assert nodes[m] in nodes && nodes[..m][..n] == nodes[..n];
      PrefixIsRefresh(sites, nodes[..m], scripts, reached, stuck, n);
      forall i | 0 <= i < n ensures !FieldIs(nodes[i], 1, nodes[m][1]) { assert nodes[..m][i] == nodes[i]; }
    }
  }

  lemma {:induction false} NodesOfKeeps(nodes: seq<Line>, only: Option<string>)
    requires UniqueAt(nodes, 1)
    ensures AllNodes(NodesOf(nodes, only)) && UniqueAt(NodesOf(nodes, only), 1)
  {
    if nodes != [] {
      var n := |nodes| - 1;
      var before := NodesOf(nodes[..n], only);
      NodesOfKeeps(nodes[..n], only);
      if |nodes[n]| == 3 && (only.Some? ==> nodes[n][0] == only.value) {
        InLines(nodes[..n], 1, nodes[n][1]);
        InLines(before, 1, nodes[n][1]);
        SnocUnique(before, nodes[n], 1);
      } else {
        assert before + [] == before;
      }
    }
  }

  // ----- whole runs -----

  /** The hub and the scripts on the nodes. */
  datatype World = World(hub: Hub, scripts: Scripts)

  /**
   What happens to the overlay: the hub becomes another one, by whatever its commands; the nodes are refreshed, all of
   them or one site's; or a node is provisioned.
   */
  datatype Act =
    | Change(hub: Hub)
    | Refresh(only: Option<string>, reached: set<string>, stuck: set<string>)
    | Provision(site: string, host: string, gateway: string)

  function Next(w: World, act: Act): World
    requires UniqueAt(w.hub.nodes, 1)
  {
    match act
    case Change(hub) => w.(hub := hub)
    case Refresh(only, reached, stuck) =>
      NodesOfKeeps(w.hub.nodes, only);
      w.(scripts := Refreshed(w.hub.sites, NodesOf(w.hub.nodes, only), w.scripts, reached, stuck))
    case Provision(site, host, gateway) =>
      var wanted := Wanted(w.hub.sites, site, gateway);
      if wanted.Some? then w.(scripts := w.scripts[host := wanted.value]) else w
  }

  /** The registry holds each host once, now and after every change. */
  predicate Regular(w: World, acts: seq<Act>) {
    UniqueAt(w.hub.nodes, 1) && forall i :: 0 <= i < |acts| && acts[i].Change? ==> UniqueAt(acts[i].hub.nodes, 1)
  }

  function After(w: World, acts: seq<Act>): (r: World)
    requires Regular(w, acts)
    ensures UniqueAt(r.hub.nodes, 1)
  {
    if acts == [] then w else Next(After(w, acts[..|acts| - 1]), acts[|acts| - 1])
  }

  /** The hub of a run is that of the last change: refreshing and provisioning leave it alone. */
  lemma {:induction false} HubIsLastChange(w: World, acts: seq<Act>, i: nat)
    requires Regular(w, acts) && i <= |acts| && forall j :: i <= j < |acts| ==> !acts[j].Change?
    requires i > 0 ==> acts[i - 1].Change?
    ensures After(w, acts).hub == if i == 0 then w.hub else acts[i - 1].hub
  {
    if i < |acts| { HubIsLastChange(w, acts[..|acts| - 1], i); }
  }

  predicate Right(w: World, line: Line)
    requires IsNode(line)
  {
    ScriptOf(w.scripts, line[1]) == Wanted(w.hub.sites, line[0], line[2])
  }

  /** The refresh is of all nodes, or of those of this site. */
  predicate Includes(only: Option<string>, site: string) {
    only == None || only.value == site
  }

  /** The node is reached, and its script is written, or removed without failing. */
  predicate Reaches(sites: seq<Line>, reached: set<string>, stuck: set<string>, line: Line)
    requires IsNode(line)
  {
    line[1] in reached && (line[1] !in stuck || RemoteCidrs(sites, line[0]) != [])
  }

  /** Provisioning a host pushes these routes; without any it pushes nothing. */
  predicate PushesSame(sites: seq<Line>, site: string, gateway: string, line: Line)
    requires IsNode(line)
  {
    RemoteCidrs(sites, site) == RemoteCidrs(sites, line[0]) && gateway == line[2]
  }

  /**
   The node was reached by a refresh that included its line, or was provisioned as its line says; and since then the hub
   had the same networks for it, no refresh reached it by another line, and whenever it was provisioned again that was
   with the same routes, or with none.
   */
  predicate Fresh(w: World, acts: seq<Act>, line: Line)
    requires Regular(w, acts) && IsNode(line)
  {
    acts != [] &&
    var init, last := acts[..|acts| - 1], acts[|acts| - 1];
    var hub := After(w, init).hub;
    match last
    case Refresh(only, reached, stuck) =>
      || (line in hub.nodes && Includes(only, line[0]) && Reaches(hub.sites, reached, stuck, line))
      || (Fresh(w, init, line) && (line in hub.nodes || NoHost(hub.nodes, line[1]) || line[1] !in reached))
    case Change(now) => RemoteCidrs(now.sites, line[0]) == RemoteCidrs(hub.sites, line[0]) && Fresh(w, init, line)
    case Provision(site, host, gateway) =>
      if host == line[1] && RemoteCidrs(hub.sites, site) != [] then PushesSame(hub.sites, site, gateway, line)
      else Fresh(w, init, line)
  }

  lemma RefreshRight(w: World, only: Option<string>, reached: set<string>, stuck: set<string>, line: Line)
    requires UniqueAt(w.hub.nodes, 1) && IsNode(line)
    requires || (line in w.hub.nodes && Includes(only, line[0]) && Reaches(w.hub.sites, reached, stuck, line))
             || (Right(w, line) && (line in w.hub.nodes || NoHost(w.hub.nodes, line[1]) || line[1] !in reached))
    ensures Right(Next(w, Refresh(only, reached, stuck)), line)
  {
    var nodes := NodesOf(w.hub.nodes, only);
    NodesOfKeeps(w.hub.nodes, only);
    if line in nodes && line[1] in reached {
      RefreshGives(w.hub.sites, nodes, w.scripts, reached, stuck, line);
    } else {
      UniqueMeans(w.hub.nodes, 1);
      OthersUntouched(w.hub.sites, nodes, w.scripts, reached, stuck, line[1]);
    }
  }

  /**
   Provisioning the node's host makes its script right if and only if it pushes the routes the node should have; when
   there are none to push, the script stays.
   */
  lemma ProvisionRightIff(w: World, site: string, gateway: string, line: Line)
    requires UniqueAt(w.hub.nodes, 1) && IsNode(line)
    ensures Right(Next(w, Provision(site, line[1], gateway)), line) <==>
            if RemoteCidrs(w.hub.sites, site) == [] then Right(w, line)
            else PushesSame(w.hub.sites, site, gateway, line)
  {
    var cidrs, own := RemoteCidrs(w.hub.sites, site), RemoteCidrs(w.hub.sites, line[0]);
    if cidrs != [] && own != [] { RoutesViaSame(cidrs, gateway, own, line[2]); }
  }

  lemma RoutesViaSame(a: seq<string>, via: string, b: seq<string>, other: string)
    requires a != []
    ensures RoutesVia(a, via) == RoutesVia(b, other) <==> a == b && via == other
  {
    if RoutesVia(a, via) == RoutesVia(b, other) {
      assert |RoutesVia(a, via)| == |RoutesVia(b, other)|;
      forall i | 0 <= i < |a| ensures a[i] == b[i] && via == other {
        assert RoutesVia(a, via)[i] == RoutesVia(b, other)[i];
      }
      assert RoutesVia(a, via)[0] == RoutesVia(b, other)[0];
    }
  }

  /**
   Convergence: after any interleaving of joins, retirements, provisionings and refreshes with whatever nodes out of
   reach, a node that is fresh in this sense has exactly the routes that its line asks for.
   */
  lemma {:induction false} RoutesConverge(w: World, acts: seq<Act>, line: Line)
    requires Regular(w, acts) && IsNode(line) && Fresh(w, acts, line)
    ensures Right(After(w, acts), line)
  {
    var init, last := acts[..|acts| - 1], acts[|acts| - 1];
    var before := After(w, init);
    if Fresh(w, init, line) { RoutesConverge(w, init, line); }
    match last {
      case Refresh(only, reached, stuck) => RefreshRight(before, only, reached, stuck, line);
      case Change(_) =>
      case Provision(site, host, gateway) =>
        if host == line[1] { ProvisionRightIff(before, site, gateway, line); }
    }
  }

  /**
   A node provisioned with another gateway than its line's, as a run leaves it that stops before it registers the node
   anew, has the wrong script until the next refresh.
   */
  lemma OtherGatewayIsWrong(w: World, gateway: string, line: Line)
    requires UniqueAt(w.hub.nodes, 1) && IsNode(line) && gateway != line[2] && RemoteCidrs(w.hub.sites, line[0]) != []
    ensures !Right(Next(w, Provision(line[0], line[1], gateway)), line)
  {
    ProvisionRightIff(w, line[0], gateway, line);
  }

  // ----- what a retirement leaves on the nodes -----

  /** The node's script routes to the network. */
  predicate RoutesTo(scripts: Scripts, host: string, cidr: string) {
    host in scripts && exists i :: 0 <= i < |scripts[host]| && scripts[host][i].cidr == cidr
  }

  /** No node that a full refresh reached keeps a route to a network that no site of the registry has. */
  lemma RefreshForgets(w: World, reached: set<string>, line: Line, cidr: string)
    requires UniqueAt(w.hub.nodes, 1) && line in w.hub.nodes && IsNode(line) && line[1] in reached
    requires !HasKey(w.hub.sites, 1, cidr)
    ensures !RoutesTo(Next(w, Refresh(None, reached, {})).scripts, line[1], cidr)
  {
    RefreshRight(w, None, reached, {}, line);
    InLines(w.hub.sites, 1, cidr);
    assert cidr !in RemoteCidrs(w.hub.sites, line[0]);
  }

  /**
   A site is retired, every command taking effect, and the nodes are refreshed: a node that is left and was reached
   has no route to the site's network, when no other site shares it.
   */
  lemma RetiredNetworkForgotten(net: Network, w: World, name: string, cidr: string, reached: set<string>, line: Line)
    requires Inv(net, w.hub) && Precise(w.hub, name)
    requires forall l :: l in w.hub.sites && FieldIs(l, 1, cidr) ==> l[0] == name
    requires line in w.hub.nodes && IsNode(line) && line[0] != name && line[1] in reached
    ensures var after := w.(hub := Retired(w.hub, name, cidr, ALL));
            && UniqueAt(after.hub.nodes, 1) && line in after.hub.nodes
            && !RoutesTo(Next(after, Refresh(None, reached, {})).scripts, line[1], cidr)
  {
    var after := w.(hub := Retired(w.hub, name, cidr, ALL));
    RetireRemoves(w.hub, name, cidr);
    RetiredRegistries(net, w.hub, name, cidr, ALL);
    InLines(after.hub.sites, 1, cidr);
    RefreshForgets(after, reached, line, cidr);
  }
}
