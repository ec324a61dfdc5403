/** Whole runs on the overlay hub: calls of the program one after the other, each stopping where it may. */
module OverlayRuns {
  import Bre
  import opened Ipv4
  import opened OverlayHub
  import opened OverlayRetire
  import opened Plans
  import opened Text
  import opened WgConf
  import opened Wrappers

  /** One call of the program, with the number of commands it got through before it stopped or finished. */
  datatype Call =
    | Ready(header: Lines, asked: bool, name: string, cidr: string, sent: nat)
    | JoinSite(name: string, cidr: string, key: string, asked: bool, sent: nat)
    | RegisterSite(name: string, cidr: string, sent: nat)
    | RegisterNode(site: string, host: string, gateway: string, sent: nat)
    | RegisterDns(site: string, ip: string, domain: string, sent: nat)
    | Forget(host: string, done: bool)
    | Retire(name: string, o: Outcome)

  function PlanOf(net: Network, h: Hub, call: Call): seq<Command>
    requires !call.Forget? && !call.Retire?
  {
    match call
    case Ready(header, asked, name, cidr, _) => ReadyPlan(h, header, asked, name, cidr)
    case JoinSite(name, cidr, key, asked, _) =>
      if AllocatedIp(net, h.alloc, name).Some? then JoinPlan(h, net, name, cidr, key, asked) else []
    case RegisterSite(name, cidr, _) => SitePlan(h, name, cidr)
    case RegisterNode(site, host, gateway, _) => NodePlan(h, site, host, gateway)
    case RegisterDns(site, ip, domain, _) => DnsPlan(h, site, ip, domain)
  }

  /** The first n commands, or all of them. */
  function FirstOf(plan: seq<Command>, n: nat): seq<Command> {
    if n <= |plan| then plan[..n] else plan
  }

  function AfterCall(net: Network, h: Hub, call: Call): Hub {
    match call
    case Forget(host, done) => if done then h.(nodes := Forgotten(h.nodes, host)) else h
    case Retire(name, o) =>
      if Registered(h.sites, name) then Retired(h, name, SiteCidr(h.sites, name), o) else h
    case _ =>
      Run(Exec, h, FirstOf(PlanOf(net, h, call), call.sent))
  }

  function AfterCalls(net: Network, h: Hub, calls: seq<Call>): Hub {
    if calls == [] then h else AfterCall(net, AfterCalls(net, h, calls[..|calls| - 1]), calls[|calls| - 1])
  }

  /**
   What a call relies on: what it writes into a registry's fields are words, the header is one, the marker is not
   overlooked while the site has a block, and a retirement strands no peer.
   */
  ghost predicate Fair(h: Hub, call: Call) {
    match call
    case Ready(header, _, name, cidr, _) =>
      PlainLines(header) && (name == "" || cidr == "" || (IsWord(name) && IsWord(cidr)))
    case JoinSite(name, cidr, key, asked, _) =>
      IsWord(name) && IsWord(cidr) && IsWord(key) && (asked || !HasPeer(ReadPeers(h.conf), name))
    case RegisterSite(name, cidr, _) => IsWord(name) && IsWord(cidr)
    case RegisterNode(site, host, gateway, _) => IsWord(site) && IsWord(host) && IsWord(gateway)
    case RegisterDns(site, ip, domain, _) =>
      IsWord(site) && (ip == "" || IsWord(ip)) && (domain == "" || IsWord(domain))
    case Forget(_, _) => true
    case Retire(name, o) => StrandsNone(h, name, o)
  }

  ghost predicate FairCalls(net: Network, h: Hub, calls: seq<Call>) {
    calls == [] ||
    (FairCalls(net, h, calls[..|calls| - 1]) && Fair(AfterCalls(net, h, calls[..|calls| - 1]), calls[|calls| - 1]))
  }

  lemma PlanSteady(net: Network, h: Hub, call: Call)
    requires Inv(net, h) && Fair(h, call) && !call.Forget? && !call.Retire?
    ensures Steady(Holds(net), Exec, h, PlanOf(net, h, call))
  {
    match call {
      case Ready(header, asked, name, cidr, _) => ReadySteady(net, h, header, asked, name, cidr);
      case JoinSite(name, cidr, key, asked, _) =>
        if AllocatedIp(net, h.alloc, name).Some? { JoinSteady(net, h, name, cidr, key, asked); }
      case RegisterSite(name, cidr, _) => SiteSteady(net, h, name, cidr);
      case RegisterNode(site, host, gateway, _) => NodeSteady(net, h, site, host, gateway);
      case RegisterDns(site, ip, domain, _) => DnsSteady(net, h, site, ip, domain);
    }
  }

  // ----- calls that finish -----

  /** A call that gets through all its commands is its whole plan. */
  lemma {:induction false} WholePlan(net: Network, h: Hub, call: Call, plan: seq<Command>)
    requires !call.Forget? && !call.Retire? && plan == PlanOf(net, h, call) && call.sent >= |plan|
    ensures AfterCall(net, h, call) == Run(Exec, h, plan)
  {
    assert plan[..|plan|] == plan;
  }

  /** A join that gets through all of them leaves the gateway joined. */
  lemma {:induction false} JoinFinishes(net: Network, h: Hub, call: Call)
    requires Inv(net, h) && Fair(h, call) && call.JoinSite? && AllocatedIp(net, h.alloc, call.name).Some?
    requires call.sent >= |JoinPlan(h, net, call.name, call.cidr, call.key, call.asked)|
    ensures AfterCall(net, h, call) ==
            Joined(h, call.name, call.cidr, call.key, AllocatedIp(net, h.alloc, call.name).value, call.asked)
  {
    WholePlan(net, h, call, JoinPlan(h, net, call.name, call.cidr, call.key, call.asked));
    JoinDone(net, h, call.name, call.cidr, call.key, call.asked);
  }

  /** A node that is forgotten is registered no more, and the others are. */
  lemma ForgetFinishes(net: Network, h: Hub, before: seq<Line>, line: Line, after: seq<Line>, host: string)
    requires NodesOk(h.nodes) && h.nodes == before + [line] + after && FieldIs(line, 1, host)
    ensures AfterCall(net, h, Forget(host, true)) == h.(nodes := before + after)
    ensures AfterCall(net, h, Forget(host, false)) == h
  {
    ForgetsOneNode(before, line, after, host);
  }

  /** A registered site that is retired, all commands taking effect, is registered no more if its name is precise. */
  lemma RetireFinishes(net: Network, h: Hub, name: string)
    requires Precise(h, name) && Registered(h.sites, name)
    ensures var after := AfterCall(net, h, Retire(name, Outcome(true, true, true, true, true, true)));
            && !HasKey(after.sites, 0, name) && !HasKey(after.alloc, 0, name)
            && after.routes == h.routes - {SiteCidr(h.sites, name)}
  {
    RetireRemoves(h, name, SiteCidr(h.sites, name));
  }

  lemma FirstKeeps(net: Network, h: Hub, plan: seq<Command>, n: nat)
    requires Steady(Holds(net), Exec, h, plan)
    ensures Inv(net, Run(Exec, h, FirstOf(plan, n)))
  {
    assert plan[..|plan|] == plan;
    SteadyMeans(Holds(net), Exec, h, plan, if n <= |plan| then n else |plan|);
  }

  lemma RetireCallKeeps(net: Network, h: Hub, name: string, o: Outcome)
    requires Inv(net, h) && StrandsNone(h, name, o)
    ensures Inv(net, AfterCall(net, h, Retire(name, o)))
  {
    if Registered(h.sites, name) { RetireKeepsIff(net, h, name, SiteCidr(h.sites, name), o); }
  }

  lemma ForgetCallKeeps(net: Network, h: Hub, host: string, done: bool)
    requires Inv(net, h)
    ensures Inv(net, AfterCall(net, h, Forget(host, done)))
  {
    if done { ForgetKeeps(net, h, host); }
  }

  lemma PlannedCallKeeps(net: Network, h: Hub, call: Call)
    requires Inv(net, h) && Fair(h, call) && !call.Forget? && !call.Retire?
    ensures Inv(net, AfterCall(net, h, call))
  {
    PlanSteady(net, h, call);
    FirstKeeps(net, h, PlanOf(net, h, call), call.sent);
  }

  /** A call keeps the invariant, wherever it stops. */
  lemma CallKeeps(net: Network, h: Hub, call: Call)
    requires Inv(net, h) && Fair(h, call)
    ensures Inv(net, AfterCall(net, h, call))
  {
    match call {
      case Forget(host, done) => ForgetCallKeeps(net, h, host, done);
      case Retire(name, o) => RetireCallKeeps(net, h, name, o);
      case _ => PlannedCallKeeps(net, h, call);
    }
  }

  /**
   In every run of calls, each stopping where it may: the registries have one line per key, the allocations are
   injective and among the network's hosts without the hub's own, wg0.conf is well-formed, and every peer of it belongs
   to a registered site and carries the address allocated to that name.
   */
  lemma {:induction false} EveryRunKeeps(net: Network, h: Hub, calls: seq<Call>)
    requires Inv(net, h) && FairCalls(net, h, calls)
    ensures Inv(net, AfterCalls(net, h, calls))
  {
    if calls != [] {
      EveryRunKeeps(net, h, calls[..|calls| - 1]);
      CallKeeps(net, AfterCalls(net, h, calls[..|calls| - 1]), calls[|calls| - 1]);
    }
  }

  /** A run that stops inside a retirement, of a site whose pattern matches its own lines only, strands nobody. */
  lemma StoppedRetirementIsFair(net: Network, h: Hub, name: string, o: Outcome)
    requires Inv(net, h) && Precise(h, name) && InSequence(o)
    ensures Fair(h, Retire(name, o))
  {
    PreciseRetireKeepsIff(net, h, name, "", o);
    RetireKeepsIff(net, h, name, "", o);
  }

  /** The empty hub, where every run starts. */
  lemma EmptyHub(net: Network)
    ensures Inv(net, Hub([], [], [], [], [], map[], {}))
  {
    HeaderOnly([]);
  }

  /** A site whose line the pattern of another name matches loses its line, and its peer is stranded. */
  lemma MatchStrands(net: Network, h: Hub, name: string, other: Peer, cidr: string)
    requires Inv(net, h) && other in ReadPeers(h.conf) && other.name != name
    requires forall l: Line :: |l| >= 2 && l[0] == other.name ==> SedMatches(name, l)
    ensures !Inv(net, Retired(h, name, cidr, ALL))
  {
    RetireKeepsIff(net, h, name, cidr, ALL);
    PeersOkMeans(h.sites, h.alloc, ReadPeers(h.conf));
    FieldsMeans(h.sites, 2, 2);
    var i :| 0 <= i < |h.sites| && FieldIs(h.sites[i], 0, other.name);
    assert h.sites[i] in h.sites;
    assert Strands(h, name, ALL, other);
  }

  /**
   The dot: retiring "a.b" deletes the lines of the site "axb" as well, and so strands its peer, though every command
   took effect.
   */
  lemma DottedNameStrands(net: Network, h: Hub, name: string, other: Peer, cidr: string)
    requires Inv(net, h) && other in ReadPeers(h.conf) && other.name != name && |other.name| == |name|
    requires Bre.Simple(name) && Bre.Fits(name, other.name)
    ensures !Inv(net, Retired(h, name, cidr, ALL))
  {
    forall l: Line | |l| >= 2 && l[0] == other.name ensures SedMatches(name, l) { DottedNameMatches(name, l); }
    MatchStrands(net, h, name, other, cidr);
  }

  /**
   The star: retiring "ab*" leaves its own line in the registry, and deletes the lines of "a", "ab", "abb" and so on,
   whose peers are stranded.
   */
  lemma StarredNameStrands(net: Network, h: Hub, stem: string, c: char, cidr: string)
    requires Inv(net, h) && PlainName(stem) && c !in Bre.SPECIAL && c != ' '
    ensures var name := Starred(stem, c); var after := Retired(h, name, cidr, ALL);
            && (HasKey(h.sites, 0, name) ==> HasKey(after.sites, 0, name))
            && forall n: nat :: HasPeer(ReadPeers(h.conf), stem + Bre.Repeated(c, n)) ==> !Inv(net, after)
  {
    var name := Starred(stem, c);
    StarredKeepsOwn(h.sites, stem, c);
    RetiredParts(h, name, cidr, ALL);
    forall n: nat | HasPeer(ReadPeers(h.conf), stem + Bre.Repeated(c, n))
      ensures !Inv(net, Retired(h, name, cidr, ALL))
    {
      var i :| 0 <= i < |ReadPeers(h.conf)| && ReadPeers(h.conf)[i].name == stem + Bre.Repeated(c, n);
      var other := ReadPeers(h.conf)[i];
      forall l: Line | |l| >= 2 && l[0] == other.name ensures SedMatches(name, l) { StarredNameMatches(stem, c, n, l); }
      StarredIsOther(stem, c, n);
      MatchStrands(net, h, name, other, cidr);
    }
  }

  lemma StarredIsOther(stem: string, c: char, n: nat)
    requires c != '*'
    ensures stem + Bre.Repeated(c, n) != Starred(stem, c)
  {
    assert Starred(stem, c)[|stem| + 1] == '*';
  }

  lemma StarredKeepsOwn(lines: seq<Line>, stem: string, c: char)
    requires PlainName(stem) && c !in Bre.SPECIAL && c != ' ' && Fields(lines, 2, 2)
    ensures HasKey(lines, 0, Starred(stem, c)) ==> HasKey(SedDelete(lines, Starred(stem, c)), 0, Starred(stem, c))
  {
    var name := Starred(stem, c);
    FieldsMeans(lines, 2, 2);
    InLines(lines, 0, name);
    InLines(SedDelete(lines, name), 0, name);
    if l :| l in lines && FieldIs(l, 0, name) { StarredNameMatches(stem, c, 0, l); }
  }
}
