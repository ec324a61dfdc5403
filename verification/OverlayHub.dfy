/**
 The overlay hub as its commands see it: four registries of lines, wg0.conf, the live peers and the kernel routes.

 Every function of the program is a plan of commands computed from what it reads; a run may stop after any command, and
 a command that is not checked may fail without stopping it. A registry line is taken by its fields, as str.split()
 gives them; its text joins them with one blank.
 */
module OverlayHub {
  import Bre
  import opened Ipv4
  import LivePeers
  import opened Plans
  import opened Text
  import opened WgConf
  import opened Wrappers

  type Line = seq<string>

  /** live: the public keys of the running interface and the addresses routed to each. */
  datatype Hub = Hub(alloc: seq<Line>, sites: seq<Line>, nodes: seq<Line>, dns: seq<Line>, conf: Lines,
                     live: map<string, set<string>>, routes: set<string>)

  // ----- registries -----

  predicate FieldIs(line: Line, k: nat, v: string) {
    |line| > k && line[k] == v
  }

  predicate HasKey(lines: seq<Line>, k: nat, v: string) {
    exists i :: 0 <= i < |lines| && FieldIs(lines[i], k, v)
  }

  /** Every line has the field, and no two share it. */
  predicate UniqueAt(lines: seq<Line>, k: nat) {
    lines == [] ||
    var n := |lines| - 1;
    UniqueAt(lines[..n], k) && |lines[n]| > k && !HasKey(lines[..n], k, lines[n][k])
  }

  function Filter(lines: seq<Line>, keep: Line -> bool): (r: seq<Line>)
    ensures forall l :: l in r <==> l in lines && keep(l)
  {
    if lines == [] then []
    else
      var n := |lines| - 1;
      Filter(lines[..n], keep) + if keep(lines[n]) then [lines[n]] else []
  }

  /** The line of that key replaced, or added, at the end. */
  function Upsert(lines: seq<Line>, k: nat, v: string, line: Line): seq<Line> {
    Filter(lines, l => !FieldIs(l, k, v)) + [line]
  }

  /** The same, dropping blank lines. */
  function UpsertTidy(lines: seq<Line>, k: nat, v: string, line: Line): seq<Line> {
    Filter(lines, l => !FieldIs(l, k, v) && l != []) + [line]
  }

  /** The fields of a line that is written from these parts, with blanks between them. */
  function LineOf(parts: seq<string>): Line {
    Words(Join(parts))
  }

  /** The basic regular expression "^name " matches the line's text: the name is not escaped. */
  predicate SedMatches(name: string, line: Line) {
    Bre.Matches(name + " ", Join(line))
  }

  /** sed -i "/^name /d" */
  function SedDelete(lines: seq<Line>, name: string): seq<Line> {
    Filter(lines, l => !SedMatches(name, l))
  }

  /** The host stands between two blanks. */
  predicate MiddleField(line: Line, host: string) {
    exists i :: 0 < i < |line| - 1 && line[i] == host
  }

  /** sed -i "/[[:space:]]host[[:space:]]/d", the host's dots escaped */
  function Forgotten(nodes: seq<Line>, host: string): seq<Line> {
    Filter(nodes, l => !MiddleField(l, host))
  }

  // ----- commands -----

  datatype Command =
    | AppendAlloc(line: Line)
    | WriteSites(lines: seq<Line>)
    | WriteNodes(lines: seq<Line>)
    | WriteDns(lines: seq<Line>)
    | WriteConf(conf: Lines)
    | AppendConf(peer: Peer)
    | WgSet(key: string, allowed: set<string>)
    | RouteReplace(cidr: string)
    | RouteDel(cidr: string)
    | RemovePeer(name: string)
    | SedSites(name: string) | SedAlloc(name: string) | SedNodes(name: string) | SedDns(name: string)

  function Exec(h: Hub, c: Command): Hub {
    match c
    case AppendAlloc(line) => h.(alloc := h.alloc + [line])
    case WriteSites(lines) => h.(sites := lines)
    case WriteNodes(lines) => h.(nodes := lines)
    case WriteDns(lines) => h.(dns := lines)
    case WriteConf(conf) => h.(conf := conf)
    case AppendConf(peer) => h.(conf := Append(h.conf, peer))
    case WgSet(key, allowed) => h.(live := LivePeers.Claim(h.live, key, allowed))
    case RouteReplace(cidr) => h.(routes := h.routes + {cidr})
    case RouteDel(cidr) => h.(routes := h.routes - {cidr})
    case RemovePeer(name) => h.(conf := Remove(h.conf, name), live := h.live - {KeyOf(h.conf, name)})
    case SedSites(name) => h.(sites := SedDelete(h.sites, name))
    case SedAlloc(name) => h.(alloc := SedDelete(h.alloc, name))
    case SedNodes(name) => h.(nodes := SedDelete(h.nodes, name))
    case SedDns(name) => h.(dns := SedDelete(h.dns, name))
  }

  // ----- plans -----

  function HubAddress(net: Network): nat {
    net.base + 1
  }

  /** The second field of the last line of that name: a later line of a name overrides an earlier one. */
  function LookupLast(alloc: seq<Line>, name: string): Option<string> {
    if alloc == [] then None
    else
      var last := alloc[|alloc| - 1];
      if |last| == 2 && last[0] == name then Some(last[1]) else LookupLast(alloc[..|alloc| - 1], name)
  }

  function UsedIps(net: Network, alloc: seq<Line>): set<string> {
    {ShowAddress(HubAddress(net))} + set i | 0 <= i < |alloc| && |alloc[i]| == 2 :: alloc[i][1]
  }

  function FirstFree(hosts: seq<nat>, used: set<string>): Option<string> {
    if hosts == [] then None
    else if ShowAddress(hosts[0]) !in used then Some(ShowAddress(hosts[0]))
    else FirstFree(hosts[1..], used)
  }

  /** _allocate_overlay_ip(): the name's address, or None when the network is exhausted */
  function AllocatedIp(net: Network, alloc: seq<Line>, name: string): Option<string> {
    if LookupLast(alloc, name).Some? then LookupLast(alloc, name) else FirstFree(net.Hosts(), UsedIps(net, alloc))
  }

  function AllocPlan(net: Network, alloc: seq<Line>, name: string): seq<Command>
    requires AllocatedIp(net, alloc, name).Some?
  {
    if LookupLast(alloc, name).Some? then [] else [AppendAlloc(LineOf([name, AllocatedIp(net, alloc, name).value]))]
  }

  function SitePlan(h: Hub, name: string, cidr: string): seq<Command> {
    [WriteSites(Upsert(h.sites, 0, name, LineOf([name, cidr])))]
  }

  function PeerOf(name: string, key: string, ip: string, cidr: string): Peer {
    Peer(name, key, ip + "/32," + cidr)
  }

  /** add_peer_to_hub(); asked says whether the query for the marker got through */
  function PeerPlan(h: Hub, name: string, key: string, ip: string, cidr: string, asked: bool): seq<Command> {
    (if asked && FirstLine(h.conf, Marker(name)).Some? then [] else [AppendConf(PeerOf(name, key, ip, cidr))])
    + SetPlan(key, ip, cidr)
  }

  /** The peer is set live and its addresses are routed. */
  function SetPlan(key: string, ip: string, cidr: string): seq<Command> {
    [WgSet(key, {ip + "/32", cidr}), RouteReplace(ip + "/32"), RouteReplace(cidr)]
  }

  /** ensure_overlay_site_gateway(): the commands on the hub */
  function JoinPlan(h: Hub, net: Network, name: string, cidr: string, key: string, asked: bool): seq<Command>
    requires AllocatedIp(net, h.alloc, name).Some?
  {
    AllocPlan(net, h.alloc, name) + SitePlan(h, name, cidr)
    + PeerPlan(h, name, key, AllocatedIp(net, h.alloc, name).value, cidr, asked)
  }

  function NodePlan(h: Hub, site: string, host: string, gateway: string): seq<Command> {
    [WriteNodes(UpsertTidy(h.nodes, 1, host, LineOf([site, host, gateway])))]
  }

  /** The parts that are not empty. */
  function DnsParts(site: string, ip: string, domain: string): seq<string> {
    (if site == "" then [] else [site]) + (if ip == "" then [] else [ip]) + (if domain == "" then [] else [domain])
  }

  function DnsLine(site: string, ip: string, domain: string): Line {
    LineOf(DnsParts(site, ip, domain))
  }

  function DnsPlan(h: Hub, site: string, ip: string, domain: string): seq<Command> {
    [WriteDns(UpsertTidy(h.dns, 0, site, DnsLine(site, ip, domain)))]
  }

  /** The first part of ensure_overlay_hub_ready(); asked says whether the test for the file got through */
  function HeaderPlan(h: Hub, header: Lines, asked: bool): seq<Command> {
    if asked && h.conf != [] then [] else [WriteConf(header)]
  }

  /** The hub's own site, when its name and its network are given. */
  function OwnPlan(h: Hub, name: string, cidr: string): seq<Command> {
    if name == "" || cidr == "" then [] else SitePlan(h, name, cidr)
  }

  /** ensure_overlay_hub_ready() */
  function ReadyPlan(h: Hub, header: Lines, asked: bool, name: string, cidr: string): seq<Command> {
    HeaderPlan(h, header, asked) + OwnPlan(h, name, cidr)
  }

  /** The site's network as the registry has it, "" for none. */
  function SiteCidr(sites: seq<Line>, name: string): string {
    if LookupLast(sites, name).Some? then LookupLast(sites, name).value else ""
  }

  predicate Registered(sites: seq<Line>, name: string) {
    SiteCidr(sites, name) != ""
  }

  /** Which of the commands of a retirement took effect; none of them is checked. */
  datatype Outcome = Outcome(peer: bool, route: bool, sites: bool, alloc: bool, nodes: bool, dns: bool)

  /** retire_site(), before the nodes are refreshed: the peer and the route of the CIDR, then the four registries */
  function Retired(h: Hub, name: string, cidr: string, o: Outcome): Hub {
    RetiredLines(RetiredPeer(h, name, cidr, o), name, o)
  }

  function RetiredPeer(h: Hub, name: string, cidr: string, o: Outcome): Hub {
    var h1 := if o.peer then Exec(h, RemovePeer(name)) else h;
    if o.route then Exec(h1, RouteDel(cidr)) else h1
  }

  function RetiredLines(h: Hub, name: string, o: Outcome): Hub {
    var h1 := if o.sites then Exec(h, SedSites(name)) else h;
    var h2 := if o.alloc then Exec(h1, SedAlloc(name)) else h1;
    var h3 := if o.nodes then Exec(h2, SedNodes(name)) else h2;
    if o.dns then Exec(h3, SedDns(name)) else h3
  }

  // ----- the invariant of every run -----

  /** An address the overlay may hand out: a usable host of its network other than the hub. */
  predicate Hosted(net: Network, ip: string) {
    exists a :: a in net.Hosts() && a != HubAddress(net) && ip == ShowAddress(a)
  }

  predicate FieldsOf(line: Line, lo: nat, hi: nat) {
    lo <= |line| <= hi && AllWords(line)
  }

  /** Every line has between lo and hi fields, each a word. */
  predicate Fields(lines: seq<Line>, lo: nat, hi: nat) {
    lines == [] || (Fields(lines[..|lines| - 1], lo, hi) && FieldsOf(lines[|lines| - 1], lo, hi))
  }

  predicate AllHosted(net: Network, alloc: seq<Line>)
    requires Fields(alloc, 2, 2)
  {
    alloc == [] || (AllHosted(net, alloc[..|alloc| - 1]) && Hosted(net, alloc[|alloc| - 1][1]))
  }

  /** Allocations: injective in name and address, each to a host of the network, none to the hub's own address. */
  predicate AllocOk(net: Network, alloc: seq<Line>) {
    UniqueAt(alloc, 0) && UniqueAt(alloc, 1) && Fields(alloc, 2, 2) && AllHosted(net, alloc)
  }

  predicate SitesOk(sites: seq<Line>) {
    UniqueAt(sites, 0) && Fields(sites, 2, 2)
  }

  predicate NodesOk(nodes: seq<Line>) {
    UniqueAt(nodes, 1) && Fields(nodes, 3, 3)
  }

  predicate DnsOk(dns: seq<Line>) {
    UniqueAt(dns, 0) && Fields(dns, 1, 3)
  }

  /** The peer's site is registered, and its first address is the one allocated to its name. */
  predicate PeerOk(sites: seq<Line>, alloc: seq<Line>, p: Peer) {
    HasKey(sites, 0, p.name) && exists i :: 0 <= i < |alloc| && Allocates(alloc[i], p)
  }

  predicate Allocates(line: Line, p: Peer) {
    |line| == 2 && line[0] == p.name && (line[1] + "/32,") <= p.allowed
  }

  predicate PeersOk(sites: seq<Line>, alloc: seq<Line>, peers: seq<Peer>) {
    peers == [] ||
    (PeersOk(sites, alloc, peers[..|peers| - 1]) && PeerOk(sites, alloc, peers[|peers| - 1]))
  }

  ghost predicate Inv(net: Network, h: Hub) {
    && AllocOk(net, h.alloc) && SitesOk(h.sites) && NodesOk(h.nodes) && DnsOk(h.dns)
    && WellFormed(h.conf) && PeersOk(h.sites, h.alloc, ReadPeers(h.conf))
  }

  // ----- lines -----

  lemma InLines(lines: seq<Line>, k: nat, v: string)
    ensures HasKey(lines, k, v) <==> exists l :: l in lines && FieldIs(l, k, v)
  {
    if l :| l in lines && FieldIs(l, k, v) {
      var i :| 0 <= i < |lines| && lines[i] == l;
    }
  }

  lemma {:induction false} FilterUnique(lines: seq<Line>, keep: Line -> bool, k: nat)
    requires UniqueAt(lines, k)
    ensures UniqueAt(Filter(lines, keep), k)
  {
    if lines != [] {
      var n := |lines| - 1;
      var init, last := lines[..n], lines[n];
      FilterUnique(init, keep, k);
      var kept := Filter(init, keep);
      if keep(last) {
        assert (kept + [last])[..|kept|] == kept;
        InLines(kept, k, last[k]);
        InLines(init, k, last[k]);
      } else {
        assert kept + [] == kept;
      }
    }
  }

  lemma SnocUnique(lines: seq<Line>, line: Line, k: nat)
    requires UniqueAt(lines, k) && |line| > k && !HasKey(lines, k, line[k])
    ensures UniqueAt(lines + [line], k)
  {
    assert (lines + [line])[..|lines|] == lines;
  }

  lemma {:induction false} FilterSame(lines: seq<Line>, f: Line -> bool, g: Line -> bool)
    requires forall l :: l in lines ==> f(l) == g(l)
    ensures Filter(lines, f) == Filter(lines, g)
  {
    if lines != [] {
      var n := |lines| - 1;
      assert lines[n] in lines;
      FilterSame(lines[..n], f, g);
    }
  }

  lemma {:induction false} UniqueMeans(lines: seq<Line>, k: nat)
    requires UniqueAt(lines, k)
    ensures forall l :: l in lines ==> |l| > k
    ensures forall l, m :: l in lines && m in lines && l[k] == m[k] ==> l == m
  {
    if lines != [] {
      var n := |lines| - 1;
      UniqueMeans(lines[..n], k);
      InLines(lines[..n], k, lines[n][k]);
      forall l | l in lines ensures l in lines[..n] || l == lines[n] {}
    }
  }

  /** After an upsert there is exactly one line of the key, the new one, and the lines of other keys stay. */
  lemma UpsertReplaces(lines: seq<Line>, k: nat, v: string, line: Line)
    requires UniqueAt(lines, k) && FieldIs(line, k, v)
    ensures UniqueAt(Upsert(lines, k, v, line), k) && UniqueAt(UpsertTidy(lines, k, v, line), k)
    ensures forall l :: l in Upsert(lines, k, v, line) <==> l == line || (l in lines && !FieldIs(l, k, v))
    ensures UpsertTidy(lines, k, v, line) == Upsert(lines, k, v, line)
  {
    var keep: Line -> bool := l => !FieldIs(l, k, v);
    var tidy: Line -> bool := l => !FieldIs(l, k, v) && l != [];
    FilterUnique(lines, keep, k);
    InLines(Filter(lines, keep), k, v);
    SnocUnique(Filter(lines, keep), line, k);
    UniqueMeans(lines, k);
    FilterSame(lines, keep, tidy);
  }

  lemma {:induction false} FieldsMeans(lines: seq<Line>, lo: nat, hi: nat)
    ensures Fields(lines, lo, hi) <==> forall l :: l in lines ==> FieldsOf(l, lo, hi)
  {
    if lines != [] {
      var n := |lines| - 1;
      FieldsMeans(lines[..n], lo, hi);
      assert lines[n] in lines;
      forall l | l in lines ensures l in lines[..n] || l == lines[n] {}
    }
  }

  lemma {:induction false} AllHostedMeans(net: Network, alloc: seq<Line>)
    requires Fields(alloc, 2, 2)
    ensures AllHosted(net, alloc) <==> forall l :: l in alloc ==> |l| == 2 && Hosted(net, l[1])
  {
    if alloc != [] {
      var n := |alloc| - 1;
      FieldsMeans(alloc, 2, 2);
      AllHostedMeans(net, alloc[..n]);
      assert alloc[n] in alloc;
      forall l | l in alloc ensures l in alloc[..n] || l == alloc[n] {}
    }
  }

  lemma {:induction false} PeersOkMeans(sites: seq<Line>, alloc: seq<Line>, peers: seq<Peer>)
    ensures PeersOk(sites, alloc, peers) <==> forall p :: p in peers ==> PeerOk(sites, alloc, p)
  {
    if peers != [] {
      var n := |peers| - 1;
      PeersOkMeans(sites, alloc, peers[..n]);
      assert peers[n] in peers;
      forall p | p in peers ensures p in peers[..n] || p == peers[n] {}
    }
  }

  /** What an upsert makes of a registry. */
  lemma UpsertFields(lines: seq<Line>, k: nat, v: string, line: Line, lo: nat, hi: nat)
    requires Fields(lines, lo, hi) && FieldsOf(line, lo, hi)
    ensures Fields(Upsert(lines, k, v, line), lo, hi) && Fields(UpsertTidy(lines, k, v, line), lo, hi)
  {
    FieldsMeans(lines, lo, hi);
    FieldsMeans(Upsert(lines, k, v, line), lo, hi);
    FieldsMeans(UpsertTidy(lines, k, v, line), lo, hi);
  }

  lemma FilterFields(lines: seq<Line>, keep: Line -> bool, lo: nat, hi: nat)
    requires Fields(lines, lo, hi)
    ensures Fields(Filter(lines, keep), lo, hi)
  {
    FieldsMeans(lines, lo, hi);
    FieldsMeans(Filter(lines, keep), lo, hi);
  }

  /** Parts that are words are the fields of the line written from them. */
  lemma WordLine(parts: seq<string>)
    requires AllWords(parts)
    ensures LineOf(parts) == parts
  {
    WordsOfJoin(parts);
  }

  lemma WordPair(a: string, b: string)
    requires IsWord(a) && IsWord(b)
    ensures LineOf([a, b]) == [a, b] && FieldsOf([a, b], 2, 2)
  {
    WordLine([a, b]);
  }

  // ----- allocation -----

  lemma {:induction false} LookupFinds(alloc: seq<Line>, name: string)
    requires Fields(alloc, 2, 2)
    ensures LookupLast(alloc, name).Some? <==> HasKey(alloc, 0, name)
    ensures LookupLast(alloc, name).Some? ==> [name, LookupLast(alloc, name).value] in alloc
  {
    if alloc != [] {
      var n := |alloc| - 1;
      LookupFinds(alloc[..n], name);
      InLines(alloc, 0, name);
      InLines(alloc[..n], 0, name);
      assert alloc[n] in alloc;
      if alloc[n][0] == name {
        assert FieldIs(alloc[n], 0, name);
        assert alloc[n] == [name, alloc[n][1]];
      } else {
        forall l | l in alloc ensures l in alloc[..n] || l == alloc[n] {}
      }
    }
  }

  lemma {:induction false} FirstFreeIsFree(hosts: seq<nat>, used: set<string>)
    ensures match FirstFree(hosts, used)
            case Some(ip) => ip !in used && exists a :: a in hosts && ip == ShowAddress(a)
            case None => forall a :: a in hosts ==> ShowAddress(a) in used
  {
    if hosts != [] {
      FirstFreeIsFree(hosts[1..], used);
      if ShowAddress(hosts[0]) in used {
        forall a | a in hosts ensures a == hosts[0] || a in hosts[1..] {}
        if a :| a in hosts[1..] && FirstFree(hosts[1..], used) == Some(ShowAddress(a)) { assert a in hosts; }
      } else {
        assert hosts[0] in hosts;
      }
    }
  }

  /**
   The address a name gets is on a line of the name, or a host of the network that no line holds and that is not the
   hub's own. There is none exactly when the name has no line and every host is taken.
   */
  lemma AllocationGives(net: Network, alloc: seq<Line>, name: string)
    requires AllocOk(net, alloc)
    ensures match AllocatedIp(net, alloc, name)
            case Some(ip) =>
              IsWord(ip) && (if HasKey(alloc, 0, name) then [name, ip] in alloc
                             else Hosted(net, ip) && !HasKey(alloc, 1, ip))
            case None =>
              !HasKey(alloc, 0, name) && forall a :: a in net.Hosts() ==> ShowAddress(a) in UsedIps(net, alloc)
  {
    LookupFinds(alloc, name);
    FieldsMeans(alloc, 2, 2);
    var used := UsedIps(net, alloc);
    FirstFreeIsFree(net.Hosts(), used);
    var given := AllocatedIp(net, alloc, name);
    if given.Some? && HasKey(alloc, 0, name) {
      assert FieldsOf([name, given.value], 2, 2) && [name, given.value][1] == given.value;
    }
    if LookupLast(alloc, name) == None {
      match FirstFree(net.Hosts(), used) {
        case None =>
        case Some(ip) =>
          var a :| a in net.Hosts() && ip == ShowAddress(a);
          AddressIsWord(a);
          InLines(alloc, 1, ip);
          forall l | l in alloc ensures l[1] in used {
            var i :| 0 <= i < |alloc| && alloc[i] == l;
          }
          assert ShowAddress(HubAddress(net)) in used;
      }
    }
  }

  /** The text stands as an address on a line. */
  predicate OnLine(alloc: seq<Line>, ip: string) {
    exists l :: l in alloc && |l| == 2 && l[1] == ip
  }

  /** An address the overlay gives to sites: usable, and not the second one of the network, which is the hub's. */
  predicate ForSites(base: nat, size: nat, a: nat) {
    Usable(base, size, a) && a != base + 1
  }

  /** The lowest such address that is on no line. */
  predicate LowestFree(base: nat, size: nat, alloc: seq<Line>, a: nat) {
    && ForSites(base, size, a) && !OnLine(alloc, ShowAddress(a))
    && forall b: nat :: b < a && ForSites(base, size, b) ==> OnLine(alloc, ShowAddress(b))
  }

  lemma {:induction false} FirstFreeIsFirst(hosts: seq<nat>, used: set<string>, i: nat)
    requires i < |hosts| && ShowAddress(hosts[i]) !in used && forall j :: 0 <= j < i ==> ShowAddress(hosts[j]) in used
    ensures FirstFree(hosts, used) == Some(ShowAddress(hosts[i]))
  {
    if i > 0 {
      assert hosts[0] in hosts;
      FirstFreeIsFirst(hosts[1..], used, i - 1);
    }
  }

  lemma UsedMeans(net: Network, alloc: seq<Line>, a: nat)
    requires a < 0x1_0000_0000 && net.base + 1 < 0x1_0000_0000
    ensures ShowAddress(a) in UsedIps(net, alloc) <==> a == net.base + 1 || OnLine(alloc, ShowAddress(a))
  {
    ParseShown(a);
    ParseShown(net.base + 1);
    if l :| l in alloc && |l| == 2 && l[1] == ShowAddress(a) {
      var i :| 0 <= i < |alloc| && alloc[i] == l;
    }
  }

  /**
   An unknown name is given the lowest address of the network that is on no line, between the hub's own and the last one
   when the network has more than two; and none exactly when all of these are on lines.
   */
  lemma UnknownGetsLowest(net: Network, alloc: seq<Line>, name: string)
    requires net.size > 1 && LookupLast(alloc, name) == None
    ensures forall a: nat :: LowestFree(net.base, net.size, alloc, a) ==>
              && AllocatedIp(net, alloc, name) == Some(ShowAddress(a))
              && (net.size > 2 ==> net.base + 1 < a < net.base + net.size - 1)
    ensures AllocatedIp(net, alloc, name) == None <==>
            forall a: nat :: ForSites(net.base, net.size, a) ==> OnLine(alloc, ShowAddress(a))
    ensures AllocatedIp(net, alloc, name).Some? ==>
              exists a: nat :: LowestFree(net.base, net.size, alloc, a)
                               && AllocatedIp(net, alloc, name) == Some(ShowAddress(a))
  {
    forall a: nat | LowestFree(net.base, net.size, alloc, a)
      ensures AllocatedIp(net, alloc, name) == Some(ShowAddress(a))
    {
      LowestIsGiven(net, alloc, a);
    }
    if AllocatedIp(net, alloc, name) == None {
      forall a: nat | ForSites(net.base, net.size, a) ensures OnLine(alloc, ShowAddress(a)) {
        AllAreTaken(net, alloc, a);
      }
    } else {
      var a := GivenIsLowest(net, alloc);
    }
  }

  /** Among the hosts, those in use are the hub's own and those on lines. */
  lemma HostsInUse(net: Network, alloc: seq<Line>)
    requires net.size > 1
    ensures forall a :: a in net.Hosts() ==>
              (ShowAddress(a) in UsedIps(net, alloc) <==> a == net.base + 1 || OnLine(alloc, ShowAddress(a)))
  {
    forall a | a in net.Hosts()
      ensures ShowAddress(a) in UsedIps(net, alloc) <==> a == net.base + 1 || OnLine(alloc, ShowAddress(a))
    {
      UsedMeans(net, alloc, a);
    }
  }

  lemma LowestIsGiven(net: Network, alloc: seq<Line>, a: nat)
    requires net.size > 1 && LowestFree(net.base, net.size, alloc, a)
    ensures FirstFree(net.Hosts(), UsedIps(net, alloc)) == Some(ShowAddress(a))
  {
    var hosts := net.Hosts();
    HostsInUse(net, alloc);
    HostsAreUsable(net, a);
    var i :| 0 <= i < |hosts| && hosts[i] == a;
    forall j | 0 <= j < i ensures ShowAddress(hosts[j]) in UsedIps(net, alloc) {
      assert hosts[j] in hosts;
      HostsAreUsable(net, hosts[j]);
    }
    FirstFreeIsFirst(hosts, UsedIps(net, alloc), i);
  }

  lemma AllAreTaken(net: Network, alloc: seq<Line>, a: nat)
    requires net.size > 1 && FirstFree(net.Hosts(), UsedIps(net, alloc)) == None && ForSites(net.base, net.size, a)
    ensures OnLine(alloc, ShowAddress(a))
  {
    HostsAreUsable(net, a);
    HostsInUse(net, alloc);
    FirstFreeIsFree(net.Hosts(), UsedIps(net, alloc));
  }

  lemma GivenIsLowest(net: Network, alloc: seq<Line>) returns (a: nat)
    requires net.size > 1 && FirstFree(net.Hosts(), UsedIps(net, alloc)).Some?
    ensures LowestFree(net.base, net.size, alloc, a)
    ensures FirstFree(net.Hosts(), UsedIps(net, alloc)) == Some(ShowAddress(a))
  {
    var hosts := net.Hosts();
    HostsInUse(net, alloc);
    FirstFreeIsFree(hosts, UsedIps(net, alloc));
    var b :| b in hosts && ShowAddress(b) !in UsedIps(net, alloc);
    var i :| 0 <= i < |hosts| && hosts[i] == b;
    var first := FirstUnusedAt(hosts, UsedIps(net, alloc), i);
    a := hosts[first];
    assert a in hosts;
    HostsAreUsable(net, a);
    forall c: nat | c < a && ForSites(net.base, net.size, c) ensures OnLine(alloc, ShowAddress(c)) {
      HostsAreUsable(net, c);
      var j :| 0 <= j < |hosts| && hosts[j] == c;
      assert j < first;
    }
    FirstFreeIsFirst(hosts, UsedIps(net, alloc), first);
  }

  lemma FirstUnusedAt(hosts: seq<nat>, used: set<string>, i: nat) returns (first: nat)
    requires i < |hosts| && ShowAddress(hosts[i]) !in used
    ensures first <= i && ShowAddress(hosts[first]) !in used && forall j :: 0 <= j < first ==>
            ShowAddress(hosts[j]) in used
  {
    if j :| 0 <= j < i && ShowAddress(hosts[j]) !in used {
      first := FirstUnusedAt(hosts, used, j); } else { first := i;
    }
  }

  /** A new line for the name keeps the allocations injective and within the network. */
  lemma AllocationKeeps(net: Network, alloc: seq<Line>, name: string)
    requires AllocOk(net, alloc) && AllocatedIp(net, alloc, name).Some? && !HasKey(alloc, 0, name) && IsWord(name)
    ensures AllocOk(net, alloc + [[name, AllocatedIp(net, alloc, name).value]])
  {
    AllocationGives(net, alloc, name);
    var line := [name, AllocatedIp(net, alloc, name).value];
    SnocUnique(alloc, line, 0);
    SnocUnique(alloc, line, 1);
    assert (alloc + [line])[..|alloc|] == alloc;
  }

  // ----- plans whose every prefix keeps the invariant -----

  ghost function Holds(net: Network): Hub -> bool {
    h => Inv(net, h)
  }

  lemma OneSteady(net: Network, h: Hub, c: Command, next: Hub)
    requires Inv(net, h) && next == Exec(h, c) && Inv(net, next)
    ensures Steady(Holds(net), Exec, h, [c]) && Run(Exec, h, [c]) == next
  {
    One(Holds(net), Exec, h, c);
  }

  /** The invariant does not speak of the live peers and the routes. */
  predicate OnlyLive(c: Command) {
    c.WgSet? || c.RouteReplace? || c.RouteDel?
  }

  lemma LiveKeeps(net: Network, h: Hub, c: Command)
    requires Inv(net, h) && OnlyLive(c)
    ensures Inv(net, Exec(h, c))
  {
  }

  lemma {:induction false} LiveSteady(net: Network, h: Hub, plan: seq<Command>)
    requires Inv(net, h) && forall c :: c in plan ==> OnlyLive(c)
    ensures Steady(Holds(net), Exec, h, plan)
    decreases |plan|
  {
    if plan != [] {
      assert plan[0] in plan;
      LiveKeeps(net, h, plan[0]);
      LiveSteady(net, Exec(h, plan[0]), plan[1..]);
    }
  }

  /** More sites and more allocations leave the peers as they should be. */
  lemma PeersStayOk(sites: seq<Line>, alloc: seq<Line>, moreSites: seq<Line>, moreAlloc: seq<Line>, peers: seq<Peer>)
    requires PeersOk(sites, alloc, peers)
    requires forall name :: HasKey(sites, 0, name) ==> HasKey(moreSites, 0, name)
    requires forall l :: l in alloc ==> l in moreAlloc
    ensures PeersOk(moreSites, moreAlloc, peers)
  {
    PeersOkMeans(sites, alloc, peers);
    PeersOkMeans(moreSites, moreAlloc, peers);
    forall p | p in peers ensures PeerOk(moreSites, moreAlloc, p) {
      var i :| 0 <= i < |alloc| && Allocates(alloc[i], p);
      assert alloc[i] in moreAlloc;
      var j :| 0 <= j < |moreAlloc| && moreAlloc[j] == alloc[i];
    }
  }

  lemma AllocSteady(net: Network, h: Hub, name: string)
    requires Inv(net, h) && AllocatedIp(net, h.alloc, name).Some? && IsWord(name)
    ensures var plan := AllocPlan(net, h.alloc, name);
            && Steady(Holds(net), Exec, h, plan)
            && var after := Run(Exec, h, plan);
               after == h.(alloc := after.alloc) && [name, AllocatedIp(net, h.alloc, name).value] in after.alloc
  {
    AllocationGives(net, h.alloc, name);
    LookupFinds(h.alloc, name);
    if !HasKey(h.alloc, 0, name) {
      var line := [name, AllocatedIp(net, h.alloc, name).value];
      WordPair(name, line[1]);
      AllocationKeeps(net, h.alloc, name);
      PeersStayOk(h.sites, h.alloc, h.sites, h.alloc + [line], ReadPeers(h.conf));
      OneSteady(net, h, AppendAlloc(line), Exec(h, AppendAlloc(line)));
    }
  }

  lemma UpsertHas(lines: seq<Line>, k: nat, v: string, line: Line, w: string)
    requires FieldIs(line, k, v)
    ensures HasKey(Upsert(lines, k, v, line), k, w) <==> w == v || HasKey(lines, k, w)
  {
    var now := Upsert(lines, k, v, line);
    InLines(now, k, w);
    InLines(lines, k, w);
    assert line in now;
    if l :| l in lines && FieldIs(l, k, w) && w != v { assert l in now; }
  }

  lemma SiteSteady(net: Network, h: Hub, name: string, cidr: string)
    requires Inv(net, h) && IsWord(name) && IsWord(cidr)
    ensures var plan := SitePlan(h, name, cidr);
            && Steady(Holds(net), Exec, h, plan)
            && Run(Exec, h, plan) == h.(sites := Upsert(h.sites, 0, name, [name, cidr]))
            && HasKey(Run(Exec, h, plan).sites, 0, name)
  {
    var line := [name, cidr];
    var sites := Upsert(h.sites, 0, name, line);
    WordPair(name, cidr);
    UpsertReplaces(h.sites, 0, name, line);
    forall w
      ensures HasKey(sites, 0, w) <==> w == name || HasKey(h.sites, 0, w)
    {
      UpsertHas(h.sites, 0, name, line, w);
    }
    PeersStayOk(h.sites, h.alloc, sites, h.alloc, ReadPeers(h.conf));
    UpsertFields(h.sites, 0, name, line, 2, 2);
    OneSteady(net, h, WriteSites(sites), h.(sites := sites));
  }

  lemma PrefixOfPeer(name: string, key: string, ip: string, cidr: string)
    ensures (ip + "/32,") <= PeerOf(name, key, ip, cidr).allowed
  {
    assert PeerOf(name, key, ip, cidr).allowed == (ip + "/32,") + cidr;
  }

  lemma ConfKeeps(net: Network, h: Hub, conf: Lines)
    requires Inv(net, h) && WellFormed(conf) && PeersOk(h.sites, h.alloc, ReadPeers(conf))
    ensures Inv(net, h.(conf := conf))
  {
  }

  lemma OnePeerMore(sites: seq<Line>, alloc: seq<Line>, peers: seq<Peer>, p: Peer, line: Line)
    requires PeersOk(sites, alloc, peers) && HasKey(sites, 0, p.name) && line in alloc && Allocates(line, p)
    ensures PeersOk(sites, alloc, peers + [p])
  {
    var i :| 0 <= i < |alloc| && alloc[i] == line;
    assert PeerOk(sites, alloc, p);
    assert (peers + [p])[..|peers|] == peers;
  }

  lemma AppendSteady(net: Network, h: Hub, name: string, key: string, ip: string, cidr: string)
    requires Inv(net, h) && IsWord(key) && !HasPeer(ReadPeers(h.conf), name)
    requires HasKey(h.sites, 0, name) && [name, ip] in h.alloc
    ensures Inv(net, h.(conf := Append(h.conf, PeerOf(name, key, ip, cidr))))
  {
    var p := PeerOf(name, key, ip, cidr);
    AppendAdds(h.conf, p);
    PrefixOfPeer(name, key, ip, cidr);
    OnePeerMore(h.sites, h.alloc, ReadPeers(h.conf), p, [name, ip]);
    ConfKeeps(net, h, Append(h.conf, p));
  }

  lemma SetPlanSteady(net: Network, h: Hub, key: string, ip: string, cidr: string)
    requires Inv(net, h)
    ensures Steady(Holds(net), Exec, h, SetPlan(key, ip, cidr))
  {
    LiveSteady(net, h, SetPlan(key, ip, cidr));
  }

  lemma PeerSteady(net: Network, h: Hub, name: string, key: string, ip: string, cidr: string, asked: bool)
    requires Inv(net, h) && IsWord(key) && (asked || !HasPeer(ReadPeers(h.conf), name))
    requires HasKey(h.sites, 0, name) && [name, ip] in h.alloc
    ensures Steady(Holds(net), Exec, h, PeerPlan(h, name, key, ip, cidr, asked))
  {
    MarkerFinds(h.conf, name);
    var live := SetPlan(key, ip, cidr);
    if HasPeer(ReadPeers(h.conf), name) {
      assert [] + live == live;
      SetPlanSteady(net, h, key, ip, cidr);
    } else {
      NewPeerSteady(net, h, name, key, ip, cidr);
    }
  }

  lemma NewPeerSteady(net: Network, h: Hub, name: string, key: string, ip: string, cidr: string)
    requires Inv(net, h) && IsWord(key) && !HasPeer(ReadPeers(h.conf), name)
    requires HasKey(h.sites, 0, name) && [name, ip] in h.alloc
    ensures Steady(Holds(net), Exec, h, [AppendConf(PeerOf(name, key, ip, cidr))] + SetPlan(key, ip, cidr))
  {
    var p := PeerOf(name, key, ip, cidr);
    AppendSteady(net, h, name, key, ip, cidr);
    ConfSteady(net, h, AppendConf(p), Append(h.conf, p), SetPlan(key, ip, cidr));
  }

  /** One change of wg0.conf, and commands that only touch the running interface. */
  lemma ConfSteady(net: Network, h: Hub, c: Command, conf: Lines, live: seq<Command>)
    requires Inv(net, h) && Inv(net, h.(conf := conf)) && Exec(h, c) == h.(conf := conf)
    requires forall l :: l in live ==> OnlyLive(l)
    ensures Steady(Holds(net), Exec, h, [c] + live)
  {
    OneSteady(net, h, c, h.(conf := conf));
    LiveSteady(net, h.(conf := conf), live);
    Together(Holds(net), Exec, h, [c], live);
  }

  lemma SteadyEnd(net: Network, h: Hub, plan: seq<Command>)
    requires Steady(Holds(net), Exec, h, plan)
    ensures Inv(net, Run(Exec, h, plan))
  {
    SteadyMeans(Holds(net), Exec, h, plan, |plan|);
    assert plan[..|plan|] == plan;
  }

  /**
   A site's gateway joins, for the first time or again: wherever the run stops, the invariant holds. The one query it
   makes without checking must have got through, or the site must have no block yet.
   */
  lemma JoinSteady(net: Network, h: Hub, name: string, cidr: string, key: string, asked: bool)
    requires Inv(net, h) && IsWord(name) && IsWord(cidr) && IsWord(key) && AllocatedIp(net, h.alloc, name).Some?
    requires asked || !HasPeer(ReadPeers(h.conf), name)
    ensures Steady(Holds(net), Exec, h, JoinPlan(h, net, name, cidr, key, asked))
  {
    var ip := AllocatedIp(net, h.alloc, name).value;
    var first, second := AllocPlan(net, h.alloc, name), SitePlan(h, name, cidr);
    AllocSteady(net, h, name);
    var h1 := Run(Exec, h, first);
    SteadyEnd(net, h, first);
    SiteSteady(net, h1, name, cidr);
    var h2 := Run(Exec, h1, second);
    SteadyEnd(net, h1, second);
    PeerSteady(net, h2, name, key, ip, cidr, asked);
    ThreeTogether(Holds(net), Exec, h, first, second, PeerPlan(h2, name, key, ip, cidr, asked));
  }

  lemma NodesKeep(net: Network, h: Hub, lines: seq<Line>)
    requires Inv(net, h) && NodesOk(lines)
    ensures Inv(net, h.(nodes := lines))
  {
  }

  lemma DnsKeep(net: Network, h: Hub, lines: seq<Line>)
    requires Inv(net, h) && DnsOk(lines)
    ensures Inv(net, h.(dns := lines))
  {
  }

  lemma TidyOk(lines: seq<Line>, k: nat, v: string, line: Line, lo: nat, hi: nat)
    requires UniqueAt(lines, k) && Fields(lines, lo, hi) && FieldIs(line, k, v) && FieldsOf(line, lo, hi)
    ensures UniqueAt(UpsertTidy(lines, k, v, line), k) && Fields(UpsertTidy(lines, k, v, line), lo, hi)
  {
    UpsertReplaces(lines, k, v, line);
    UpsertFields(lines, k, v, line, lo, hi);
  }

  lemma NodeSteady(net: Network, h: Hub, site: string, host: string, gateway: string)
    requires Inv(net, h) && IsWord(site) && IsWord(host) && IsWord(gateway)
    ensures Steady(Holds(net), Exec, h, NodePlan(h, site, host, gateway))
  {
    var line := [site, host, gateway];
    var lines := UpsertTidy(h.nodes, 1, host, line);
    WordLine(line);
    TidyOk(h.nodes, 1, host, line, 3, 3);
    NodesKeep(net, h, lines);
    OneSteady(net, h, WriteNodes(lines), h.(nodes := lines));
  }

  lemma DnsLineOk(site: string, ip: string, domain: string)
    requires IsWord(site) && (ip == "" || IsWord(ip)) && (domain == "" || IsWord(domain))
    ensures FieldIs(DnsLine(site, ip, domain), 0, site) && FieldsOf(DnsLine(site, ip, domain), 1, 3)
  {
    WordLine(DnsParts(site, ip, domain));
  }

  lemma DnsSteady(net: Network, h: Hub, site: string, ip: string, domain: string)
    requires Inv(net, h) && IsWord(site) && (ip == "" || IsWord(ip)) && (domain == "" || IsWord(domain))
    ensures Steady(Holds(net), Exec, h, DnsPlan(h, site, ip, domain))
  {
    var line := DnsLine(site, ip, domain);
    var lines := UpsertTidy(h.dns, 0, site, line);
    DnsLineOk(site, ip, domain);
    TidyOk(h.dns, 0, site, line, 1, 3);
    DnsKeep(net, h, lines);
    OneSteady(net, h, WriteDns(lines), h.(dns := lines));
  }

  lemma ForgottenOk(nodes: seq<Line>, host: string)
    requires NodesOk(nodes)
    ensures NodesOk(Forgotten(nodes, host))
  {
    var keep: Line -> bool := l => !MiddleField(l, host);
    FilterUnique(nodes, keep, 1);
    FilterFields(nodes, keep, 3, 3);
    FilterSame(nodes, keep, l => !MiddleField(l, host));
  }

  lemma ForgetKeeps(net: Network, h: Hub, host: string)
    requires Inv(net, h)
    ensures Inv(net, h.(nodes := Forgotten(h.nodes, host)))
  {
    ForgottenOk(h.nodes, host);
    NodesKeep(net, h, Forgotten(h.nodes, host));
  }

  lemma {:induction false} FilterSnoc(lines: seq<Line>, line: Line, keep: Line -> bool)
    ensures Filter(lines + [line], keep) == Filter(lines, keep) + if keep(line) then [line] else []
  {
    assert (lines + [line])[..|lines|] == lines;
  }

  lemma {:induction false} FilterJoin(a: seq<Line>, b: seq<Line>, keep: Line -> bool)
    ensures Filter(a + b, keep) == Filter(a, keep) + Filter(b, keep)
    decreases |b|
  {
    if b == [] {
      assert a + b == a && Filter(a, keep) + [] == Filter(a, keep);
    } else {
      var init, last := b[..|b| - 1], b[|b| - 1];
      FilterJoin(a, init, keep);
      LastLine(a, b, init, last);
      FilterJoinLast(a, init, last, keep);
    }
  }

  lemma LastLine(a: seq<Line>, b: seq<Line>, init: seq<Line>, last: Line)
    requires b != [] && init == b[..|b| - 1] && last == b[|b| - 1]
    ensures b == init + [last] && a + b == a + (init + [last])
  {
  }

  lemma {:induction false} FilterJoinLast(a: seq<Line>, init: seq<Line>, last: Line, keep: Line -> bool)
    requires Filter(a + init, keep) == Filter(a, keep) + Filter(init, keep)
    ensures Filter(a + (init + [last]), keep) == Filter(a, keep) + Filter(init + [last], keep)
  {
    FilterSnoc(init, last, keep);
    FilterSnoc(a + init, last, keep);
    Reordered(a, init, [last]);
    Reordered(Filter(a, keep), Filter(init, keep), if keep(last) then [last] else []);
  }

  lemma {:induction false} FilterAll(lines: seq<Line>, keep: Line -> bool)
    requires forall l :: l in lines ==> keep(l)
    ensures Filter(lines, keep) == lines
  {
    if lines != [] {
      var n := |lines| - 1;
      FilterAll(lines[..n], keep);
      assert keep(lines[n]) && lines == lines[..n] + [lines[n]];
    }
  }

  /** A node forgotten: its own line goes and all others stay in their order; a host without a line changes nothing. */
  lemma ForgetsOneNode(before: seq<Line>, line: Line, after: seq<Line>, host: string)
    requires NodesOk(before + [line] + after) && FieldIs(line, 1, host)
    ensures Forgotten(before + [line] + after, host) == before + after
  {
    var nodes := before + [line] + after;
    FieldsMeans(nodes, 3, 3);
    UniqueMeans(nodes, 1);
    OthersDiffer(before, line, after, host);
    OwnLineGoes(before, line, after, host);
  }

  lemma {:induction false} OwnLineGoes(before: seq<Line>, line: Line, after: seq<Line>, host: string)
    requires MiddleField(line, host)
    requires forall l :: l in before + after ==> !MiddleField(l, host)
    ensures Forgotten(before + [line] + after, host) == before + after
  {
    var keep: Line -> bool := l => !MiddleField(l, host);
    FilterSame(before + [line] + after, keep, l => !MiddleField(l, host));
    FilterJoin(before + [line], after, keep);
    FilterJoin(before, [line], keep);
    FilterAll(before, keep);
    FilterAll(after, keep);
    assert [line][..0] == [] && Filter([], keep) == [];
    assert before + [] == before;
  }

  /** In a line of three fields the only middle one is the second. */
  lemma {:induction false} SecondIsMiddle(line: Line, host: string)
    requires |line| == 3
    ensures MiddleField(line, host) <==> line[1] == host
  {
  }

  /** Other lines of the registry name other hosts. */
  lemma {:induction false} OthersDiffer(before: seq<Line>, line: Line, after: seq<Line>, host: string)
    requires NodesOk(before + [line] + after) && FieldIs(line, 1, host)
    ensures MiddleField(line, host) && forall l :: l in before + after ==> !MiddleField(l, host)
  {
    var nodes := before + [line] + after;
    FieldsMeans(nodes, 3, 3);
    assert line in nodes;
    SecondIsMiddle(line, host);
    forall l | l in before + after ensures !MiddleField(l, host) {
      assert l in nodes;
      SecondIsMiddle(l, host);
      OnceAt(before, line, after, l);
    }
  }

  /** The host of a line stands on no line before or after it. */
  lemma {:induction false} OnceAt(before: seq<Line>, line: Line, after: seq<Line>, l: Line)
    requires UniqueAt(before + [line] + after, 1) && |line| > 1 && l in before + after
    ensures |l| > 1 && l[1] != line[1]
    decreases |after|
  {
    var nodes := before + [line] + after;
    UniqueMeans(nodes, 1);
    assert l in nodes;
    var n := |nodes| - 1;
    if after == [] {
      assert nodes[..n] == before && nodes[n] == line;
      InLines(before, 1, line[1]);
      assert FieldIs(l, 1, l[1]) && l in before;
    } else {
      var init, last := after[..|after| - 1], after[|after| - 1];
      assert nodes[..n] == before + [line] + init && nodes[n] == last;
      if l in before + init {
        OnceAt(before, line, init, l);
      } else {
        assert l == last && line in nodes[..n];
        InLines(nodes[..n], 1, last[1]);
        assert !FieldIs(line, 1, last[1]);
      }
    }
  }

  lemma ForgetsNoNode(nodes: seq<Line>, host: string)
    requires NodesOk(nodes) && forall l :: l in nodes ==> !FieldIs(l, 1, host)
    ensures Forgotten(nodes, host) == nodes
  {
    FieldsMeans(nodes, 3, 3);
    var keep: Line -> bool := l => !MiddleField(l, host);
    FilterSame(nodes, keep, l => !MiddleField(l, host));
    FilterAll(nodes, keep);
  }

  /** The hub is made ready, with its own site or without: wherever that stops, the invariant holds. */
  lemma ReadySteady(net: Network, h: Hub, header: Lines, asked: bool, name: string, cidr: string)
    requires Inv(net, h) && PlainLines(header) && (name == "" || cidr == "" || (IsWord(name) && IsWord(cidr)))
    ensures Steady(Holds(net), Exec, h, ReadyPlan(h, header, asked, name, cidr))
  {
    var next := if asked && h.conf != [] then h else h.(conf := header);
    HeaderSteady(net, h, header, asked, next);
    OwnSteady(net, next, name, cidr);
    Together(Holds(net), Exec, h, HeaderPlan(h, header, asked), OwnPlan(h, name, cidr));
  }

  lemma HeaderSteady(net: Network, h: Hub, header: Lines, asked: bool, next: Hub)
    requires Inv(net, h) && PlainLines(header) && next == if asked && h.conf != [] then h else h.(conf := header)
    ensures Steady(Holds(net), Exec, h, HeaderPlan(h, header, asked))
    ensures Run(Exec, h, HeaderPlan(h, header, asked)) == next && Inv(net, next)
  {
    if !(asked && h.conf != []) { HeaderKeeps(net, h, header, next); }
  }

  lemma HeaderKeeps(net: Network, h: Hub, header: Lines, next: Hub)
    requires Inv(net, h) && PlainLines(header) && next == h.(conf := header)
    ensures Steady(Holds(net), Exec, h, [WriteConf(header)])
    ensures Run(Exec, h, [WriteConf(header)]) == next && Inv(net, next)
  {
    HeaderOnly(header);
    ConfKeeps(net, h, header);
    OneSteady(net, h, WriteConf(header), next);
  }

  lemma OwnSteady(net: Network, h: Hub, name: string, cidr: string)
    requires Inv(net, h) && (name == "" || cidr == "" || (IsWord(name) && IsWord(cidr)))
    ensures Steady(Holds(net), Exec, h, OwnPlan(h, name, cidr))
  {
    if name != "" && cidr != "" { SiteSteady(net, h, name, cidr); }
  }

  /** The hub made ready: its header is there, and so is its own site when one is given; the rest is as it was. */
  lemma {:induction false} ReadyDone(h: Hub, header: Lines, asked: bool, name: string, cidr: string)
    requires SitesOk(h.sites) && IsWord(name) && IsWord(cidr)
    ensures var now := Run(Exec, h, ReadyPlan(h, header, asked, name, cidr));
            && now == h.(conf := now.conf, sites := now.sites)
            && now.conf == (if asked && h.conf != [] then h.conf else header)
            && [name, cidr] in now.sites
            && (forall l :: l in h.sites && !FieldIs(l, 0, name) ==> l in now.sites)
            && (forall l :: l in now.sites && l != [name, cidr] ==> l in h.sites && !FieldIs(l, 0, name))
  {
    var mid := HeaderDone(h, header, asked);
    RunTogether(Exec, h, HeaderPlan(h, header, asked), OwnPlan(h, name, cidr));
    SiteDone(mid, name, cidr);
    assert OwnPlan(h, name, cidr) == SitePlan(mid, name, cidr);
    UpsertReplaces(h.sites, 0, name, [name, cidr]);
    UniqueMeans(h.sites, 0);
  }

  /** Without a name or a network no site is registered. */
  lemma {:induction false} ReadyWithoutSite(h: Hub, header: Lines, asked: bool, name: string, cidr: string)
    requires name == "" || cidr == ""
    ensures Run(Exec, h, ReadyPlan(h, header, asked, name, cidr)) ==
            h.(conf := if asked && h.conf != [] then h.conf else header)
  {
    var mid := HeaderDone(h, header, asked);
    assert HeaderPlan(h, header, asked) + [] == HeaderPlan(h, header, asked);
  }

  lemma {:induction false} HeaderDone(h: Hub, header: Lines, asked: bool) returns (mid: Hub)
    ensures mid == h.(conf := if asked && h.conf != [] then h.conf else header)
    ensures Run(Exec, h, HeaderPlan(h, header, asked)) == mid
  {
    mid := h.(conf := if asked && h.conf != [] then h.conf else header);
    if !(asked && h.conf != []) { RunOne(Exec, h, WriteConf(header)); }
  }

  // ----- what the registry lines say -----

  /** A DNS server's line: the site, the address, the domain, without what is empty. */
  lemma {:induction false} DnsLineSays(site: string, ip: string, domain: string)
    requires IsWord(site) && (ip == "" || IsWord(ip)) && (domain == "" || IsWord(domain))
    ensures ip != "" && domain != "" ==> DnsLine(site, ip, domain) == [site, ip, domain]
    ensures ip != "" && domain == "" ==> DnsLine(site, ip, domain) == [site, ip]
    ensures ip == "" && domain != "" ==> DnsLine(site, ip, domain) == [site, domain]
    ensures ip == "" && domain == "" ==> DnsLine(site, ip, domain) == [site]
  {
    WordLine(DnsParts(site, ip, domain));
  }

  /** A DNS server registered: its line is there, and of the other lines exactly those of other sites. */
  lemma DnsDone(h: Hub, site: string, ip: string, domain: string)
    requires DnsOk(h.dns) && IsWord(site) && IsWord(ip) && IsWord(domain)
    ensures var now := Run(Exec, h, DnsPlan(h, site, ip, domain));
            && now == h.(dns := now.dns)
            && forall l :: l in now.dns <==> l == [site, ip, domain] || (l in h.dns && !FieldIs(l, 0, site))
  {
    DnsLineSays(site, ip, domain);
    DnsWritten(h, site, [site, ip, domain]);
    RunOne(Exec, h, DnsPlan(h, site, ip, domain)[0]);
  }

  lemma DnsWritten(h: Hub, site: string, line: Line)
    requires DnsOk(h.dns) && FieldIs(line, 0, site)
    ensures forall l :: l in UpsertTidy(h.dns, 0, site, line) <==> l == line || (l in h.dns && !FieldIs(l, 0, site))
  {
    UpsertReplaces(h.dns, 0, site, line);
  }

  /** A node registered: its line names the site, the host and the gateway; the lines of the other hosts stay. */
  lemma NodeDone(h: Hub, site: string, host: string, gateway: string)
    requires NodesOk(h.nodes) && IsWord(site) && IsWord(host) && IsWord(gateway)
    ensures var now := Run(Exec, h, NodePlan(h, site, host, gateway));
            && now == h.(nodes := now.nodes)
            && forall l :: l in now.nodes <==> l == [site, host, gateway] || (l in h.nodes && !FieldIs(l, 1, host))
  {
    WordLine([site, host, gateway]);
    UniqueMeans(h.nodes, 1);
    UpsertReplaces(h.nodes, 1, host, [site, host, gateway]);
    RunOne(Exec, h, NodePlan(h, site, host, gateway)[0]);
  }

  // ----- a join that completes -----

  function ConfWith(conf: Lines, p: Peer, asked: bool): Lines {
    if asked && FirstLine(conf, Marker(p.name)).Some? then conf else Append(conf, p)
  }

  /** What the hub is like once the gateway has joined with that address. */
  function Joined(h: Hub, name: string, cidr: string, key: string, ip: string, asked: bool): Hub {
    h.(alloc := if HasKey(h.alloc, 0, name) then h.alloc else h.alloc + [[name, ip]],
       sites := Upsert(h.sites, 0, name, [name, cidr]),
       conf := ConfWith(h.conf, PeerOf(name, key, ip, cidr), asked),
       live := LivePeers.Claim(h.live, key, {ip + "/32", cidr}),
       routes := h.routes + {ip + "/32", cidr})
  }

  lemma RunThree<S, C>(exec: (S, C) -> S, s: S, a: C, b: C, c: C)
    ensures Run(exec, s, [a, b, c]) == exec(exec(exec(s, a), b), c)
  {
    assert [a, b, c][1..] == [b, c] && [b, c][1..] == [c] && [c][1..] == [];
    var s1 := exec(s, a);
    var s2 := exec(s1, b);
    assert Run(exec, s2, [c]) == exec(s2, c);
    assert Run(exec, s1, [b, c]) == Run(exec, s2, [c]);
  }

  lemma PeerDone(h: Hub, name: string, key: string, ip: string, cidr: string, asked: bool)
    ensures Run(Exec, h, PeerPlan(h, name, key, ip, cidr, asked)) ==
            h.(conf := ConfWith(h.conf, PeerOf(name, key, ip, cidr), asked),
               live := LivePeers.Claim(h.live, key, {ip + "/32", cidr}), routes := h.routes + {ip + "/32", cidr})
  {
    var a, b, c := WgSet(key, {ip + "/32", cidr}), RouteReplace(ip + "/32"), RouteReplace(cidr);
    var add := AppendConf(PeerOf(name, key, ip, cidr));
    var h1 := h.(conf := ConfWith(h.conf, PeerOf(name, key, ip, cidr), asked));
    RunThree(Exec, h1, a, b, c);
    assert h.routes + {ip + "/32"} + {cidr} == h.routes + {ip + "/32", cidr};
    if asked && FirstLine(h.conf, Marker(name)).Some? {
      assert PeerPlan(h, name, key, ip, cidr, asked) == [a, b, c];
    } else {
      assert PeerPlan(h, name, key, ip, cidr, asked) == [add] + [a, b, c];
      assert ([add] + [a, b, c])[1..] == [a, b, c];
      assert h1 == Exec(h, add);
    }
  }

  /** All commands of a join, one after the other. */
  lemma JoinDone(net: Network, h: Hub, name: string, cidr: string, key: string, asked: bool)
    requires Inv(net, h) && IsWord(name) && IsWord(cidr) && IsWord(key) && AllocatedIp(net, h.alloc, name).Some?
    requires asked || !HasPeer(ReadPeers(h.conf), name)
    ensures Run(Exec, h, JoinPlan(h, net, name, cidr, key, asked)) ==
            Joined(h, name, cidr, key, AllocatedIp(net, h.alloc, name).value, asked)
  {
    var ip := AllocatedIp(net, h.alloc, name).value;
    var first, second, third := AllocPlan(net, h.alloc, name), SitePlan(h, name, cidr),
      PeerPlan(h, name, key, ip, cidr, asked);
    AllocDone(net, h, name);
    var h1 := h.(alloc := if HasKey(h.alloc, 0, name) then h.alloc else h.alloc + [[name, ip]]);
    SiteDone(h1, name, cidr);
    var h2 := h1.(sites := Upsert(h.sites, 0, name, [name, cidr]));
    PeerDone(h2, name, key, ip, cidr, asked);
    RunThreePlans(Exec, h, first, second, third);
  }

  lemma RunThreePlans<S, C>(exec: (S, C) -> S, s: S, a: seq<C>, b: seq<C>, c: seq<C>)
    ensures Run(exec, s, a + b + c) == Run(exec, Run(exec, Run(exec, s, a), b), c)
  {
    RunTogether(exec, s, a, b);
    RunTogether(exec, s, a + b, c);
  }

  lemma RunOne<S, C>(exec: (S, C) -> S, s: S, c: C)
    ensures Run(exec, s, [c]) == exec(s, c)
  {
    assert [c][1..] == [];
    assert Run(exec, exec(s, c), []) == exec(s, c);
  }

  lemma SiteDone(h: Hub, name: string, cidr: string)
    requires IsWord(name) && IsWord(cidr)
    ensures Run(Exec, h, SitePlan(h, name, cidr)) == h.(sites := Upsert(h.sites, 0, name, [name, cidr]))
  {
    WordPair(name, cidr);
    RunOne(Exec, h, SitePlan(h, name, cidr)[0]);
  }

  lemma AllocDone(net: Network, h: Hub, name: string)
    requires Inv(net, h) && IsWord(name) && AllocatedIp(net, h.alloc, name).Some?
    ensures Run(Exec, h, AllocPlan(net, h.alloc, name)) ==
            h.(alloc := if HasKey(h.alloc, 0, name) then h.alloc
                        else h.alloc + [[name, AllocatedIp(net, h.alloc, name).value]])
  {
    var ip := AllocatedIp(net, h.alloc, name).value;
    LookupFinds(h.alloc, name);
    AllocationGives(net, h.alloc, name);
    if !HasKey(h.alloc, 0, name) {
      WordPair(name, ip);
      RunOne(Exec, h, AppendAlloc([name, ip]));
    }
  }
}
