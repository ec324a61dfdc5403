/**
 Addresses for the nodes of a lab that gives them none: chosen by name from the lab's own network, never one that is
 in use, and remembered by the DNS zone.

 Names are resolved, hashed and pinged by the World. Zone lines are taken by their fields.
 */
module IpAlloc {
  import opened Ipv4
  import opened Text
  import opened Wrappers

  type Line = seq<string>

  /** common: its address fields as written, the network they describe if any, and the domain. */
  datatype Common = Common(gateway: string, dns: string, network: Option<Network>)

  /** The definition's nodes and their myip ("" for none), and the forward zone of the lab's domain. */
  datatype Lab = Lab(common: Common, nodes: map<string, string>, zone: seq<Line>)

  /** This host's own addresses, the resolver's answer for a name ("" for none), and where a name starts looking. */
  datatype World = World(local: set<string>, resolve: string -> string, start: (string, Network) -> nat)

  // ----- what is taken -----

  function WordSet(ws: seq<string>): set<string> {
    set i | 0 <= i < |ws| :: ws[i]
  }

  function Reserved(common: Common): set<string> {
    set w | w in WordSet(Words(Commas(common.gateway))) + WordSet(Words(Commas(common.dns))) && IsAddress(w)
  }

  function Pinned(nodes: map<string, string>): set<string> {
    set v | v in nodes && IsAddress(nodes[v]) :: nodes[v]
  }

  /** The line holds an A record, and the addresses written on it. */
  predicate HoldsA(line: Line) {
    exists i :: 0 <= i < |line| - 1 && line[i] == "IN" && line[i + 1] == "A"
  }

  function LineAddresses(line: Line): set<string> {
    if HoldsA(line) then (set i | 0 <= i < |line| && IsAddress(line[i]) :: line[i]) else {}
  }

  function Ledger(zone: seq<Line>): set<string> {
    if zone == [] then {} else Ledger(zone[..|zone| - 1]) + LineAddresses(zone[|zone| - 1])
  }

  /** One address field of common, which may list several values. */
  method FieldWords(used: set<string>, field: string) returns (r: set<string>)
    ensures r == used + WordSet(Words(Commas(field)))
  {
    r := used;
    var words := Words(Commas(field));
    for i := 0 to |words|
      invariant r == used + WordSet(words[..i])
    {
      r := r + {words[i]};
    }
    assert words[..|words|] == words;
  }

  /** definition_ips() */
  method DefinitionIps(lab: Lab) returns (used: set<string>)
    ensures used == Reserved(lab.common) + Pinned(lab.nodes)
  {
    used := FieldWords({}, lab.common.gateway);
    used := FieldWords(used, lab.common.dns);
    var left := lab.nodes.Keys;
    ghost var fields := used;
    while left != {}
      invariant left <= lab.nodes.Keys
      invariant used == fields + set v | v in lab.nodes && v !in left && lab.nodes[v] != "" :: lab.nodes[v]
      decreases left
    {
      var v :| v in left;
      if lab.nodes[v] != "" { used := used + {lab.nodes[v]}; }
      left := left - {v};
    }
    EmptyIsNoAddress();
    used := set w | w in used && IsAddress(w);
  }

  lemma EmptyIsNoAddress()
    ensures !IsAddress("")
  {
  }

  /** dns_ips(): the ledger of what was handed out */
  method DnsIps(zone: seq<Line>) returns (found: set<string>)
    ensures found == Ledger(zone)
  {
    found := {};
    for i := 0 to |zone|
      invariant found == Ledger(zone[..i])
    {
      assert zone[..i + 1][..i] == zone[..i];
      if HoldsA(zone[i]) {
        found := found + set k | 0 <= k < |zone[i]| && IsAddress(zone[i][k]) :: zone[i][k];
      }
    }
    assert zone[..|zone|] == zone;
  }

  /** vm_name.split(".")[0] */
  function Short(name: string): string {
    if name == [] || name[0] == '.' then [] else [name[0]] + Short(name[1..])
  }

  predicate RecordOf(line: Line, short: string) {
    |line| >= 4 && line[0] == short && line[|line| - 2] == "A"
  }

  /** The address on the first A record of the name, or None. */
  function Recorded(zone: seq<Line>, short: string): Option<string> {
    if zone == [] then None
    else if RecordOf(zone[0], short) then Some(zone[0][|zone[0]| - 1])
    else Recorded(zone[1..], short)
  }

  /** dns_address(): the zone's answer, else the resolver's */
  function Lookup(world: World, zone: seq<Line>, name: string): string {
    if Short(name) != "" && Recorded(zone, Short(name)).Some? then Recorded(zone, Short(name)).value
    else world.resolve(name)
  }

  // ----- allocate() -----

  /** A chosen address; none to be had; or a looked-up text that is no address (ip_address() raises). */
  datatype Allocation = Chosen(ip: string) | Nothing | BadRecord

  function Texts(addresses: seq<nat>): seq<string> {
    seq(|addresses|, i requires 0 <= i < |addresses| => ShowAddress(addresses[i]))
  }

  /** candidates() */
  function Candidates(world: World, name: string, network: Network): seq<string> {
    var hosts := network.Hosts();
    if hosts == [] then []
    else
      var at := world.start(name, network) % |hosts|;
      Texts(hosts[at..] + hosts[..at])
  }

  function Taken(world: World, lab: Lab, used: set<string>): set<string> {
    used + Reserved(lab.common) + Pinned(lab.nodes) + Ledger(lab.zone) + world.local
  }

  function FirstFree(candidates: seq<string>, taken: set<string>, answers: set<string>): Allocation {
    if candidates == [] then Nothing
    else if candidates[0] !in taken && candidates[0] !in answers then Chosen(candidates[0])
    else FirstFree(candidates[1..], taken, answers)
  }

  function OwnIp(lab: Lab, name: string): string {
    if name in lab.nodes then lab.nodes[name] else ""
  }

  /** allocate(); answers are the addresses that reply to a ping, {} without the ping gate */
  function Allocate(world: World, lab: Lab, name: string, used: set<string>, answers: set<string>): Allocation {
    match lab.common.network
    case None => Nothing
    case Some(network) =>
      var registered := Lookup(world, lab.zone, name);
      if registered != "" && !IsAddress(registered) then BadRecord
      else if registered != "" && network.Contains(ParseAddress(registered).value) then Chosen(registered)
      else FirstFree(Candidates(world, name, network), Taken(world, lab, used) - {OwnIp(lab, name)}, answers)
  }

  method AllocateIp(world: World, lab: Lab, name: string, used: set<string>, answers: set<string>)
    returns (r: Allocation)
    ensures r == Allocate(world, lab, name, used, answers)
  {
    if lab.common.network == None { return Nothing; }
    var network := lab.common.network.value;
    var registered := Lookup(world, lab.zone, name);
    if registered != "" {
      var parsed := ParseAddress(registered);
      if parsed == None { return BadRecord; }
      if network.Contains(parsed.value) { return Chosen(registered); }
    }
    var defined := DefinitionIps(lab);
    var recorded := DnsIps(lab.zone);
    var taken := (used + defined + recorded + world.local) - {OwnIp(lab, name)};
    assert taken == Taken(world, lab, used) - {OwnIp(lab, name)};
    var candidates := Candidates(world, name, network);
    for i := 0 to |candidates|
      invariant FirstFree(candidates, taken, answers) == FirstFree(candidates[i..], taken, answers)
    {
      if candidates[i] in taken { continue; }
      if candidates[i] in answers { continue; }
      return Chosen(candidates[i]);
    }
    r := Nothing;
  }

  // ----- one call -----

  predicate IsHost(network: Network, ip: string) {
    exists a :: a in network.Hosts() && ip == ShowAddress(a)
  }

  lemma {:induction false} FirstFreeChooses(candidates: seq<string>, taken: set<string>, answers: set<string>)
    ensures match FirstFree(candidates, taken, answers)
            case Chosen(ip) => ip in candidates && ip !in taken && ip !in answers
            case Nothing => forall c :: c in candidates ==> c in taken || c in answers
            case BadRecord => false
  {
    if candidates != [] { FirstFreeChooses(candidates[1..], taken, answers); }
  }

  lemma RotationKeeps(hosts: seq<nat>, at: nat, a: nat)
    requires at <= |hosts|
    ensures a in hosts[at..] + hosts[..at] <==> a in hosts
  {
    assert hosts == hosts[..at] + hosts[at..];
  }

  lemma InTexts(addresses: seq<nat>, ip: string)
    ensures ip in Texts(addresses) <==> exists a :: a in addresses && ip == ShowAddress(a)
  {
    if a :| a in addresses && ip == ShowAddress(a) {
      var i :| 0 <= i < |addresses| && addresses[i] == a;
      assert Texts(addresses)[i] == ip;
    }
  }

  /** Whatever the name, every usable host of the network is tried, and nothing else is. */
  lemma CandidatesAreHosts(world: World, name: string, network: Network, ip: string)
    ensures ip in Candidates(world, name, network) <==> IsHost(network, ip)
  {
    var hosts := network.Hosts();
    InTexts(hosts, ip);
    if hosts != [] {
      var at := world.start(name, network) % |hosts|;
      InTexts(hosts[at..] + hosts[..at], ip);
      forall a ensures a in hosts[at..] + hosts[..at] <==> a in hosts { RotationKeeps(hosts, at, a); }
    }
  }

  /** The name's looked-up address lies in the lab's network, and is then returned as it is. */
  predicate Registered(world: World, lab: Lab, name: string) {
    lab.common.network.Some? &&
    var r := Lookup(world, lab.zone, name);
    r != "" && IsAddress(r) && lab.common.network.value.Contains(ParseAddress(r).value)
  }

  predicate NoneLeft(world: World, lab: Lab, used: set<string>, answers: set<string>) {
    lab.common.network == None ||
    forall a :: a in lab.common.network.value.Hosts() ==>
      ShowAddress(a) in Taken(world, lab, used) || ShowAddress(a) in answers
  }

  /**
   What a call gives a node without an address: its registered address, else a usable host nobody has; and nothing
   exactly when there is no network or every usable host is taken or answers.
   */
  lemma AllocateGives(world: World, lab: Lab, name: string, used: set<string>, answers: set<string>)
    requires OwnIp(lab, name) == ""
    requires Lookup(world, lab.zone, name) == "" || IsAddress(Lookup(world, lab.zone, name))
    ensures var r := Allocate(world, lab, name, used, answers);
            if Registered(world, lab, name) then r == Chosen(Lookup(world, lab.zone, name))
            else
              && (r.Chosen? ==> lab.common.network.Some? && IsHost(lab.common.network.value, r.ip)
                                && r.ip !in Taken(world, lab, used) && r.ip !in answers)
              && (r == Nothing <==> NoneLeft(world, lab, used, answers))
              && r != BadRecord
  {
    if lab.common.network.Some? && !Registered(world, lab, name) {
      var network := lab.common.network.value;
      var cs := Candidates(world, name, network);
      var taken := Taken(world, lab, used) - {""};
      FirstFreeChooses(cs, taken, answers);
      forall ip ensures ip in cs <==> IsHost(network, ip) { CandidatesAreHosts(world, name, network, ip); }
      forall a | a in network.Hosts() ensures ShowAddress(a) in cs {
        assert IsHost(network, ShowAddress(a));
      }
    }
  }

  // ----- the look-up -----

  lemma {:induction false} ShortMeans(short: string, rest: string)
    requires '.' !in short && (rest == "" || rest[0] == '.')
    ensures Short(short + rest) == short
  {
    if short == "" {
      assert short + rest == rest;
    } else {
      assert (short + rest)[1..] == short[1..] + rest;
      ShortMeans(short[1..], rest);
    }
  }

  /** Four fields or more, the name in front and the type A before the address. */
  ghost predicate NamesA(line: Line, short: string) {
    exists middle: Line, ip: string :: middle != [] && line == [short] + middle + ["A", ip]
  }

  lemma {:induction false} RecordMeans(line: Line, short: string)
    ensures RecordOf(line, short) <==> NamesA(line, short)
  {
    if RecordOf(line, short) {
      var n := |line| - 2;
      assert line == [short] + line[1..n] + ["A", line[n + 1]];
    }
  }

  lemma {:induction false} RecordedFirst(zone: seq<Line>, short: string, k: nat)
    requires k < |zone| && NamesA(zone[k], short) && forall j :: 0 <= j < k ==> !NamesA(zone[j], short)
    ensures Recorded(zone, short) == Some(zone[k][|zone[k]| - 1])
  {
    RecordMeans(zone[0], short);
    if k > 0 { RecordedFirst(zone[1..], short, k - 1); }
  }

  lemma {:induction false} RecordedNowhere(zone: seq<Line>, short: string)
    requires forall l :: l in zone ==> !NamesA(l, short)
    ensures Recorded(zone, short) == None
  {
    if zone != [] {
      RecordMeans(zone[0], short);
      RecordedNowhere(zone[1..], short);
    }
  }

  /** The zone answers with the address on its first A record of the name's first label. */
  lemma {:induction false} ZoneAnswers(world: World, zone: seq<Line>, short: string, rest: string, k: nat)
    requires short != "" && '.' !in short && (rest == "" || rest[0] == '.')
    requires k < |zone| && NamesA(zone[k], short) && forall j :: 0 <= j < k ==> !NamesA(zone[j], short)
    ensures Lookup(world, zone, short + rest) == zone[k][|zone[k]| - 1]
  {
    ShortMeans(short, rest);
    RecordedFirst(zone, short, k);
  }

  /** Without such a record, or without a first label, the resolver does. */
  lemma {:induction false} ResolverAnswers(world: World, zone: seq<Line>, short: string, rest: string)
    requires '.' !in short && (rest == "" || rest[0] == '.')
    requires short == "" || forall l :: l in zone ==> !NamesA(l, short)
    ensures Lookup(world, zone, short + rest) == world.resolve(short + rest)
  {
    ShortMeans(short, rest);
    if short != "" { RecordedNowhere(zone, short); }
  }

  /** An address that the look-up answers is given if and only if it lies in the network. */
  lemma RegisteredIsGiven(world: World, lab: Lab, name: string, used: set<string>, answers: set<string>, a: nat)
    requires lab.common.network.Some? && a < 0x1_0000_0000 && Lookup(world, lab.zone, name) == ShowAddress(a)
    ensures var network := lab.common.network.value;
            && (Registered(world, lab, name) <==> network.base <= a < network.base + network.size)
            && (Registered(world, lab, name) ==> Allocate(world, lab, name, used, answers) == Chosen(ShowAddress(a)))
  {
    ParseShown(a);
    EmptyIsNoAddress();
  }

  // ----- which address is given -----

  /** How many usable addresses the network has, and the lowest of them. */
  function Count(network: Network): nat {
    if network.size <= 2 then network.size else network.size - 2
  }

  function Lowest(network: Network): nat {
    if network.size <= 2 then network.base else network.base + 1
  }

  /**
   The i-th address that is tried: the one the name decides, those after it in order, and then those from the lowest on.
   */
  function Tried(world: World, name: string, network: Network, i: nat): (a: nat)
    ensures Usable(network.base, network.size, a)
  {
    Lowest(network) + (world.start(name, network) + i) % Count(network)
  }

  lemma Wraps(start: nat, i: nat, n: nat)
    requires i < n
    ensures (start + i) % n == if start % n + i < n then start % n + i else start % n + i - n
  {
    var q := start / n;
    assert start == q * n + start % n;
    if start % n + i < n {
      DivUnique(start + i, n, q, start % n + i); } else { DivUnique(start + i, n, q + 1, start % n + i - n);
    }
  }

  lemma TimesGrows(x: nat, y: nat, n: nat)
    ensures x <= y ==> x * n <= y * n
  {
  }

  lemma DivUnique(a: nat, n: nat, q: nat, r: nat)
    requires r < n && a == q * n + r
    ensures a % n == r
  {
    TimesGrows(q + 1, a / n, n);
    TimesGrows(a / n + 1, q, n);
  }

  lemma CandidateAt(world: World, name: string, network: Network, i: nat)
    requires i < Count(network)
    ensures |Candidates(world, name, network)| == Count(network)
    ensures Candidates(world, name, network)[i] == ShowAddress(Tried(world, name, network, i))
  {
    var hosts := network.Hosts();
    var at := world.start(name, network) % |hosts|;
    Wraps(world.start(name, network), i, |hosts|);
    assert (hosts[at..] + hosts[..at])[i] == hosts[(world.start(name, network) + i) % |hosts|];
  }

  predicate ARecordLine(line: Line) {
    exists i :: 0 <= i < |line| - 1 && line[i] == "IN" && line[i + 1] == "A"
  }

  /** An address somebody has: in use, this host's own, a node's, reserved, or in the zone. */
  predicate Claimed(world: World, lab: Lab, used: set<string>, ip: string) {
    || ip in used || ip in world.local
    || (exists v :: v in lab.nodes && lab.nodes[v] == ip)
    || ip in Words(Commas(lab.common.gateway)) || ip in Words(Commas(lab.common.dns))
    || exists l :: l in lab.zone && ARecordLine(l) && ip in l
  }

  /** An address that must not be given to the node: it answers, or somebody has it and it is not what the node has. */
  predicate Unavailable(world: World, lab: Lab, name: string, used: set<string>, answers: set<string>, ip: string) {
    ip in answers || (Claimed(world, lab, used, ip) && !(name in lab.nodes && lab.nodes[name] == ip))
  }

  lemma {:induction false} LedgerMeans(zone: seq<Line>, ip: string)
    requires IsAddress(ip)
    ensures ip in Ledger(zone) <==> exists l :: l in zone && ARecordLine(l) && ip in l
  {
    if zone != [] {
      var init, last := zone[..|zone| - 1], zone[|zone| - 1];
      LedgerMeans(init, ip);
      assert ip in LineAddresses(last) <==> ARecordLine(last) && ip in last;
      assert zone == init + [last];
    }
  }

  lemma TakenMeans(world: World, lab: Lab, used: set<string>, ip: string)
    requires IsAddress(ip)
    ensures ip in Taken(world, lab, used) <==> Claimed(world, lab, used, ip)
  {
    LedgerMeans(lab.zone, ip);
    var gateway, dns := Words(Commas(lab.common.gateway)), Words(Commas(lab.common.dns));
    assert ip in WordSet(gateway) <==> ip in gateway;
    assert ip in WordSet(dns) <==> ip in dns;
  }

  lemma {:induction false} FirstFreeAt(candidates: seq<string>, taken: set<string>, answers: set<string>, i: nat)
    requires i < |candidates| && candidates[i] !in taken && candidates[i] !in answers
    requires forall j :: 0 <= j < i ==> candidates[j] in taken || candidates[j] in answers
    ensures FirstFree(candidates, taken, answers) == Chosen(candidates[i])
  {
    if i > 0 {
      assert candidates[0] in taken || candidates[0] in answers;
      FirstFreeAt(candidates[1..], taken, answers, i - 1);
    }
  }

  lemma TriedIsTaken(world: World, lab: Lab, name: string, used: set<string>, answers: set<string>, i: nat)
    requires lab.common.network.Some? && i < Count(lab.common.network.value)
    ensures var ip := Candidates(world, name, lab.common.network.value)[i];
            var shown := ShowAddress(Tried(world, name, lab.common.network.value, i));
            && ip == shown
            && (ip in Taken(world, lab, used) - {OwnIp(lab, name)} || ip in answers <==>
                Unavailable(world, lab, name, used, answers, shown))
  {
    var network := lab.common.network.value;
    CandidateAt(world, name, network, i);
    ParseShown(Tried(world, name, network, i));
    EmptyIsNoAddress();
    TakenMeans(world, lab, used, ShowAddress(Tried(world, name, network, i)));
  }

  /** The i-th address that is tried is unavailable. */
  predicate Barred(world: World, lab: Lab, name: string, used: set<string>, answers: set<string>, i: nat)
    requires lab.common.network.Some?
  {
    Unavailable(world, lab, name, used, answers, ShowAddress(Tried(world, name, lab.common.network.value, i)))
  }

  predicate FirstNotBarred(world: World, lab: Lab, name: string, used: set<string>, answers: set<string>, i: nat)
    requires lab.common.network.Some?
  {
    && i < Count(lab.common.network.value) && !Barred(world, lab, name, used, answers, i)
    && forall j: nat :: j < i ==> Barred(world, lab, name, used, answers, j)
  }

  /** The name is not registered in the network, and what the look-up answers, if anything, is an address. */
  predicate Unregistered(world: World, lab: Lab, name: string) {
    && lab.common.network.Some? && !Registered(world, lab, name)
    && (Lookup(world, lab.zone, name) == "" || IsAddress(Lookup(world, lab.zone, name)))
  }

  /**
   A node whose name is not registered in the network is given the first address in the order of
   its name that is not unavailable: never the first or the last one of a network of more than two.
   */
  lemma UnregisteredGetsFirst(world: World, lab: Lab, name: string, used: set<string>, answers: set<string>, i: nat)
    requires Unregistered(world, lab, name) && FirstNotBarred(world, lab, name, used, answers, i)
    ensures var network := lab.common.network.value;
            var a := Tried(world, name, network, i);
            && Allocate(world, lab, name, used, answers) == Chosen(ShowAddress(a))
            && (network.size > 2 ==> network.base < a < network.base + network.size - 1)
  {
    var cs := Candidates(world, name, lab.common.network.value);
    CandidateAt(world, name, lab.common.network.value, i);
    forall j: nat | j <= i
      ensures cs[j] in Taken(world, lab, used) - {OwnIp(lab, name)} || cs[j] in answers <==>
              Barred(world, lab, name, used, answers, j)
    {
      TriedIsTaken(world, lab, name, used, answers, j);
    }
    FirstFreeAt(cs, Taken(world, lab, used) - {OwnIp(lab, name)}, answers, i);
  }

  /** And nothing exactly when every address that is tried is unavailable. */
  lemma UnregisteredGetsNothing(world: World, lab: Lab, name: string, used: set<string>, answers: set<string>)
    requires Unregistered(world, lab, name)
    ensures Allocate(world, lab, name, used, answers) == Nothing <==>
            forall i: nat :: i < Count(lab.common.network.value) ==> Barred(world, lab, name, used, answers, i)
  {
    if i: nat :| i < Count(lab.common.network.value) && !Barred(world, lab, name, used, answers, i) {
      var first := FirstOpen(world, lab, name, used, answers, i);
      UnregisteredGetsFirst(world, lab, name, used, answers, first);
    } else {
      var cs := Candidates(world, name, lab.common.network.value);
      if |cs| > 0 { CandidateAt(world, name, lab.common.network.value, 0); }
      forall j | 0 <= j < |cs| ensures cs[j] in Taken(world, lab, used) - {OwnIp(lab, name)} || cs[j] in answers {
        TriedIsTaken(world, lab, name, used, answers, j);
        assert Barred(world, lab, name, used, answers, j);
      }
      FirstFreeChooses(cs, Taken(world, lab, used) - {OwnIp(lab, name)}, answers);
    }
  }

  lemma FirstOpen(world: World, lab: Lab, name: string, used: set<string>, answers: set<string>, i: nat)
    returns (first: nat)
    requires lab.common.network.Some? && i < Count(lab.common.network.value)
    requires !Barred(world, lab, name, used, answers, i)
    ensures FirstNotBarred(world, lab, name, used, answers, first)
  {
    if j: nat :| j < i && !Barred(world, lab, name, used, answers, j) {
      first := FirstOpen(world, lab, name, used, answers, j);
    } else {
      first := i;
    }
  }

  // ----- addresses in the network -----

  predicate InNetwork(lab: Lab, ip: string) {
    lab.common.network.Some? && IsAddress(ip) && lab.common.network.value.Contains(ParseAddress(ip).value)
  }

  /** A usable host of the network that is neither the gateway nor a DNS server. */
  predicate Proper(lab: Lab, ip: string) {
    lab.common.network.Some? && IsHost(lab.common.network.value, ip) && ip !in Reserved(lab.common)
  }

  function WithIp(lab: Lab, name: string, ip: string): Lab {
    lab.(nodes := lab.nodes[name := ip])
  }

  lemma PinnedAfter(nodes: map<string, string>, name: string, ip: string)
    requires name in nodes && nodes[name] == "" && IsAddress(ip)
    ensures Pinned(nodes[name := ip]) == Pinned(nodes) + {ip}
  {
    var now := nodes[name := ip];
    EmptyIsNoAddress();
    assert now[name] == ip;
    forall v | v in nodes && IsAddress(nodes[v]) ensures nodes[v] in Pinned(now) {
      assert now[v] == nodes[v];
    }
  }

  lemma HostIsAddress(network: Network, ip: string)
    requires IsHost(network, ip)
    ensures IsAddress(ip) && network.Contains(ParseAddress(ip).value)
  {
    var a :| a in network.Hosts() && ip == ShowAddress(a);
    ParseShown(a);
  }

  /** What a call chooses lies in the lab's network. */
  lemma ChosenInNetwork(world: World, lab: Lab, name: string, used: set<string>, answers: set<string>)
    ensures var a := Allocate(world, lab, name, used, answers); a.Chosen? ==> InNetwork(lab, a.ip) && a.ip != ""
  {
    var a := Allocate(world, lab, name, used, answers);
    EmptyIsNoAddress();
    if a.Chosen? {
      var network := lab.common.network.value;
      FirstFreeChooses(Candidates(world, name, network), Taken(world, lab, used) - {OwnIp(lab, name)}, answers);
      CandidatesAreHosts(world, name, network, a.ip);
      if IsHost(network, a.ip) { HostIsAddress(network, a.ip); }
    }
  }

  // ----- registering in the zone -----

  function ARecord(name: string, ip: string): Line {
    [Short(name), "IN", "A", ip]
  }

  /** The record is appended, unless the zone has it. */
  function Appended(zone: seq<Line>, record: Line): seq<Line> {
    if record in zone then zone else zone + [record]
  }

  /** add_to_dns() */
  function WithRecord(lab: Lab, name: string): Lab
    requires name in lab.nodes
  {
    lab.(zone := Appended(lab.zone, ARecord(name, lab.nodes[name])))
  }

  lemma {:induction false} InZone(zone: seq<Line>, line: Line, short: string)
    requires line in zone
    ensures RecordOf(line, short) ==> Recorded(zone, short).Some?
  {
    if line != zone[0] {
      assert line in zone[1..];
      InZone(zone[1..], line, short);
    }
  }

  lemma {:induction false} InLedger(zone: seq<Line>, line: Line)
    requires line in zone
    ensures LineAddresses(line) <= Ledger(zone)
  {
    if line != zone[|zone| - 1] {
      assert line in zone[..|zone| - 1];
      InLedger(zone[..|zone| - 1], line);
    }
  }

  /** The first record of a name stays; a name without one has the new one. */
  lemma RecordedAppended(zone: seq<Line>, line: Line, short: string)
    ensures Recorded(Appended(zone, line), short) ==
            if Recorded(zone, short).Some? then Recorded(zone, short)
            else if RecordOf(line, short) then Some(line[|line| - 1]) else None
  {
    RecordedAppend(zone, line, short);
    if line in zone { InZone(zone, line, short); }
  }

  lemma {:induction false} RecordedAppend(zone: seq<Line>, line: Line, short: string)
    ensures Recorded(zone + [line], short) ==
            if Recorded(zone, short).Some? then Recorded(zone, short)
            else if RecordOf(line, short) then Some(line[|line| - 1]) else None
  {
    if zone == [] {
      assert zone + [line] == [line];
    } else {
      assert (zone + [line])[1..] == zone[1..] + [line];
      RecordedAppend(zone[1..], line, short);
    }
  }

  lemma LedgerAppended(zone: seq<Line>, name: string, ip: string)
    requires IsAddress(ip)
    ensures Ledger(Appended(zone, ARecord(name, ip))) == Ledger(zone) + {ip}
  {
    var line := ARecord(name, ip);
    RecordAddress(name, ip);
    assert (zone + [line])[..|zone|] == zone;
    if line in zone { InLedger(zone, line); }
  }

  lemma RecordAddress(name: string, ip: string)
    requires IsAddress(ip)
    ensures LineAddresses(ARecord(name, ip)) == {ip}
  {
    ShortIsNoAddress(name);
    var line := ARecord(name, ip);
    assert line[1] == "IN" && line[2] == "A" && line[3] == ip;
    assert !IsAddress("IN") && !IsAddress("A") by { AddressShape("IN"); AddressShape("A"); }
    assert ip in LineAddresses(line);
  }

  lemma AddressShape(s: string)
    ensures IsAddress(s) ==> s != [] && Decimal.IsDigit(s[0]) && '.' in s
  {
    if IsAddress(s) {
      var head := Decimal.Show(Octet(ParseAddress(s).value, 0));
      assert s[0] == head[0];
      assert s[|head|] == '.';
    }
  }

  /** The first label of a name holds no dot, so it is no address. */
  lemma ShortIsNoAddress(name: string)
    ensures !IsAddress(Short(name))
  {
    NoDot(name);
    AddressShape(Short(name));
  }

  lemma {:induction false} NoDot(name: string)
    ensures '.' !in Short(name)
  {
    if name != [] && name[0] != '.' { NoDot(name[1..]); }
  }

  /** A record that is added answers for the nodes whose first label it has, if that had none; nothing else changes. */
  lemma LookupAfter(world: World, lab: Lab, name: string, v: string)
    requires name in lab.nodes
    ensures Lookup(world, WithRecord(lab, name).zone, v) ==
            if Short(v) == Short(name) != "" && Recorded(lab.zone, Short(v)) == None then lab.nodes[name]
            else Lookup(world, lab.zone, v)
  {
    RecordedAppended(lab.zone, ARecord(name, lab.nodes[name]), Short(v));
  }

  // ----- steps under the lock -----

  /**
   What happens to a lab under its lock: an allocation, with what is in use and what answers then, or a registration.
   */
  datatype Step = Give(name: string, used: set<string>, answers: set<string>) | Register(name: string)

  function After(world: World, lab: Lab, step: Step): (after: Lab)
    ensures after.common == lab.common && after.nodes.Keys == lab.nodes.Keys && lab.zone <= after.zone
  {
    match step
    case Give(name, used, answers) =>
      if name in lab.nodes && lab.nodes[name] == "" && Allocate(world, lab, name, used, answers).Chosen?
      then WithIp(lab, name, Allocate(world, lab, name, used, answers).ip) else lab
    case Register(name) =>
      if name in lab.nodes && lab.nodes[name] != "" then WithRecord(lab, name) else lab
  }

  function AfterAll(world: World, lab: Lab, steps: seq<Step>): (after: Lab)
    ensures after.common == lab.common && after.nodes.Keys == lab.nodes.Keys && lab.zone <= after.zone
  {
    if steps == [] then lab else After(world, AfterAll(world, lab, steps[..|steps| - 1]), steps[|steps| - 1])
  }

  // ----- running a lab again -----

  lemma {:induction false} FirstRecordStays(zone: seq<Line>, more: seq<Line>, short: string)
    requires zone <= more && Recorded(zone, short).Some?
    ensures Recorded(more, short) == Recorded(zone, short)
  {
    if zone != [] && !RecordOf(zone[0], short) { FirstRecordStays(zone[1..], more[1..], short); }
  }

  lemma StepGivesRecorded(world: World, lab: Lab, step: Step, name: string, ip: string)
    requires name in lab.nodes && lab.nodes[name] in {"", ip} && Short(name) != ""
    requires Recorded(lab.zone, Short(name)) == Some(ip) && ip != "" && InNetwork(lab, ip)
    ensures After(world, lab, step).nodes[name] ==
            if Gives(step, name) then ip else lab.nodes[name]
  {
    assert Lookup(world, lab.zone, name) == ip;
  }

  predicate Gives(step: Step, name: string) {
    step.Give? && step.name == name
  }

  predicate GivenIn(steps: seq<Step>, name: string) {
    exists i :: 0 <= i < |steps| && Gives(steps[i], name)
  }

  lemma GivenSnoc(steps: seq<Step>, name: string)
    requires steps != []
    ensures GivenIn(steps, name) <==> GivenIn(steps[..|steps| - 1], name) || Gives(steps[|steps| - 1], name)
  {
    var init := steps[..|steps| - 1];
    if i :| 0 <= i < |init| && Gives(init[i], name) { assert Gives(steps[i], name); }
    if i :| 0 <= i < |steps| && Gives(steps[i], name) { assert i < |init| ==> init[i] == steps[i]; }
  }

  /**
   Re-run stability: a node whose address is in the zone gets that address again, however the later definition lists
   its nodes, which nodes it adds, and whatever is in use or answers by then.
   */
  lemma {:induction false} RerunGivesSameAddress(world: World, lab: Lab, steps: seq<Step>, name: string, ip: string)
    requires name in lab.nodes && lab.nodes[name] == "" && Short(name) != ""
    requires Recorded(lab.zone, Short(name)) == Some(ip) && ip != "" && InNetwork(lab, ip)
    ensures AfterAll(world, lab, steps).nodes[name] == if GivenIn(steps, name) then ip else ""
  {
    if steps != [] {
      var init := steps[..|steps| - 1];
      RerunGivesSameAddress(world, lab, init, name, ip);
      FirstRecordStays(lab.zone, AfterAll(world, lab, init).zone, Short(name));
      StepGivesRecorded(world, AfterAll(world, lab, init), steps[|steps| - 1], name, ip);
      GivenSnoc(steps, name);
    }
  }

  lemma {:induction false} LedgerGrows(zone: seq<Line>, more: seq<Line>)
    requires zone <= more
    ensures Ledger(zone) <= Ledger(more)
  {
    if |zone| < |more| {
      LedgerGrows(zone, more[..|more| - 1]);
    } else {
      assert zone == more;
    }
  }

  lemma {:induction false} NotInLedger(zone: seq<Line>, ip: string)
    requires !IsAddress(ip)
    ensures ip !in Ledger(zone)
  {
    if zone != [] { NotInLedger(zone[..|zone| - 1], ip); }
  }

  /**
   A node that was given an address and registered holds it in the zone exactly when its name had no earlier record,
   or one that gave it that very address: a stale record outside the network stays the first one.
   */
  lemma RegisteredIsHeld(world: World, lab: Lab, name: string)
    requires name in lab.nodes && lab.nodes[name] != "" && Short(name) != ""
    ensures Recorded(WithRecord(lab, name).zone, Short(name)) == Some(lab.nodes[name]) <==>
            Recorded(lab.zone, Short(name)) in {None, Some(lab.nodes[name])}
  {
    RecordedAppended(lab.zone, ARecord(name, lab.nodes[name]), Short(name));
  }

  /** With such a stale record, a later run of the address-free definition moves the node somewhere else. */
  lemma StaleRecordMoves(world: World, lab: Lab, name: string, stale: string, used: set<string>, answers: set<string>)
    requires name in lab.nodes && IsAddress(lab.nodes[name]) && Short(name) != "" && lab.common.network.Some?
    requires Recorded(lab.zone, Short(name)) == Some(stale) && IsAddress(stale) && !InNetwork(lab, stale)
    ensures var again := WithRecord(lab, name).(nodes := map v | v in lab.nodes :: "");
            Allocate(world, again, name, used, answers) != Chosen(lab.nodes[name])
  {
    var ip := lab.nodes[name];
    var again := WithRecord(lab, name).(nodes := map v | v in lab.nodes :: "");
    RecordedAppended(lab.zone, ARecord(name, ip), Short(name));
    LedgerAppended(lab.zone, name, ip);
    AddressShape("");
    var network := lab.common.network.value;
    FirstFreeChooses(Candidates(world, name, network), Taken(world, again, used) - {""}, answers);
  }

  // ----- the call under the lock -----

  /** The state the lock protects: the run's definition and the zone of its domain. */
  class Allocator {
    const world: World
    const common: Common
    var nodes: map<string, string>
    var zone: seq<Line>

    constructor (world: World, lab: Lab)
      ensures this.world == world && State() == lab
    {
      this.world := world;
      common, nodes, zone := lab.common, lab.nodes, lab.zone;
    }

    function State(): Lab
      reads this
    {
      Lab(common, nodes, zone)
    }

    /** check_or_generate_ip(), holding the lock: Nothing and BadRecord end the run. */
    method CheckOrGenerateIp(name: string, used: set<string>, answers: set<string>) returns (r: Allocation)
      requires name in nodes
      modifies this
      ensures old(nodes[name]) != "" ==> r == Chosen(old(nodes[name])) && State() == old(State())
      ensures old(nodes[name]) == "" ==>
                r == Allocate(world, old(State()), name, used, answers)
                && State() == After(world, old(State()), Give(name, used, answers))
    {
      if nodes[name] != "" { return Chosen(nodes[name]); }
      r := AllocateIp(world, State(), name, used, answers);
      if r.Chosen? { nodes := nodes[name := r.ip]; }
    }

    /** add_to_dns() for a node that has its address: an exact duplicate of a line is not written. */
    method AddToDns(name: string)
      requires name in nodes && nodes[name] != ""
      modifies this
      ensures State() == After(world, old(State()), Register(name))
    {
      var record := ARecord(name, nodes[name]);
      if record !in zone { zone := zone + [record]; }
    }
  }
}
