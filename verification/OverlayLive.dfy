/** The hub's running interface against wg0.conf: whether joins and retirements leave the peers a restart would give. */
module OverlayLive {
  import opened Ipv4
  import LivePeers
  import opened OverlayHub
  import opened OverlayRetire
  import opened Plans
  import opened Text
  import opened WgConf
  import opened Wrappers

  /** The addresses of a block: its AllowedIPs. */
  function Parts(allowed: string): set<string> {
    var ws := Words(Commas(allowed));
    set i | 0 <= i < |ws| :: ws[i]
  }

  function ViewOf(p: Peer): LivePeers.View {
    LivePeers.View(p.name, p.key, Parts(p.allowed))
  }

  function ViewsOf(peers: seq<Peer>): (views: seq<LivePeers.View>)
    ensures |views| == |peers| && forall i :: 0 <= i < |peers| ==> views[i] == ViewOf(peers[i])
  {
    seq(|peers|, i requires 0 <= i < |peers| => ViewOf(peers[i]))
  }

  /** The running interface is what a restart with this wg0.conf would give. */
  predicate LiveAgrees(h: Hub) {
    h.live == LivePeers.Restart(ViewsOf(ReadPeers(h.conf)))
  }

  predicate Plain(w: string) {
    IsWord(w) && ',' !in w
  }

  lemma CommasOfPair(a: string, b: string)
    requires ',' !in a && ',' !in b
    ensures Commas(a + "," + b) == a + (" " + b)
  {
    var s := a + "," + b;
    forall i | 0 <= i < |a| ensures s[i] == a[i] && a[i] != ',' { assert a[i] in a; }
    forall i | 0 <= i < |b| ensures s[|a| + 1 + i] == b[i] && b[i] != ',' { assert b[i] in b; }
  }

  lemma PartsOfPair(a: string, b: string)
    requires Plain(a) && Plain(b)
    ensures Parts(a + "," + b) == {a, b}
  {
    CommasOfPair(a, b);
    FirstWord(a, "");
    WordsSnoc(a, b);
    assert a + "" == a;
    PairParts(Words(Commas(a + "," + b)), a, b);
  }

  lemma PairParts(ws: seq<string>, a: string, b: string)
    requires ws == [a] + [b]
    ensures (set i | 0 <= i < |ws| :: ws[i]) == {a, b}
  {
    assert ws[0] == a && ws[1] == b;
  }

  lemma PartsOfPeer(name: string, key: string, ip: string, cidr: string)
    requires Plain(ip) && Plain(cidr)
    ensures Parts(PeerOf(name, key, ip, cidr).allowed) == {ip + "/32", cidr}
  {
    assert forall i :: 0 <= i < |ip + "/32"| ==> (ip + "/32")[i] in ip || (ip + "/32")[i] in "/32";
    assert PeerOf(name, key, ip, cidr).allowed == (ip + "/32") + "," + cidr;
    PartsOfPair(ip + "/32", cidr);
  }

  lemma AllocatedIsPlain(net: Network, alloc: seq<Line>, name: string)
    requires AllocOk(net, alloc) && AllocatedIp(net, alloc, name).Some?
    ensures Plain(AllocatedIp(net, alloc, name).value)
  {
    var ip := AllocatedIp(net, alloc, name).value;
    AllocationGives(net, alloc, name);
    AllHostedMeans(net, alloc);
    assert Hosted(net, ip) by {
      if HasKey(alloc, 0, name) { assert [name, ip] in alloc && [name, ip][1] == ip; }
    }
    var a :| a in net.Hosts() && a != HubAddress(net) && ip == ShowAddress(a);
    AddressIsWord(a);
  }

  lemma ViewsTogether(a: seq<Peer>, b: seq<Peer>)
    ensures ViewsOf(a + b) == ViewsOf(a) + ViewsOf(b)
  {
  }

  lemma ViewsSnoc(peers: seq<Peer>, p: Peer)
    ensures ViewsOf(peers + [p]) == ViewsOf(peers) + [ViewOf(p)]
  {
  }

  // ----- joins -----

  predicate RegistryOnly(c: Command) {
    c.AppendAlloc? || c.WriteSites?
  }

  lemma {:induction false} RegistriesLeave(h: Hub, plan: seq<Command>)
    requires forall c :: c in plan ==> RegistryOnly(c)
    ensures var now := Run(Exec, h, plan); now.conf == h.conf && now.live == h.live && now.routes == h.routes
    decreases |plan|
  {
    if plan != [] {
      assert plan[0] in plan;
      RegistriesLeave(Exec(h, plan[0]), plan[1..]);
    }
  }

  /** The addresses routed by the first k commands that set a peer live. */
  function RoutedBy(ip: string, cidr: string, k: nat): set<string> {
    (if k >= 2 then {ip + "/32"} else {}) + (if k >= 3 then {cidr} else {})
  }

  /** The first commands that set the peer live. */
  lemma SetPrefix(h: Hub, key: string, ip: string, cidr: string, k: nat)
    requires k <= 3
    ensures var now := Run(Exec, h, SetPlan(key, ip, cidr)[..k]);
            && now.conf == h.conf
            && now.live == (if k == 0 then h.live else LivePeers.Claim(h.live, key, {ip + "/32", cidr}))
            && now.routes == h.routes + RoutedBy(ip, cidr, k)
  {
    var plan := SetPlan(key, ip, cidr);
    assert plan[..0] == [];
    if k >= 1 { RunMore(Exec, h, plan, 0); }
    if k >= 2 { RunMore(Exec, h, plan, 1); }
    if k >= 3 { RunMore(Exec, h, plan, 2); }
  }

  lemma NewPrefix(h: Hub, p: Peer, key: string, ip: string, cidr: string, k: nat)
    requires 0 < k <= 4
    ensures var now := Run(Exec, h, ([AppendConf(p)] + SetPlan(key, ip, cidr))[..k]);
            && now.conf == Append(h.conf, p)
            && now.live == (if k == 1 then h.live else LivePeers.Claim(h.live, key, {ip + "/32", cidr}))
            && now.routes == h.routes + RoutedBy(ip, cidr, k - 1)
  {
    var c := AppendConf(p);
    RunInto(Exec, h, [c], SetPlan(key, ip, cidr), k - 1);
    RunOne(Exec, h, c);
    SetPrefix(Exec(h, c), key, ip, cidr, k - 1);
  }

  /** How many commands of a join only write registries. */
  function Registering(net: Network, h: Hub, name: string): nat
    requires AllocatedIp(net, h.alloc, name).Some?
  {
    |AllocPlan(net, h.alloc, name)| + 1
  }

  /** The site has a block, and the query for it got through. */
  predicate Seen(h: Hub, name: string, asked: bool) {
    asked && HasPeer(ReadPeers(h.conf), name)
  }

  /** A hub on which a join appended the peer's block, or not, and sent the first k commands that set it live. */
  predicate Entered(h: Hub, now: Hub, p: Peer, ip: string, cidr: string, appended: bool, k: nat) {
    && now.conf == (if appended then Append(h.conf, p) else h.conf)
    && now.live == (if k == 0 then h.live else LivePeers.Claim(h.live, p.key, {ip + "/32", cidr}))
    && now.routes == h.routes + RoutedBy(ip, cidr, k)
  }

  /** A join's first commands write registries only. */
  lemma {:induction false} JoinEarly(net: Network, h: Hub, name: string, cidr: string, key: string, asked: bool, n: nat)
    requires AllocatedIp(net, h.alloc, name).Some? && n <= Registering(net, h, name)
    requires n <= |JoinPlan(h, net, name, cidr, key, asked)|
    ensures var now := Run(Exec, h, JoinPlan(h, net, name, cidr, key, asked)[..n]);
            now.conf == h.conf && now.live == h.live && now.routes == h.routes
  {
    RegistriesOnly(net, h, name, cidr);
    RegistriesFirst(h, AllocPlan(net, h.alloc, name) + SitePlan(h, name, cidr),
                    PeerPlan(h, name, key, AllocatedIp(net, h.alloc, name).value, cidr, asked), n);
  }

  /** What the commands after them make of wg0.conf, of the running interface and of the routes. */
  lemma {:induction false} JoinLate(net: Network, h: Hub, name: string, cidr: string, key: string, asked: bool, n: nat)
    requires WellFormed(h.conf) && AllocatedIp(net, h.alloc, name).Some?
    requires Registering(net, h, name) < n <= |JoinPlan(h, net, name, cidr, key, asked)|
    ensures var ip, k := AllocatedIp(net, h.alloc, name).value, n - Registering(net, h, name);
            Entered(h, Run(Exec, h, JoinPlan(h, net, name, cidr, key, asked)[..n]), PeerOf(name, key, ip, cidr),
                    ip, cidr, !Seen(h, name, asked), if Seen(h, name, asked) then k else k - 1)
  {
    RegistriesOnly(net, h, name, cidr);
    PeerAfter(h, AllocPlan(net, h.alloc, name) + SitePlan(h, name, cidr), JoinPlan(h, net, name, cidr, key, asked),
      name,
              key, AllocatedIp(net, h.alloc, name).value, cidr, asked, Registering(net, h, name), n);
  }

  lemma {:induction false} PeerAfter(h: Hub, registries: seq<Command>, plan: seq<Command>, name: string, key: string,
                                     ip: string,
                  cidr: string, asked: bool, first: nat, n: nat)
    requires WellFormed(h.conf) && first == |registries| && forall c :: c in registries ==> RegistryOnly(c)
    requires plan == registries + PeerPlan(h, name, key, ip, cidr, asked) && first < n <= |plan|
    ensures Entered(h, Run(Exec, h, plan[..n]), PeerOf(name, key, ip, cidr), ip, cidr,
                    !Seen(h, name, asked), if Seen(h, name, asked) then n - first else n - first - 1)
  {
    RegistriesLeave(h, registries);
    PeerPrefix(Run(Exec, h, registries), h, name, key, ip, cidr, asked, n - first);
    RunAfter(Exec, h, registries, PeerPlan(h, name, key, ip, cidr, asked), n);
  }

  lemma RegistriesOnly(net: Network, h: Hub, name: string, cidr: string)
    requires AllocatedIp(net, h.alloc, name).Some?
    ensures var plan := AllocPlan(net, h.alloc, name) + SitePlan(h, name, cidr);
            |plan| == Registering(net, h, name) && forall c :: c in plan ==> RegistryOnly(c)
  {
  }

  lemma RegistriesFirst(h: Hub, plan: seq<Command>, rest: seq<Command>, n: nat)
    requires n <= |plan| && forall c :: c in plan ==> RegistryOnly(c)
    ensures var now := Run(Exec, h, (plan + rest)[..n]);
            now.conf == h.conf && now.live == h.live && now.routes == h.routes
  {
    assert (plan + rest)[..n] == plan[..n];
    RegistriesLeave(h, plan[..n]);
  }

  /** The same for the commands of the peer, once the registries are written. */
  lemma PeerPrefix(now: Hub, h: Hub, name: string, key: string, ip: string, cidr: string, asked: bool, n: nat)
    requires WellFormed(h.conf) && now.conf == h.conf && now.live == h.live && now.routes == h.routes
    requires 0 < n <= |PeerPlan(h, name, key, ip, cidr, asked)|
    ensures Entered(h, Run(Exec, now, PeerPlan(h, name, key, ip, cidr, asked)[..n]), PeerOf(name, key, ip, cidr),
                    ip, cidr, !Seen(h, name, asked), if Seen(h, name, asked) then n else n - 1)
  {
    MarkerFinds(h.conf, name);
    if Seen(h, name, asked) {
      assert [] + SetPlan(key, ip, cidr) == SetPlan(key, ip, cidr);
      SetPrefix(now, key, ip, cidr, n);
    } else {
      NewPrefix(now, PeerOf(name, key, ip, cidr), key, ip, cidr, n);
    }
  }

  /**
   A join that stops after any of its commands leaves the running interface what a restart would give if and only if its
   key already had these addresses, or a site whose block was seen was not set live yet, or the stop was not between
   writing a block and setting it live. That a block was overlooked and is there twice then does not matter.
   */
  lemma {:induction false} StoppedJoinAgreesIff(net: Network, h: Hub, name: string, cidr: string, key: string,
                                                asked: bool, n: nat)
    requires Inv(net, h) && LiveAgrees(h) && AllocatedIp(net, h.alloc, name).Some?
    requires IsWord(name) && IsWord(key) && Plain(cidr)
    requires n <= |JoinPlan(h, net, name, cidr, key, asked)|
    ensures var addresses := {AllocatedIp(net, h.alloc, name).value + "/32", cidr};
            var first := Registering(net, h, name);
            LiveAgrees(Run(Exec, h, JoinPlan(h, net, name, cidr, key, asked)[..n])) <==>
            || (key in h.live && h.live[key] == addresses)
            || (if Seen(h, name, asked) then n <= first else n != first + 1)
  {
    var first, now := Registering(net, h, name), Run(Exec, h, JoinPlan(h, net, name, cidr, key, asked)[..n]);
    if n <= first {
      JoinEarly(net, h, name, cidr, key, asked, n);
      Unchanged(h, now);
    } else {
      AllocatedIsPlain(net, h.alloc, name);
      JoinLate(net, h, name, cidr, key, asked, n);
      EnteredAgreesIff(h, now, name, key, AllocatedIp(net, h.alloc, name).value, cidr, asked, n - first);
    }
  }

  lemma Unchanged(h: Hub, now: Hub)
    requires now.conf == h.conf && now.live == h.live && now.routes == h.routes
    ensures LiveAgrees(now) == LiveAgrees(h) && Routed(now) == Routed(h)
  {
  }

  lemma {:induction false} EnteredAgreesIff(h: Hub, now: Hub, name: string, key: string, ip: string, cidr: string,
                                            asked: bool, n: nat)
    requires WellFormed(h.conf) && LiveAgrees(h) && IsWord(key) && Plain(ip) && Plain(cidr) && 0 < n
    requires Entered(h, now, PeerOf(name, key, ip, cidr), ip, cidr, !Seen(h, name, asked),
                     if Seen(h, name, asked) then n else n - 1)
    ensures LiveAgrees(now) <==>
            (key in h.live && h.live[key] == {ip + "/32", cidr}) || (!Seen(h, name, asked) && n != 1)
  {
    LivePeers.KnownPeerAgreesIff(ViewsOf(ReadPeers(h.conf)), key, {ip + "/32", cidr});
    AppendedAgrees(h.conf, name, key, ip, cidr);
  }

  /** A restart with one block more, of a new name or not: its addresses are claimed last. */
  lemma AppendedAgrees(conf: Lines, name: string, key: string, ip: string, cidr: string)
    requires WellFormed(conf) && IsWord(key) && Plain(ip) && Plain(cidr)
    ensures LivePeers.Restart(ViewsOf(ReadPeers(Append(conf, PeerOf(name, key, ip, cidr))))) ==
            LivePeers.Claim(LivePeers.Restart(ViewsOf(ReadPeers(conf))), key, {ip + "/32", cidr})
  {
    var p := PeerOf(name, key, ip, cidr);
    ReadAppended(conf, p);
    PartsOfPeer(name, key, ip, cidr);
    ViewsSnoc(ReadPeers(conf), p);
    LivePeers.NewPeerAgrees(ViewsOf(ReadPeers(conf)), ViewOf(p));
  }

  /**
   A join that completes leaves the running interface what a restart would give if and only if the site had no block, or
   its key already had exactly these addresses: a block is never rewritten. What other peers lose to it does not matter.
   */
  lemma JoinAgreesIff(net: Network, h: Hub, name: string, cidr: string, key: string)
    requires Inv(net, h) && LiveAgrees(h) && AllocatedIp(net, h.alloc, name).Some?
    requires IsWord(name) && IsWord(key) && Plain(cidr)
    ensures var addresses := {AllocatedIp(net, h.alloc, name).value + "/32", cidr};
            LiveAgrees(Run(Exec, h, JoinPlan(h, net, name, cidr, key, true))) <==>
            !HasPeer(ReadPeers(h.conf), name) || (key in h.live && h.live[key] == addresses)
  {
    var plan := JoinPlan(h, net, name, cidr, key, true);
    assert plan[..|plan|] == plan;
    StoppedJoinAgreesIff(net, h, name, cidr, key, true, |plan|);
  }

  /** In such a hub a key has the addresses of its last block that no later block has. */
  lemma LiveIsLastBlock(h: Hub, before: seq<Peer>, p: Peer, later: seq<Peer>)
    requires LiveAgrees(h) && ReadPeers(h.conf) == before + [p] + later
    requires forall q :: q in later ==> q.key != p.key
    ensures p.key in h.live
    ensures h.live[p.key] == Parts(p.allowed) - LivePeers.Addresses(ViewsOf(later))
  {
    ViewsTogether(before + [p], later);
    ViewsSnoc(before, p);
    forall i | 0 <= i < |later| ensures ViewsOf(later)[i].key != p.key { assert later[i] in later; }
    LivePeers.RestartGives(ViewsOf(before), ViewOf(p), ViewsOf(later));
  }

  // ----- retirement -----

  lemma LaterDistinct(peers: seq<Peer>)
    requires DistinctPeers(peers) && peers != []
    ensures DistinctPeers(peers[1..]) && !HasPeer(peers[1..], peers[0].name)
  {
    var rest := peers[1..];
    assert forall i :: 0 <= i < |rest| ==> rest[i] == peers[i + 1];
  }

  lemma FirstKept(peers: seq<Peer>, at: nat)
    requires 0 < at < |peers|
    ensures peers[..at] + peers[at + 1..] == [peers[0]] + (peers[1..][..at - 1] + peers[1..][at..])
  {
  }

  /** Without its only block of that name a file has the blocks before it and after it. */
  lemma {:induction false} DroppingOne(peers: seq<Peer>, at: nat)
    requires DistinctPeers(peers) && at < |peers|
    ensures Dropping(peers, peers[at].name) == peers[..at] + peers[at + 1..]
  {
    LaterDistinct(peers);
    if at == 0 {
      AbsentDrops(peers[1..], peers[0].name);
    } else {
      assert peers[at] == peers[1..][at - 1];
      DroppingOne(peers[1..], at - 1);
      FirstKept(peers, at);
    }
  }

  lemma SliceAt(peers: seq<Peer>, at: nat)
    requires at < |peers|
    ensures peers[..at] + [peers[at]] + peers[at + 1..] == peers
  {
  }

  lemma {:induction false} BlockRemoved(live: LivePeers.Live, peers: seq<Peer>, at: nat)
    requires live == LivePeers.Restart(ViewsOf(peers)) && DistinctPeers(peers) && at < |peers|
    ensures var left := ViewsOf(Dropping(peers, peers[at].name));
            live - {peers[at].key} == LivePeers.Restart(left) <==> LivePeers.NothingComesBack(live, peers[at].key, left)
  {
    DroppingOne(peers, at);
    SliceAt(peers, at);
    RemovalAgreesIff(live, peers[..at], peers[at], peers[at + 1..]);
  }

  lemma RemovalAgreesIff(live: LivePeers.Live, before: seq<Peer>, p: Peer, later: seq<Peer>)
    requires live == LivePeers.Restart(ViewsOf(before + [p] + later))
    ensures live - {p.key} == LivePeers.Restart(ViewsOf(before + later)) <==>
            LivePeers.NothingComesBack(live, p.key, ViewsOf(before + later))
  {
    ViewsTogether(before + [p], later);
    ViewsTogether(before, later);
    ViewsSnoc(before, p);
    LivePeers.RemovedPeerAgreesIff(ViewsOf(before), ViewOf(p), ViewsOf(later));
  }

  lemma PeerAt(peers: seq<Peer>, name: string, key: string) returns (at: nat)
    requires HasPeer(peers, name) && forall p :: p in peers && p.name == name ==> p.key == key
    ensures at < |peers| && peers[at].name == name && peers[at].key == key
  {
    at :| at < |peers| && peers[at].name == name;
    assert peers[at] in peers;
  }

  lemma NoSuchKey(live: LivePeers.Live, key: string)
    requires key !in live
    ensures live - {key} == live
  {
  }

  lemma {:induction false} RemovedFromBoth(live: LivePeers.Live, peers: seq<Peer>, name: string, key: string)
    requires live == LivePeers.Restart(ViewsOf(peers)) && DistinctPeers(peers) && "" !in live
    requires forall p :: p in peers && p.name == name ==> p.key == key
    requires !HasPeer(peers, name) ==> key == ""
    ensures live - {key} == LivePeers.Restart(ViewsOf(Dropping(peers, name))) <==>
            !HasPeer(peers, name) || LivePeers.NothingComesBack(live, key, ViewsOf(Dropping(peers, name)))
  {
    if HasPeer(peers, name) {
      var at := PeerAt(peers, name, key);
      BlockRemoved(live, peers, at);
    } else {
      AbsentDrops(peers, name);
      NoSuchKey(live, key);
    }
  }

  lemma NoEmptyKey(peers: seq<Peer>)
    requires forall p :: p in peers ==> Proper(p)
    ensures "" !in LivePeers.Restart(ViewsOf(peers))
  {
    LivePeers.RestartKeys(ViewsOf(peers), "");
    forall i | 0 <= i < |peers| ensures ViewsOf(peers)[i].key != "" { assert peers[i] in peers; }
  }

  /** What the retirement of a site does to the agreement: nothing may come back to another peer. */
  predicate NothingComesBack(h: Hub, name: string) {
    LivePeers.NothingComesBack(h.live, KeyOf(h.conf, name), ViewsOf(Dropping(ReadPeers(h.conf), name)))
  }

  /**
   A retirement leaves the running interface what a restart would give if and only if its removal failed, or the site
   had no block, or no other block has its key and none gets an address back that only the removed peer had.
   */
  lemma RetireAgreesIff(net: Network, h: Hub, name: string, cidr: string, o: Outcome)
    requires Inv(net, h) && LiveAgrees(h)
    ensures LiveAgrees(Retired(h, name, cidr, o)) <==>
            !o.peer || !HasPeer(ReadPeers(h.conf), name) || NothingComesBack(h, name)
  {
    RetiredParts(h, name, cidr, o);
    MarkerFinds(h.conf, name);
    RemoveDrops(h.conf, name);
    NoEmptyKey(ReadPeers(h.conf));
    RemovedFromBoth(h.live, ReadPeers(h.conf), name, KeyOf(h.conf, name));
  }

  // ----- the kernel's routes -----

  /** Every address of a block is routed to the interface. */
  predicate AllRouted(routes: set<string>, peers: seq<Peer>) {
    forall i :: 0 <= i < |peers| ==> Parts(peers[i].allowed) <= routes
  }

  predicate Routed(h: Hub) {
    AllRouted(h.routes, ReadPeers(h.conf))
  }

  lemma OneRouted(routes: set<string>, more: set<string>, peers: seq<Peer>, p: Peer)
    requires AllRouted(routes, peers)
    ensures AllRouted(routes + more, peers)
    ensures AllRouted(routes + more, peers + [p]) <==> Parts(p.allowed) <= routes + more
  {
    var all := peers + [p];
    assert all[|peers|] == p;
    forall i | 0 <= i < |peers| ensures all[i] == peers[i] && Parts(peers[i].allowed) <= routes + more {}
  }

  /**
   A join that stops after any of its commands leaves every address of a block routed if and only if it wrote no block,
   or the addresses of the one it wrote are routed by then: by one of the two last commands, or from before.
   */
  lemma {:induction false} StoppedJoinRoutesIff(net: Network, h: Hub, name: string, cidr: string, key: string,
                                                asked: bool, n: nat)
    requires Inv(net, h) && Routed(h) && AllocatedIp(net, h.alloc, name).Some?
    requires IsWord(name) && IsWord(key) && Plain(cidr)
    requires n <= |JoinPlan(h, net, name, cidr, key, asked)|
    ensures var ip, first := AllocatedIp(net, h.alloc, name).value, Registering(net, h, name);
            Routed(Run(Exec, h, JoinPlan(h, net, name, cidr, key, asked)[..n])) <==>
            || Seen(h, name, asked) || n <= first
            || {ip + "/32", cidr} <= h.routes + RoutedBy(ip, cidr, n - first - 1)
  {
    var first, now := Registering(net, h, name), Run(Exec, h, JoinPlan(h, net, name, cidr, key, asked)[..n]);
    if n <= first {
      JoinEarly(net, h, name, cidr, key, asked, n);
      Unchanged(h, now);
    } else {
      AllocatedIsPlain(net, h.alloc, name);
      JoinLate(net, h, name, cidr, key, asked, n);
      EnteredRoutesIff(h, now, name, key, AllocatedIp(net, h.alloc, name).value, cidr, asked, n - first);
    }
  }

  lemma {:induction false} EnteredRoutesIff(h: Hub, now: Hub, name: string, key: string, ip: string, cidr: string,
                                            asked: bool, n: nat)
    requires WellFormed(h.conf) && Routed(h) && IsWord(key) && Plain(ip) && Plain(cidr) && 0 < n
    requires Entered(h, now, PeerOf(name, key, ip, cidr), ip, cidr, !Seen(h, name, asked),
                     if Seen(h, name, asked) then n else n - 1)
    ensures Routed(now) <==> Seen(h, name, asked) || {ip + "/32", cidr} <= h.routes + RoutedBy(ip, cidr, n - 1)
  {
    var p := PeerOf(name, key, ip, cidr);
    ReadAppended(h.conf, p);
    PartsOfPeer(name, key, ip, cidr);
    OneRouted(h.routes, RoutedBy(ip, cidr, if Seen(h, name, asked) then n else n - 1), ReadPeers(h.conf), p);
  }

  /** A retirement does if and only if its route stayed, or no block that is left has its network. */
  lemma RetireRoutesIff(net: Network, h: Hub, name: string, cidr: string, o: Outcome)
    requires Inv(net, h) && Routed(h)
    ensures Routed(Retired(h, name, cidr, o)) <==>
            !o.route || forall p :: p in PeersLeft(h, name, o) ==> cidr !in Parts(p.allowed)
  {
    RetiredParts(h, name, cidr, o);
    RemoveDrops(h.conf, name);
    StillRouted(h.routes, ReadPeers(h.conf), PeersLeft(h, name, o), cidr);
  }

  lemma StillRouted(routes: set<string>, peers: seq<Peer>, left: seq<Peer>, cidr: string)
    requires AllRouted(routes, peers) && forall p :: p in left ==> p in peers
    ensures AllRouted(routes, left)
    ensures AllRouted(routes - {cidr}, left) <==> forall p :: p in left ==> cidr !in Parts(p.allowed)
  {
    forall i | 0 <= i < |left| ensures Parts(left[i].allowed) <= routes {
      assert left[i] in peers;
      var j :| 0 <= j < |peers| && peers[j] == left[i];
    }
    forall p | p in left && AllRouted(routes - {cidr}, left) ensures cidr !in Parts(p.allowed) {
      var i :| 0 <= i < |left| && left[i] == p;
    }
    if forall p :: p in left ==> cidr !in Parts(p.allowed) {
      forall i | 0 <= i < |left| ensures Parts(left[i].allowed) <= routes - {cidr} { assert left[i] in left; }
    }
  }

  /** Retiring a site whose network another site shares takes the other's route away. */
  lemma SharedRouteLost(net: Network, h: Hub, name: string, cidr: string, o: Outcome, other: Peer)
    requires Inv(net, h) && Routed(h) && o.route && other in ReadPeers(h.conf) && other.name != name
    requires cidr in Parts(other.allowed)
    ensures cidr !in Retired(h, name, cidr, o).routes && !Routed(Retired(h, name, cidr, o))
  {
    RetiredParts(h, name, cidr, o);
    RetireRoutesIff(net, h, name, cidr, o);
    assert other in PeersLeft(h, name, o);
  }
}
