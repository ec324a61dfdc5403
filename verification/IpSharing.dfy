/**
 What holds in every order of allocations and registrations of a lab's nodes: when two nodes may come to share an
 address, and when a node avoids the addresses the zone already had.
 */
module IpSharing {
  import opened IpAlloc
  import opened Ipv4
  import opened Text
  import opened Wrappers

  /** The address a node has, or would be given because the look-up answers it; "" for neither. */
  function Wants(world: World, lab: Lab, v: string): string
    requires v in lab.nodes
  {
    if lab.nodes[v] != "" then lab.nodes[v]
    else if Registered(world, lab, v) then Lookup(world, lab.zone, v)
    else ""
  }

  predicate UniqueWants(world: World, lab: Lab) {
    forall v, w :: v in lab.nodes && w in lab.nodes && v != w && Wants(world, lab, v) != "" ==>
      Wants(world, lab, v) != Wants(world, lab, w)
  }

  /** Two nodes with one first label that no record of the zone has: what one registers will answer for the other. */
  predicate SameLabel(lab: Lab, v: string, w: string) {
    && v in lab.nodes && w in lab.nodes && v != w
    && Short(v) == Short(w) != "" && Recorded(lab.zone, Short(v)) == None
  }

  predicate Outside(lab: Lab, ip: string) {
    IsAddress(ip) && !InNetwork(lab, ip)
  }

  /** The node has no address and looks for a free one. */
  predicate Searches(world: World, lab: Lab, w: string) {
    && w in lab.nodes && lab.nodes[w] == "" && lab.common.network.Some? && !Registered(world, lab, w)
    && (Lookup(world, lab.zone, w) == "" || IsAddress(Lookup(world, lab.zone, w)))
  }

  /** It does, or will once a node with its first label registers an address outside the network. */
  ghost predicate MaySearch(world: World, lab: Lab, w: string) {
    || Searches(world, lab, w)
    || (w in lab.nodes && lab.nodes[w] == "" && lab.common.network.Some?
        && exists o :: SameLabel(lab, o, w) && Outside(lab, lab.nodes[o]))
  }

  /** Node v waits for a host address that only the resolver knows. */
  predicate Waits(world: World, lab: Lab, v: string) {
    && v in lab.nodes && lab.nodes[v] == "" && Registered(world, lab, v)
    && IsHost(lab.common.network.value, Lookup(world, lab.zone, v))
    && Lookup(world, lab.zone, v) !in Taken(world, lab, {})
  }

  /** Node o has an address in the network that, once registered, w would be given too. */
  predicate Follows(lab: Lab, o: string, w: string) {
    SameLabel(lab, o, w) && lab.nodes[w] == "" && InNetwork(lab, lab.nodes[o])
  }

  /** Neither has an address, and what v may be given and register, w would be given too. */
  predicate Twins(world: World, lab: Lab, v: string, w: string) {
    SameLabel(lab, v, w) && lab.nodes[v] == "" && lab.nodes[w] == "" && Allocate(world, lab, v, {}, {}).Chosen?
  }

  ghost predicate Harms(world: World, lab: Lab, v: string, w: string) {
    (v != w && Waits(world, lab, v) && MaySearch(world, lab, w)) || Follows(lab, v, w) || Twins(world, lab, v, w)
  }

  ghost predicate Safe(world: World, lab: Lab) {
    UniqueWants(world, lab) && forall v, w :: !Harms(world, lab, v, w)
  }

  predicate Unshared(nodes: map<string, string>) {
    forall v, w :: v in nodes && w in nodes && v != w && nodes[v] != "" ==> nodes[v] != nodes[w]
  }

  // ----- allocating in a safe lab -----

  /**
   What is given in a later lab, where more is taken and the look-up answers the same, could have been given before.
   */
  lemma {:induction false} ChosenBefore(world: World, a: Lab, b: Lab, v: string, used: set<string>,
                                        answers: set<string>)
    requires a.common == b.common && OwnIp(a, v) == OwnIp(b, v) == "" && Taken(world, a, {}) <= Taken(world, b, used)
    requires Lookup(world, a.zone, v) == Lookup(world, b.zone, v) && Allocate(world, b, v, used, answers).Chosen?
    ensures Allocate(world, a, v, {}, {}).Chosen?
  {
    RegisteredAlike(world, a, b, v);
    AllocateGives(world, a, v, {}, {});
    if !Registered(world, b, v) {
      AllocateGives(world, b, v, used, answers);
      NotNoneLeft(world, a, Allocate(world, b, v, used, answers).ip);
    }
  }

  lemma RegisteredAlike(world: World, a: Lab, b: Lab, v: string)
    requires a.common == b.common && Lookup(world, a.zone, v) == Lookup(world, b.zone, v)
    ensures Registered(world, a, v) == Registered(world, b, v)
  {
  }

  lemma NotNoneLeft(world: World, lab: Lab, ip: string)
    requires lab.common.network.Some? && IsHost(lab.common.network.value, ip) && ip !in Taken(world, lab, {})
    ensures !NoneLeft(world, lab, {}, {})
  {
    var a :| a in lab.common.network.value.Hosts() && ip == ShowAddress(a);
  }

  lemma TakenMore(world: World, lab: Lab, name: string, ip: string)
    requires name in lab.nodes && lab.nodes[name] == "" && IsAddress(ip)
    ensures Taken(world, lab, {}) <= Taken(world, WithIp(lab, name, ip), {})
  {
    PinnedAfter(lab.nodes, name, ip);
  }

  lemma TakenWithRecord(world: World, lab: Lab, name: string)
    requires name in lab.nodes
    ensures Taken(world, lab, {}) <= Taken(world, WithRecord(lab, name), {})
  {
    LedgerGrows(lab.zone, WithRecord(lab, name).zone);
  }

  lemma WantsAfterGiving(world: World, lab: Lab, name: string, ip: string, v: string)
    requires name in lab.nodes && lab.nodes[name] == "" && ip != "" && v in lab.nodes
    ensures Wants(world, WithIp(lab, name, ip), v) == if v == name then ip else Wants(world, lab, v)
  {
  }

  /** What a node without an address is given is wanted by nobody else. */
  lemma ChosenIsUnwanted(world: World, lab: Lab, name: string, used: set<string>, answers: set<string>, v: string)
    requires Safe(world, lab) && name in lab.nodes && lab.nodes[name] == "" && v in lab.nodes && v != name
    requires Allocate(world, lab, name, used, answers).Chosen?
    ensures Wants(world, lab, v) != Allocate(world, lab, name, used, answers).ip
  {
    var ip := Allocate(world, lab, name, used, answers).ip;
    ChosenInNetwork(world, lab, name, used, answers);
    AllocateGives(world, lab, name, used, answers);
    if Registered(world, lab, name) {
      assert Wants(world, lab, name) == ip;
    } else {
      assert Searches(world, lab, name) && !Harms(world, lab, v, name);
      FreeIsUnwanted(world, lab, used, ip, v);
    }
  }

  lemma FreeIsUnwanted(world: World, lab: Lab, used: set<string>, ip: string, v: string)
    requires v in lab.nodes && !Waits(world, lab, v) && IsAddress(ip) && ip !in Taken(world, lab, used)
    requires lab.common.network.Some? && IsHost(lab.common.network.value, ip)
    ensures Wants(world, lab, v) != ip
  {
    EmptyIsNoAddress();
    assert ip !in Pinned(lab.nodes) && ip !in Taken(world, lab, {});
  }

  /** A node that can be given an address is alone with its first label, or a record has that. */
  lemma ChosenIsAlone(world: World, lab: Lab, name: string, used: set<string>, answers: set<string>, w: string)
    requires Safe(world, lab) && name in lab.nodes && lab.nodes[name] == ""
    requires Allocate(world, lab, name, used, answers).Chosen?
    ensures SameLabel(lab, name, w) ==> lab.nodes[w] != ""
  {
    ChosenBefore(world, lab, lab, name, used, answers);
    assert !Harms(world, lab, name, w);
  }

  lemma GivingHarmsNone(world: World, lab: Lab, name: string, ip: string, v: string, w: string)
    requires name in lab.nodes && lab.nodes[name] == "" && InNetwork(lab, ip) && ip != ""
    requires SameLabel(lab, name, w) ==> lab.nodes[w] != ""
    ensures Harms(world, WithIp(lab, name, ip), v, w) ==> Harms(world, lab, v, w)
  {
    var now := WithIp(lab, name, ip);
    TakenMore(world, lab, name, ip);
    if Twins(world, now, v, w) { ChosenBefore(world, lab, now, v, {}, {}); }
    if MaySearch(world, now, w) && !Searches(world, now, w) {
      var o :| SameLabel(now, o, w) && Outside(now, now.nodes[o]);
      assert SameLabel(lab, o, w) && Outside(lab, lab.nodes[o]);
    }
  }

  lemma GiveStaysSafe(world: World, lab: Lab, name: string, used: set<string>, answers: set<string>)
    requires Safe(world, lab) && name in lab.nodes && lab.nodes[name] == ""
    requires Allocate(world, lab, name, used, answers).Chosen?
    ensures Safe(world, WithIp(lab, name, Allocate(world, lab, name, used, answers).ip))
  {
    var ip := Allocate(world, lab, name, used, answers).ip;
    ChosenInNetwork(world, lab, name, used, answers);
    forall v, w ensures !Harms(world, WithIp(lab, name, ip), v, w) {
      assert !Harms(world, lab, v, w);
      ChosenIsAlone(world, lab, name, used, answers, w);
      GivingHarmsNone(world, lab, name, ip, v, w);
    }
    forall v | v in lab.nodes
      ensures Wants(world, WithIp(lab, name, ip), v) == if v == name then ip else Wants(world, lab, v)
      ensures v != name ==> Wants(world, lab, v) != ip
    {
      WantsAfterGiving(world, lab, name, ip, v);
      if v != name { ChosenIsUnwanted(world, lab, name, used, answers, v); }
    }
  }

  // ----- registering in a safe lab -----

  /**
   A registration changes the answer for the nodes of that label only, and what they had waited for they do no more.
   */
  lemma WantsAfterRegistering(world: World, lab: Lab, name: string, v: string)
    requires name in lab.nodes && lab.nodes[name] != "" && v in lab.nodes && !Follows(lab, name, v)
    ensures Wants(world, WithRecord(lab, name), v) in {"", Wants(world, lab, v)}
    ensures Registered(world, WithRecord(lab, name), v) && lab.nodes[v] == "" ==>
              Registered(world, lab, v) && Lookup(world, WithRecord(lab, name).zone, v) == Lookup(world, lab.zone, v)
  {
    LookupAfter(world, lab, name, v);
    assert SameLabel(lab, name, v) || v == name ||
           Lookup(world, WithRecord(lab, name).zone, v) == Lookup(world, lab.zone, v);
  }

  lemma LabelAfter(lab: Lab, name: string, v: string, w: string)
    requires name in lab.nodes
    ensures SameLabel(WithRecord(lab, name), v, w) ==> SameLabel(lab, v, w) && Short(name) != Short(w)
  {
    RecordedAppended(lab.zone, ARecord(name, lab.nodes[name]), Short(v));
  }

  lemma SearchesBefore(world: World, lab: Lab, name: string, w: string)
    requires name in lab.nodes && lab.nodes[name] != "" && !Follows(lab, name, w)
    ensures MaySearch(world, WithRecord(lab, name), w) ==> MaySearch(world, lab, w)
  {
    var now := WithRecord(lab, name);
    LookupAfter(world, lab, name, w);
    if Searches(world, now, w) {
      if SameLabel(lab, name, w) { assert Outside(lab, lab.nodes[name]); } else { assert Searches(world, lab, w); }
    } else if MaySearch(world, now, w) {
      var o :| SameLabel(now, o, w) && Outside(now, now.nodes[o]);
      LabelAfter(lab, name, o, w);
      assert SameLabel(lab, o, w) && Outside(lab, lab.nodes[o]);
    }
  }

  lemma RegisteringHarmsNone(world: World, lab: Lab, name: string, v: string, w: string)
    requires name in lab.nodes && lab.nodes[name] != "" && forall x :: !Follows(lab, name, x)
    ensures Harms(world, WithRecord(lab, name), v, w) ==> Harms(world, lab, v, w)
  {
    var now := WithRecord(lab, name);
    TakenWithRecord(world, lab, name);
    LabelAfter(lab, name, v, w);
    SearchesBefore(world, lab, name, w);
    if v in lab.nodes { WantsAfterRegistering(world, lab, name, v); }
    if Twins(world, now, v, w) {
      LookupAfter(world, lab, name, v);
      ChosenBefore(world, lab, now, v, {}, {});
    }
  }

  lemma RegisterStaysSafe(world: World, lab: Lab, name: string)
    requires Safe(world, lab) && name in lab.nodes && lab.nodes[name] != ""
    ensures Safe(world, WithRecord(lab, name))
  {
    forall x ensures !Follows(lab, name, x) { assert !Harms(world, lab, name, x); }
    forall v, w ensures !Harms(world, WithRecord(lab, name), v, w) {
      assert !Harms(world, lab, v, w);
      RegisteringHarmsNone(world, lab, name, v, w);
    }
    forall v | v in lab.nodes ensures Wants(world, WithRecord(lab, name), v) in {"", Wants(world, lab, v)} {
      WantsAfterRegistering(world, lab, name, v);
    }
  }

  lemma StepStaysSafe(world: World, lab: Lab, step: Step)
    requires Safe(world, lab)
    ensures Safe(world, After(world, lab, step))
  {
    match step {
      case Give(name, used, answers) =>
        if name in lab.nodes && lab.nodes[name] == "" && Allocate(world, lab, name, used, answers).Chosen? {
          GiveStaysSafe(world, lab, name, used, answers);
        }
      case Register(name) =>
        if name in lab.nodes && lab.nodes[name] != "" { RegisterStaysSafe(world, lab, name); }
    }
  }

  lemma {:induction false} StaysSafe(world: World, lab: Lab, steps: seq<Step>)
    requires Safe(world, lab)
    ensures Safe(world, AfterAll(world, lab, steps))
  {
    if steps != [] {
      StaysSafe(world, lab, steps[..|steps| - 1]);
      StepStaysSafe(world, AfterAll(world, lab, steps[..|steps| - 1]), steps[|steps| - 1]);
    }
  }

  lemma SafeIsUnshared(world: World, lab: Lab)
    requires Safe(world, lab)
    ensures Unshared(lab.nodes)
  {
    forall v, w | v in lab.nodes && w in lab.nodes && v != w && lab.nodes[v] != ""
      ensures lab.nodes[v] != lab.nodes[w]
    {
      assert Wants(world, lab, v) == lab.nodes[v];
    }
  }

  // ----- an unsafe lab comes to share an address -----

  lemma {:induction false} AfterFirst(world: World, lab: Lab, a: Step, rest: seq<Step>)
    ensures AfterAll(world, lab, [a] + rest) == AfterAll(world, After(world, lab, a), rest)
    decreases |rest|
  {
    var all := [a] + rest;
    if rest == [] {
      assert all[..0] == [] && all[|all| - 1] == a;
    } else {
      assert all[..|all| - 1] == [a] + rest[..|rest| - 1] && all[|all| - 1] == rest[|rest| - 1];
      AfterFirst(world, lab, a, rest[..|rest| - 1]);
    }
  }

  /** Whatever steps are taken, no two nodes share an address. */
  ghost predicate NeverShared(world: World, lab: Lab) {
    forall steps: seq<Step> :: Unshared(AfterAll(world, lab, steps).nodes)
  }

  lemma SharesLater(world: World, lab: Lab, a: Step)
    requires !NeverShared(world, After(world, lab, a))
    ensures !NeverShared(world, lab)
  {
    var rest :| !Unshared(AfterAll(world, After(world, lab, a), rest).nodes);
    AfterFirst(world, lab, a, rest);
  }

  lemma SharesNow(world: World, lab: Lab)
    requires !Unshared(lab.nodes)
    ensures !NeverShared(world, lab)
  {
    assert AfterAll(world, lab, []) == lab;
  }

  /** A node that wants an address is given it. */
  lemma WantedIsGiven(world: World, lab: Lab, v: string)
    requires v in lab.nodes && Wants(world, lab, v) != ""
    ensures After(world, lab, Give(v, {}, {})) == WithIp(lab, v, Wants(world, lab, v))
  {
    assert lab.nodes[v] != "" ==> lab.nodes[v := lab.nodes[v]] == lab.nodes;
  }

  /** A node that wants what another one has is given it all the same. */
  lemma WantedIsShared(world: World, lab: Lab, other: string, v: string)
    requires other in lab.nodes && v in lab.nodes && other != v && lab.nodes[other] != ""
    requires Wants(world, lab, v) == lab.nodes[other]
    ensures !NeverShared(world, lab)
  {
    WantedIsGiven(world, lab, v);
    var end := WithIp(lab, v, lab.nodes[other]);
    assert end.nodes[v] == end.nodes[other] != "";
    SharesNow(world, end);
    SharesLater(world, lab, Give(v, {}, {}));
  }

  lemma WantsShared(world: World, lab: Lab, v: string, w: string)
    requires v in lab.nodes && w in lab.nodes && v != w
    requires Wants(world, lab, v) != "" && Wants(world, lab, v) == Wants(world, lab, w)
    ensures !NeverShared(world, lab)
  {
    var ip := Wants(world, lab, v);
    WantedIsGiven(world, lab, v);
    assert Wants(world, WithIp(lab, v, ip), w) == ip;
    WantedIsShared(world, WithIp(lab, v, ip), v, w);
    SharesLater(world, lab, Give(v, {}, {}));
  }

  function OtherHosts(network: Network, r: string): set<string> {
    (set a | a in network.Hosts() :: ShowAddress(a)) - {r}
  }

  lemma OnlyHostLeft(network: Network, r: string, ip: string)
    requires IsHost(network, ip) && ip !in OtherHosts(network, r)
    ensures ip == r
  {
  }

  lemma HostIsFree(world: World, lab: Lab, r: string, used: set<string>)
    requires lab.common.network.Some? && IsHost(lab.common.network.value, r)
    requires r !in Taken(world, lab, {}) && r !in used
    ensures !NoneLeft(world, lab, used, {})
  {
    var a :| a in lab.common.network.value.Hosts() && r == ShowAddress(a);
  }

  /** With all other hosts in use, w is given the very address that v waits for. */
  lemma WaitedIsGiven(world: World, lab: Lab, v: string, w: string, used: set<string>)
    requires Waits(world, lab, v) && Searches(world, lab, w)
    requires used == OtherHosts(lab.common.network.value, Lookup(world, lab.zone, v))
    ensures Allocate(world, lab, w, used, {}) == Chosen(Lookup(world, lab.zone, v))
  {
    var r := Lookup(world, lab.zone, v);
    AllocateGives(world, lab, w, used, {});
    HostIsFree(world, lab, r, used);
    var given := Allocate(world, lab, w, used, {});
    assert given.Chosen?;
    OnlyHostLeft(lab.common.network.value, r, given.ip);
  }

  lemma WaitedIsShared(world: World, lab: Lab, v: string, w: string)
    requires v != w && Waits(world, lab, v) && Searches(world, lab, w)
    ensures !NeverShared(world, lab)
  {
    var r := Lookup(world, lab.zone, v);
    var used := OtherHosts(lab.common.network.value, r);
    WaitedIsGiven(world, lab, v, w, used);
    assert Wants(world, WithIp(lab, w, r), v) == r;
    WantedIsShared(world, WithIp(lab, w, r), w, v);
    SharesLater(world, lab, Give(w, used, {}));
  }

  /** What a node registers is given to another one of its label as well. */
  lemma FollowerIsGiven(world: World, lab: Lab, o: string, w: string)
    requires Follows(lab, o, w)
    ensures lab.nodes[o] != "" && After(world, lab, Register(o)) == WithRecord(lab, o)
    ensures Wants(world, WithRecord(lab, o), w) == lab.nodes[o]
  {
    EmptyIsNoAddress();
    LookupAfter(world, lab, o, w);
  }

  lemma FollowerShares(world: World, lab: Lab, o: string, w: string)
    requires Follows(lab, o, w)
    ensures !NeverShared(world, lab)
  {
    FollowerIsGiven(world, lab, o, w);
    WantedIsShared(world, WithRecord(lab, o), o, w);
    SharesLater(world, lab, Register(o));
  }

  lemma TwinsShare(world: World, lab: Lab, v: string, w: string)
    requires Twins(world, lab, v, w)
    ensures !NeverShared(world, lab)
  {
    ChosenInNetwork(world, lab, v, {}, {});
    var ip := Allocate(world, lab, v, {}, {}).ip;
    FollowerShares(world, WithIp(lab, v, ip), v, w);
    SharesLater(world, lab, Give(v, {}, {}));
  }

  /** The node o registers an address outside the network; the other one of its label then searches. */
  lemma OutsideRegistered(world: World, lab: Lab, o: string, w: string, v: string)
    requires SameLabel(lab, o, w) && Outside(lab, lab.nodes[o]) && lab.nodes[w] == "" && lab.common.network.Some?
    requires Waits(world, lab, v) && Short(v) != Short(w)
    ensures After(world, lab, Register(o)) == WithRecord(lab, o)
    ensures Waits(world, WithRecord(lab, o), v) && Searches(world, WithRecord(lab, o), w)
  {
    EmptyIsNoAddress();
    LookupAfter(world, lab, o, w);
    LookupAfter(world, lab, o, v);
    LedgerAppended(lab.zone, o, lab.nodes[o]);
  }

  lemma HarmIsShared(world: World, lab: Lab, v: string, w: string)
    requires Harms(world, lab, v, w)
    ensures !NeverShared(world, lab)
  {
    if Follows(lab, v, w) {
      FollowerShares(world, lab, v, w);
    } else if Twins(world, lab, v, w) {
      TwinsShare(world, lab, v, w);
    } else if Searches(world, lab, w) {
      WaitedIsShared(world, lab, v, w);
    } else {
      var o :| SameLabel(lab, o, w) && Outside(lab, lab.nodes[o]);
      if Short(v) == Short(w) {
        assert SameLabel(lab, v, w) && Twins(world, lab, v, w);
      } else {
        OutsideRegistered(world, lab, o, w, v);
        WaitedIsShared(world, WithRecord(lab, o), v, w);
        SharesLater(world, lab, Register(o));
      }
    }
  }

  /**
   No two nodes ever share an address, in no interleaving of allocations and registrations, if and only if at the start
   - no two nodes have or wait for the same address;
   - no node waits for a host address that only the resolver knows while another one looks for a free one, or may come
     to;
   - no node without an address has the first label of one whose address lies in the network, unless a record has it;
   - and no two nodes without an address have one first label that no record has, when one of them can be given any.
   */
  lemma NeverSharedIff(world: World, lab: Lab)
    ensures NeverShared(world, lab) <==> Safe(world, lab)
  {
    if Safe(world, lab) {
      forall steps ensures Unshared(AfterAll(world, lab, steps).nodes) {
        StaysSafe(world, lab, steps);
        SafeIsUnshared(world, AfterAll(world, lab, steps));
      }
    }
    if !Safe(world, lab) { UnsafeShares(world, lab); }
  }

  lemma UnsafeShares(world: World, lab: Lab)
    requires !Safe(world, lab)
    ensures !NeverShared(world, lab)
  {
    if v, w :| Harms(world, lab, v, w) {
      HarmIsShared(world, lab, v, w);
    } else {
      var v, w :| v in lab.nodes && w in lab.nodes && v != w && Wants(world, lab, v) != ""
                  && Wants(world, lab, v) == Wants(world, lab, w);
      WantsShared(world, lab, v, w);
    }
  }

  // ----- cases -----

  lemma TwoSteps(world: World, lab: Lab, a: Step, b: Step)
    ensures AfterAll(world, lab, [a, b]) == After(world, After(world, lab, a), b)
  {
    AfterFirst(world, lab, a, [b]);
    AfterFirst(world, After(world, lab, a), b, []);
    assert [a, b] == [a] + [b] && [b] == [b] + [];
  }

  /** Two nodes get one address: the second's name already resolves to the address the first is given. */
  lemma {:induction false} ResolverOnlyAddressIsShared(world: World, lab: Lab, first: string, second: string)
    requires lab.common.network.Some? && first in lab.nodes && second in lab.nodes && first != second
    requires lab.nodes[first] == "" && lab.nodes[second] == "" && lab.zone == []
    requires world.resolve(first) == "" && Allocate(world, lab, first, {}, {}) == Chosen(world.resolve(second))
    requires InNetwork(lab, world.resolve(second)) && world.resolve(second) != ""
    ensures var end := AfterAll(world, lab, [Give(first, {}, {}), Give(second, {}, {})]);
            end.nodes[first] == end.nodes[second] == world.resolve(second)
  {
    var now := WithIp(lab, first, world.resolve(second));
    GivenThen(world, lab, Give(first, {}, {}), now, second);
  }

  /** After a step a node is given what it wants by then. */
  lemma GivenThen(world: World, lab: Lab, a: Step, now: Lab, v: string)
    requires now == After(world, lab, a) && v in now.nodes && Wants(world, now, v) != ""
    ensures AfterAll(world, lab, [a, Give(v, {}, {})]) == WithIp(now, v, Wants(world, now, v))
  {
    WantedIsGiven(world, now, v);
    TwoSteps(world, lab, a, Give(v, {}, {}));
  }

  /** Two nodes with the same first label get one address: the second is given what the first was and registered. */
  lemma {:induction false} SameLabelIsShared(world: World, lab: Lab, v: string, w: string, used: set<string>,
                                             answers: set<string>)
    requires SameLabel(lab, v, w) && lab.nodes[v] == "" && lab.nodes[w] == ""
    requires Allocate(world, lab, v, used, answers).Chosen?
    ensures var end := AfterAll(world, lab, [Give(v, used, answers), Register(v), Give(w, {}, {})]);
            end.nodes[v] == end.nodes[w] != ""
  {
    var ip := Allocate(world, lab, v, used, answers).ip;
    ChosenInNetwork(world, lab, v, used, answers);
    var given := WithIp(lab, v, ip);
    FollowerIsGiven(world, given, v, w);
    GivenThen(world, given, Register(v), WithRecord(given, v), w);
    var rest := [Register(v), Give(w, {}, {})];
    assert [Give(v, used, answers), Register(v), Give(w, {}, {})] == [Give(v, used, answers)] + rest;
    AfterFirst(world, lab, Give(v, used, answers), rest);
  }

  // ----- every interleaving -----

  /** What the look-up answers within the network is a usable host, and not reserved. */
  predicate ProperLookups(world: World, lab: Lab) {
    forall v :: v in lab.nodes && lab.nodes[v] == "" && Registered(world, lab, v) ==>
      Proper(lab, Lookup(world, lab.zone, v))
  }

  ghost predicate Consistent(world: World, lab: Lab) {
    Safe(world, lab) && ProperLookups(world, lab)
  }

  /** What steps may do to the nodes: give addresses to nodes that had none, each proper and nobody's before. */
  predicate Fair(lab: Lab, end: Lab) {
    && end.common == lab.common && end.nodes.Keys == lab.nodes.Keys
    && forall v :: v in lab.nodes && end.nodes[v] != lab.nodes[v] ==>
         lab.nodes[v] == "" && Proper(lab, end.nodes[v]) && forall w :: w in lab.nodes ==> lab.nodes[w] != end.nodes[v]
  }

  /**
   An allocation, written into the definition, keeps the lab consistent. The address is a usable host, not reserved, no
   other node's, and when it was not registered before, not in use anywhere the allocator looks.
   */
  lemma AllocationKeepsConsistent(world: World, lab: Lab, name: string, used: set<string>, answers: set<string>)
    requires Consistent(world, lab) && name in lab.nodes && lab.nodes[name] == ""
    requires Allocate(world, lab, name, used, answers).Chosen?
    ensures var ip := Allocate(world, lab, name, used, answers).ip;
            && Consistent(world, WithIp(lab, name, ip))
            && Proper(lab, ip) && (forall v :: v in lab.nodes ==> lab.nodes[v] != ip)
            && (!Registered(world, lab, name) ==> ip !in used && ip !in world.local && ip !in answers)
  {
    var ip := Allocate(world, lab, name, used, answers).ip;
    GiveStaysSafe(world, lab, name, used, answers);
    ChosenInNetwork(world, lab, name, used, answers);
    AllocateGives(world, lab, name, used, answers);
    forall v | v in lab.nodes ensures lab.nodes[v] != ip {
      if v != name { ChosenIsUnwanted(world, lab, name, used, answers, v); }
    }
  }

  lemma RegisteringKeepsConsistent(world: World, lab: Lab, name: string)
    requires Consistent(world, lab) && name in lab.nodes && lab.nodes[name] != ""
    ensures Consistent(world, WithRecord(lab, name))
  {
    RegisterStaysSafe(world, lab, name);
    forall v | v in lab.nodes && lab.nodes[v] == "" && Registered(world, WithRecord(lab, name), v)
      ensures Proper(lab, Lookup(world, WithRecord(lab, name).zone, v))
    {
      assert !Harms(world, lab, name, v);
      WantsAfterRegistering(world, lab, name, v);
    }
  }

  lemma GiveIsFair(lab: Lab, name: string, ip: string)
    requires name in lab.nodes && lab.nodes[name] == "" && Proper(lab, ip)
    requires forall v :: v in lab.nodes ==> lab.nodes[v] != ip
    ensures Fair(lab, WithIp(lab, name, ip))
  {
  }

  lemma OneStep(world: World, lab: Lab, step: Step)
    requires Consistent(world, lab)
    ensures Consistent(world, After(world, lab, step)) && Fair(lab, After(world, lab, step))
  {
    match step {
      case Give(name, used, answers) =>
        if name in lab.nodes && lab.nodes[name] == "" && Allocate(world, lab, name, used, answers).Chosen? {
          AllocationKeepsConsistent(world, lab, name, used, answers);
          GiveIsFair(lab, name, Allocate(world, lab, name, used, answers).ip);
        }
      case Register(name) =>
        if name in lab.nodes && lab.nodes[name] != "" { RegisteringKeepsConsistent(world, lab, name); }
    }
  }

  lemma FairTransitive(a: Lab, b: Lab, c: Lab)
    requires Fair(a, b) && Fair(b, c)
    ensures Fair(a, c)
  {
    forall v | v in a.nodes && c.nodes[v] != a.nodes[v]
      ensures a.nodes[v] == "" && Proper(a, c.nodes[v]) && forall w :: w in a.nodes ==> a.nodes[w] != c.nodes[v]
    {
      if b.nodes[v] != c.nodes[v] {
        HostNotEmpty(b, c.nodes[v]);
        forall w | w in a.nodes ensures a.nodes[w] != c.nodes[v] {}
      }
    }
  }

  lemma HostNotEmpty(lab: Lab, ip: string)
    requires Proper(lab, ip)
    ensures ip != ""
  {
  }

  ghost predicate AlwaysFair(world: World, lab: Lab) {
    forall steps: seq<Step> :: Fair(lab, AfterAll(world, lab, steps))
  }

  lemma {:induction false} StaysConsistent(world: World, lab: Lab, steps: seq<Step>)
    requires Consistent(world, lab)
    ensures Consistent(world, AfterAll(world, lab, steps)) && Fair(lab, AfterAll(world, lab, steps))
  {
    if steps != [] {
      var before := AfterAll(world, lab, steps[..|steps| - 1]);
      StaysConsistent(world, lab, steps[..|steps| - 1]);
      OneStep(world, before, steps[|steps| - 1]);
      FairTransitive(lab, before, AfterAll(world, lab, steps));
    }
  }

  /**
   In every interleaving of allocations and registrations nodes never share an address, and every address given to a
   node that had none is a usable host that is neither the gateway nor a DNS server, nor pinned on another node: if and
   only if the lab is safe at the start, and what the look-up answers for its nodes within the network is proper.
   */
  lemma EveryInterleaving(world: World, lab: Lab)
    ensures NeverShared(world, lab) && AlwaysFair(world, lab) <==> Consistent(world, lab)
  {
    NeverSharedIff(world, lab);
    if Consistent(world, lab) {
      forall steps: seq<Step> ensures Fair(lab, AfterAll(world, lab, steps)) { StaysConsistent(world, lab, steps); }
    } else if !ProperLookups(world, lab) {
      var v :| v in lab.nodes && lab.nodes[v] == "" && Registered(world, lab, v)
               && !Proper(lab, Lookup(world, lab.zone, v));
      ImproperIsGiven(world, lab, v);
    }
  }

  lemma ImproperIsGiven(world: World, lab: Lab, v: string)
    requires v in lab.nodes && lab.nodes[v] == "" && Registered(world, lab, v)
    requires !Proper(lab, Lookup(world, lab.zone, v))
    ensures !Fair(lab, AfterAll(world, lab, [Give(v, {}, {})]))
  {
    WantedIsGiven(world, lab, v);
    AfterFirst(world, lab, Give(v, {}, {}), []);
    assert [Give(v, {}, {})] + [] == [Give(v, {}, {})];
    var end := WithIp(lab, v, Lookup(world, lab.zone, v));
    assert end.nodes[v] != "" && !Fair(lab, end);
  }

  // ----- the addresses the zone had before -----

  /** An address in the network that these lines hold. */
  predicate Held(held: set<string>, lab: Lab, ip: string) {
    ip in held && InNetwork(lab, ip)
  }

  /**
   The node has none of these addresses, and neither waits for one nor would be given one that its label registers.
   */
  ghost predicate Clear(world: World, lab: Lab, held: set<string>, name: string)
    requires name in lab.nodes
  {
    && (lab.nodes[name] != "" ==> lab.nodes[name] !in held)
    && !Held(held, lab, Wants(world, lab, name))
    && forall o :: SameLabel(lab, o, name) ==> !Held(held, lab, Wants(world, lab, o))
  }

  /** Whatever steps are taken, the node has none of these addresses. */
  ghost predicate NeverGiven(world: World, lab: Lab, held: set<string>, name: string)
    requires name in lab.nodes
  {
    forall steps: seq<Step> :: AfterAll(world, lab, steps).nodes[name] !in held
  }

  lemma NewAvoids(world: World, lab: Lab, held: set<string>, v: string, used: set<string>, answers: set<string>)
    requires v in lab.nodes && lab.nodes[v] == "" && held <= Ledger(lab.zone) && !Held(held, lab, Wants(world, lab, v))
    requires Allocate(world, lab, v, used, answers).Chosen?
    ensures Allocate(world, lab, v, used, answers).ip !in held
  {
    ChosenInNetwork(world, lab, v, used, answers);
    AllocateGives(world, lab, v, used, answers);
  }

  lemma GivingStaysClear(world: World, lab: Lab, held: set<string>, name: string, v: string, ip: string)
    requires name in lab.nodes && v in lab.nodes && lab.nodes[v] == "" && Clear(world, lab, held, name)
    requires ip != "" && (v == name || SameLabel(lab, v, name) ==> ip !in held)
    ensures Clear(world, WithIp(lab, v, ip), held, name)
  {
    WantsAfterGiving(world, lab, v, ip, name);
    forall o | SameLabel(lab, o, name)
      ensures Wants(world, WithIp(lab, v, ip), o) == if o == v then ip else Wants(world, lab, o)
    {
      WantsAfterGiving(world, lab, v, ip, o);
    }
  }

  lemma RegisteringStaysClear(world: World, lab: Lab, held: set<string>, name: string, v: string)
    requires name in lab.nodes && v in lab.nodes && lab.nodes[v] != "" && Clear(world, lab, held, name)
    ensures Clear(world, WithRecord(lab, v), held, name)
  {
    LookupAfter(world, lab, v, name);
    if SameLabel(lab, v, name) { assert !Held(held, lab, lab.nodes[v]); }
    forall o | SameLabel(WithRecord(lab, v), o, name)
      ensures SameLabel(lab, o, name) && Wants(world, WithRecord(lab, v), o) == Wants(world, lab, o)
    {
      LabelAfter(lab, v, o, name);
      LookupAfter(world, lab, v, o);
    }
  }

  lemma StepStaysClear(world: World, lab: Lab, held: set<string>, name: string, step: Step)
    requires name in lab.nodes && held <= Ledger(lab.zone) && Clear(world, lab, held, name)
    ensures Clear(world, After(world, lab, step), held, name) && held <= Ledger(After(world, lab, step).zone)
  {
    LedgerGrows(lab.zone, After(world, lab, step).zone);
    match step {
      case Give(v, used, answers) =>
        if v in lab.nodes && lab.nodes[v] == "" && Allocate(world, lab, v, used, answers).Chosen? {
          ChosenInNetwork(world, lab, v, used, answers);
          if v == name || SameLabel(lab, v, name) { NewAvoids(world, lab, held, v, used, answers); }
          GivingStaysClear(world, lab, held, name, v, Allocate(world, lab, v, used, answers).ip);
        }
      case Register(v) =>
        if v in lab.nodes && lab.nodes[v] != "" { RegisteringStaysClear(world, lab, held, name, v); }
    }
  }

  lemma {:induction false} StaysClear(world: World, lab: Lab, held: set<string>, name: string, steps: seq<Step>)
    requires name in lab.nodes && held <= Ledger(lab.zone) && Clear(world, lab, held, name)
    ensures Clear(world, AfterAll(world, lab, steps), held, name) && held <= Ledger(AfterAll(world, lab, steps).zone)
  {
    if steps != [] {
      StaysClear(world, lab, held, name, steps[..|steps| - 1]);
      StepStaysClear(world, AfterAll(world, lab, steps[..|steps| - 1]), held, name, steps[|steps| - 1]);
    }
  }

  lemma OwnIsGiven(world: World, lab: Lab, name: string)
    requires name in lab.nodes && Wants(world, lab, name) != ""
    ensures AfterAll(world, lab, [Give(name, {}, {})]).nodes[name] == Wants(world, lab, name)
  {
    WantedIsGiven(world, lab, name);
    AfterFirst(world, lab, Give(name, {}, {}), []);
    assert [Give(name, {}, {})] + [] == [Give(name, {}, {})];
  }

  lemma LabelIsGiven(world: World, lab: Lab, o: string, name: string) returns (steps: seq<Step>)
    requires SameLabel(lab, o, name) && lab.nodes[name] == ""
    requires InNetwork(lab, Wants(world, lab, o)) && Wants(world, lab, o) != ""
    ensures AfterAll(world, lab, steps).nodes[name] == Wants(world, lab, o)
  {
    var given := WithIp(lab, o, Wants(world, lab, o));
    WantedIsGiven(world, lab, o);
    FollowerIsGiven(world, given, o, name);
    OwnIsGiven(world, WithRecord(given, o), name);
    AfterFirst(world, given, Register(o), [Give(name, {}, {})]);
    steps := [Give(o, {}, {})] + ([Register(o)] + [Give(name, {}, {})]);
    AfterFirst(world, lab, Give(o, {}, {}), [Register(o)] + [Give(name, {}, {})]);
  }

  /**
   A node added later is never given an address the zone held before, in no order of steps, if and only if neither it
   nor another node with its first label, when no record has that, has or waits for such an address in the network.
   */
  lemma RerunAvoidsLedger(world: World, lab: Lab, name: string)
    requires name in lab.nodes && lab.nodes[name] == ""
    ensures NeverGiven(world, lab, Ledger(lab.zone), name) <==> Clear(world, lab, Ledger(lab.zone), name)
  {
    var held := Ledger(lab.zone);
    EmptyIsNoAddress();
    NotInLedger(lab.zone, "");
    if Clear(world, lab, held, name) {
      forall steps
        ensures AfterAll(world, lab, steps).nodes[name] !in held
      {
        StaysClear(world, lab, held, name, steps);
      }
    } else if Held(held, lab, Wants(world, lab, name)) {
      OwnIsGiven(world, lab, name);
    } else {
      var o :| SameLabel(lab, o, name) && Held(held, lab, Wants(world, lab, o));
      var steps := LabelIsGiven(world, lab, o, name);
    }
  }
}
