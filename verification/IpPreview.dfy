/**
 The preflight's preview of the addresses that a lab's nodes will be given, and the runs it speaks of: a lab's run
 allocates all of them first; nodes that are set up one by one are registered in the zone in between.
 */
module IpPreview {
  import opened IpAlloc
  import opened Ipv4
  import opened Text
  import opened Wrappers

  // ----- the preview and the two runs -----

  /** Chooses an address for a node of a lab, given addresses in use. */
  type Chooser = (Lab, string, set<string>) -> Allocation

  /** allocate() without the ping gate */
  function Allocating(world: World): Chooser {
    (lab, name, used) => Allocate(world, lab, name, used, {})
  }

  /** The preflight's addresses: the definition stays as it is, and the previewed ones are held in a set. */
  function Preview(choose: Chooser, lab: Lab, order: seq<string>, previewed: set<string>): (r: seq<Allocation>)
    ensures |r| == |order|
  {
    if order == [] then []
    else
      var a := choose(lab, order[0], previewed);
      [a] + Preview(choose, lab, order[1..], if a.Chosen? then previewed + {a.ip} else previewed)
  }

  /** What a run does with an address before it comes to the next node. */
  type Keeper = (Lab, string, string) -> Lab

  /** phase_allocate_ips(): it is written into the definition. */
  function Written(): Keeper {
    (lab, name, ip) => WithIp(lab, name, ip)
  }

  function Given(lab: Lab, name: string, ip: string): Lab {
    WithRecord(WithIp(lab, name, ip), name)
  }

  /** setup_vm.py for one node after the other: the node is registered in the zone as well. */
  function WrittenAndRegistered(): Keeper {
    (lab, name, ip) => Given(lab, name, ip)
  }

  /** The run's addresses: it dies where none is to be had. */
  function RealRun(choose: Chooser, keep: Keeper, lab: Lab, order: seq<string>): seq<Allocation>
    decreases |order|
  {
    if order == [] then []
    else
      var a := choose(lab, order[0], {});
      if a.Chosen? then [a] + RealRun(choose, keep, keep(lab, order[0], a.ip), order[1..]) else [a]
  }

  lemma PreviewNext(choose: Chooser, lab: Lab, order: seq<string>, i: nat, previewed: set<string>, out: seq<Allocation>)
    requires i < |order|
    ensures var a := choose(lab, order[i], previewed);
            out + Preview(choose, lab, order[i..], previewed) ==
            (out + [a]) + Preview(choose, lab, order[i + 1..], if a.Chosen? then previewed + {a.ip} else previewed)
  {
    assert order[i..][0] == order[i] && order[i..][1..] == order[i + 1..];
  }

  /** The loop of the preflight over the nodes without an address. */
  method PreviewAddresses(world: World, lab: Lab, order: seq<string>) returns (out: seq<Allocation>)
    ensures out == Preview(Allocating(world), lab, order, {})
  {
    out := [];
    var previewed := {};
    ghost var choose := Allocating(world);
    ghost var all := Preview(choose, lab, order, {});
    assert order[0..] == order;
    for i := 0 to |order|
      invariant all == out + Preview(choose, lab, order[i..], previewed)
    {
      var wouldGet := AllocateIp(world, lab, order[i], previewed, {});
      PreviewNext(choose, lab, order, i, previewed, out);
      if wouldGet.Chosen? { previewed := previewed + {wouldGet.ip}; }
      out := out + [wouldGet];
    }
    assert order[|order|..] == [];
  }

  /** What the preview promises of a run. */
  predicate Predicted(run: seq<Allocation>, preview: seq<Allocation>) {
    && run <= preview
    && (|run| < |preview| ==> run != [] && !run[|run| - 1].Chosen?)
  }

  lemma PredictedCons(a: Allocation, run: seq<Allocation>, preview: seq<Allocation>)
    requires a.Chosen?
    ensures Predicted([a] + run, [a] + preview) <==> Predicted(run, preview)
  {
    var r, p := [a] + run, [a] + preview;
    assert r[1..] == run && p[1..] == preview;
    if r <= p { assert run <= preview by { assert r == p[..|r|]; assert run == preview[..|run|]; } }
    if run <= preview { assert r == p[..|r|]; }
    assert run != [] ==> r[|r| - 1] == run[|run| - 1];
  }

  lemma PredictedOne(a: Allocation, preview: seq<Allocation>)
    requires !a.Chosen?
    ensures Predicted([a], [a] + preview)
  {
  }

  lemma AllocateDepends(world: World, a: Lab, b: Lab, name: string, usedA: set<string>, usedB: set<string>)
    requires a.common == b.common && OwnIp(a, name) == OwnIp(b, name)
    requires Lookup(world, a.zone, name) == Lookup(world, b.zone, name)
    requires Taken(world, a, usedA) == Taken(world, b, usedB)
    ensures Allocate(world, a, name, usedA, {}) == Allocate(world, b, name, usedB, {})
  {
  }


  /** The nodes of the order wait for an address. */
  predicate Waiting(lab: Lab, order: seq<string>) {
    forall v :: v in order ==> v in lab.nodes && lab.nodes[v] == ""
  }

  /** The two loops are in step: the run's definition, or its zone, holds what the preview holds in its set. */
  predicate InStep(now: Lab, lab: Lab, order: seq<string>, previewed: set<string>) {
    && now.common == lab.common && Waiting(now, order) && Waiting(lab, order)
    && Pinned(now.nodes) + Ledger(now.zone) == Pinned(lab.nodes) + Ledger(lab.zone) + previewed
  }

  lemma SameTaken(world: World, now: Lab, lab: Lab, order: seq<string>, previewed: set<string>)
    requires InStep(now, lab, order, previewed)
    ensures Taken(world, now, {}) == Taken(world, lab, previewed)
  {
    var taken := Pinned(lab.nodes) + Ledger(lab.zone);
    assert Taken(world, now, {}) == Reserved(lab.common) + world.local + (Pinned(now.nodes) + Ledger(now.zone));
  }

  lemma SameChoice(world: World, now: Lab, lab: Lab, order: seq<string>, previewed: set<string>)
    requires InStep(now, lab, order, previewed) && order != []
    requires Lookup(world, now.zone, order[0]) == Lookup(world, lab.zone, order[0])
    ensures Allocate(world, now, order[0], {}, {}) == Allocate(world, lab, order[0], previewed, {})
  {
    assert order[0] in order;
    SameTaken(world, now, lab, order, previewed);
    AllocateDepends(world, now, lab, order[0], {}, previewed);
  }

  ghost predicate ChoosesInNetwork(choose: Chooser) {
    forall lab: Lab, name, used :: choose(lab, name, used).Chosen? ==> InNetwork(lab, choose(lab, name, used).ip)
  }

  lemma AllocatingInNetwork(world: World)
    ensures ChoosesInNetwork(Allocating(world))
  {
    var choose := Allocating(world);
    forall l: Lab, name, used
      ensures choose(l, name, used).Chosen? ==> InNetwork(l, choose(l, name, used).ip)
    {
      ChosenInNetwork(world, l, name, used, {});
    }
  }

  lemma StillWaiting(lab: Lab, order: seq<string>, ip: string)
    requires Waiting(lab, order) && NoRepeats(order) && order != []
    ensures Waiting(lab, order[1..]) && Waiting(WithIp(lab, order[0], ip), order[1..]) && NoRepeats(order[1..])
  {
    forall v | v in order[1..] ensures v in order && v != order[0] {
      var i :| 0 <= i < |order[1..]| && order[1..][i] == v;
      assert order[i + 1] == v;
    }
  }

  // ----- the lab's run -----

  /** Its zone stays as it is. */
  predicate SameZone(now: Lab, lab: Lab, order: seq<string>, previewed: set<string>) {
    InStep(now, lab, order, previewed) && now.zone == lab.zone
  }

  ghost predicate SameChoices(choose: Chooser, lab: Lab) {
    forall now: Lab, order, previewed :: SameZone(now, lab, order, previewed) && order != [] ==>
      choose(now, order[0], {}) == choose(lab, order[0], previewed)
  }

  lemma StaySameZone(now: Lab, lab: Lab, order: seq<string>, previewed: set<string>, ip: string)
    requires SameZone(now, lab, order, previewed) && NoRepeats(order) && order != [] && IsAddress(ip)
    ensures SameZone(WithIp(now, order[0], ip), lab, order[1..], previewed + {ip})
  {
    assert order[0] in order;
    PinnedAfter(now.nodes, order[0], ip);
    StillWaiting(now, order, ip);
    StillWaiting(lab, order, ip);
  }

  lemma {:induction false} SameAddresses(choose: Chooser, now: Lab, lab: Lab, order: seq<string>,
                                         previewed: set<string>)
    requires SameZone(now, lab, order, previewed) && NoRepeats(order)
    requires SameChoices(choose, lab) && ChoosesInNetwork(choose)
    ensures Predicted(RealRun(choose, Written(), now, order), Preview(choose, lab, order, previewed))
    decreases |order|
  {
    if order != [] {
      var a := choose(lab, order[0], previewed);
      assert choose(now, order[0], {}) == a;
      if a.Chosen? {
        var next, more := WithIp(now, order[0], a.ip), previewed + {a.ip};
        StaySameZone(now, lab, order, previewed, a.ip);
        StillWaiting(lab, order, a.ip);
        SameAddresses(choose, next, lab, order[1..], more);
        PredictedCons(a, RealRun(choose, Written(), next, order[1..]), Preview(choose, lab, order[1..], more));
      } else {
        PredictedOne(a, Preview(choose, lab, order[1..], previewed));
      }
    }
  }

  /**
   The preview predicts the lab's run: taken in the same order, with nothing extra in use and nothing answering, the run
   gives every node the previewed address, up to the first node for which there is none.
   */
  lemma PreviewPredictsRun(world: World, lab: Lab, order: seq<string>)
    requires NoRepeats(order) && Waiting(lab, order)
    ensures Predicted(RealRun(Allocating(world), Written(), lab, order), Preview(Allocating(world), lab, order, {}))
  {
    var choose := Allocating(world);
    forall now: Lab, names, used | SameZone(now, lab, names, used) && names != []
      ensures choose(now, names[0], {}) == choose(lab, names[0], used)
    {
      SameChoice(world, now, lab, names, used);
    }
    AllocatingInNetwork(world);
    SameAddresses(choose, lab, lab, order, {});
  }

  // ----- nodes set up one by one -----

  /** No record of the zone has the node's first label. */
  predicate Unrecorded(lab: Lab, v: string) {
    Short(v) != "" && Recorded(lab.zone, Short(v)) == None
  }

  /** First labels and the addresses registered for them on the way. */
  type Labels = map<string, string>

  /** The first label was an earlier node's, whose record now answers for this one too. */
  predicate Clashes(lab: Lab, at: Labels, v: string) {
    Unrecorded(lab, v) && Short(v) in at
  }

  function Noted(at: Labels, short: string, ip: string): Labels {
    if short in at then at else at[short := ip]
  }

  /** The zone answers as before, and for labels without a record as noted. */
  ghost predicate Answers(now: Lab, lab: Lab, at: Labels) {
    forall s: string :: Recorded(now.zone, s) ==
      if Recorded(lab.zone, s).Some? then Recorded(lab.zone, s) else if s in at then Some(at[s]) else None
  }

  /** What is noted was previewed, and lies in the network. */
  predicate Notes(lab: Lab, at: Labels, previewed: set<string>) {
    forall s :: s in at ==> at[s] in previewed && InNetwork(lab, at[s])
  }

  ghost predicate InLabelledStep(now: Lab, lab: Lab, order: seq<string>, previewed: set<string>, at: Labels) {
    InStep(now, lab, order, previewed) && Answers(now, lab, at) && Notes(lab, at, previewed)
  }

  function Choice(choose: Chooser, lab: Lab, v: string, previewed: set<string>, at: Labels): Allocation {
    if Clashes(lab, at, v) then Chosen(at[Short(v)]) else choose(lab, v, previewed)
  }

  ghost predicate LabelledChoices(choose: Chooser, lab: Lab) {
    forall now: Lab, order, previewed, at :: InLabelledStep(now, lab, order, previewed, at) && order != [] ==>
      choose(now, order[0], {}) == Choice(choose, lab, order[0], previewed, at)
  }

  lemma LabelledChoice(world: World, now: Lab, lab: Lab, order: seq<string>, previewed: set<string>, at: Labels)
    requires InLabelledStep(now, lab, order, previewed, at) && order != []
    ensures Allocating(world)(now, order[0], {}) == Choice(Allocating(world), lab, order[0], previewed, at)
  {
    var v := order[0];
    assert Recorded(now.zone, Short(v)) == if Recorded(lab.zone, Short(v)).Some? then Recorded(lab.zone, Short(v))
                                           else if Short(v) in at then Some(at[Short(v)]) else None;
    if Clashes(lab, at, v) {
      EmptyIsNoAddress();
      assert Lookup(world, now.zone, v) == at[Short(v)] != "";
    } else {
      SameChoice(world, now, lab, order, previewed);
    }
  }

  lemma StayLabelled(now: Lab, lab: Lab, order: seq<string>, previewed: set<string>, at: Labels, ip: string)
    requires InLabelledStep(now, lab, order, previewed, at) && NoRepeats(order) && order != [] && InNetwork(lab, ip)
    ensures InLabelledStep(Given(now, order[0], ip), lab, order[1..], previewed + {ip}, Noted(at, Short(order[0]), ip))
  {
    assert order[0] in order;
    AnswersMore(now, lab, at, order[0], ip);
    StayInStep(now, lab, order, previewed, ip);
  }

  lemma StayInStep(now: Lab, lab: Lab, order: seq<string>, previewed: set<string>, ip: string)
    requires InStep(now, lab, order, previewed) && NoRepeats(order) && order != [] && IsAddress(ip)
    ensures InStep(Given(now, order[0], ip), lab, order[1..], previewed + {ip})
  {
    assert order[0] in order;
    PinnedAfter(now.nodes, order[0], ip);
    LedgerAppended(now.zone, order[0], ip);
    StillWaiting(now, order, ip);
    StillWaiting(lab, order, ip);
  }

  lemma AnswersMore(now: Lab, lab: Lab, at: Labels, v: string, ip: string)
    requires Answers(now, lab, at) && v in now.nodes
    ensures Answers(Given(now, v, ip), lab, Noted(at, Short(v), ip))
  {
    forall s: string
      ensures Recorded(Given(now, v, ip).zone, s) ==
              if Recorded(now.zone, s).Some? then Recorded(now.zone, s) else if s == Short(v) then Some(ip) else None
    {
      RecordedAppended(now.zone, ARecord(v, ip), s);
    }
  }

  /** Going through the order: a node that clashes is previewed the address of the earlier one. */
  predicate Agreed(choose: Chooser, lab: Lab, order: seq<string>, previewed: set<string>, at: Labels)
    decreases |order|
  {
    order == [] ||
    var a := choose(lab, order[0], previewed);
    && (Clashes(lab, at, order[0]) ==> a == Chosen(at[Short(order[0])]))
    && (a.Chosen? ==> Agreed(choose, lab, order[1..], previewed + {a.ip}, Noted(at, Short(order[0]), a.ip)))
  }

  lemma {:induction false} SameAddressesIff(choose: Chooser, now: Lab, lab: Lab, order: seq<string>,
                                            previewed: set<string>, at: Labels)
    requires InLabelledStep(now, lab, order, previewed, at) && NoRepeats(order)
    requires LabelledChoices(choose, lab) && ChoosesInNetwork(choose)
    ensures Predicted(RealRun(choose, WrittenAndRegistered(), now, order), Preview(choose, lab, order, previewed)) <==>
            Agreed(choose, lab, order, previewed, at)
    decreases |order|
  {
    if order != [] {
      var a, b := choose(lab, order[0], previewed), choose(now, order[0], {});
      assert b == Choice(choose, lab, order[0], previewed, at);
      var preview := Preview(choose, lab, order, previewed);
      assert preview[0] == a;
      if a != b {
        assert RealRun(choose, WrittenAndRegistered(), now, order)[0] == b;
      } else if a.Chosen? {
        var next, more := Given(now, order[0], a.ip), previewed + {a.ip};
        StayLabelled(now, lab, order, previewed, at, a.ip);
        StillWaiting(lab, order, a.ip);
        SameAddressesIff(choose, next, lab, order[1..], more, Noted(at, Short(order[0]), a.ip));
        PredictedCons(a, RealRun(choose, WrittenAndRegistered(), next, order[1..]),
          Preview(choose, lab, order[1..], more));
      } else {
        PredictedOne(a, Preview(choose, lab, order[1..], previewed));
      }
    }
  }

  predicate AllChosen(preview: seq<Allocation>, n: nat)
    requires n <= |preview|
  {
    forall k :: 0 <= k < n ==> preview[k].Chosen?
  }

  /** The nodes have the same first label, and no record of the zone has it. */
  predicate Repeats(lab: Lab, earlier: string, v: string) {
    Unrecorded(lab, v) && Short(earlier) == Short(v)
  }

  /** A node resolves to the address previewed for an earlier one with its first label, if no record has that label. */
  predicate LabelsAgree(world: World, lab: Lab, order: seq<string>, preview: seq<Allocation>)
    requires |order| == |preview|
  {
    forall i, j :: 0 <= j < i < |order| && AllChosen(preview, i) && Repeats(lab, order[j], order[i]) ==>
      world.resolve(order[i]) == preview[j].ip
  }

  /** The same for node i, with what earlier nodes noted. */
  predicate AgreesAt(world: World, lab: Lab, order: seq<string>, preview: seq<Allocation>, at: Labels, i: nat)
    requires |order| == |preview| && i < |order|
  {
    AllChosen(preview, i) ==>
      && (Clashes(lab, at, order[i]) ==> world.resolve(order[i]) == at[Short(order[i])])
      && forall j :: 0 <= j < i && Repeats(lab, order[j], order[i]) ==> world.resolve(order[i]) == preview[j].ip
  }

  /** A noted address is chosen again exactly for a node that resolves to it. */
  lemma ChoiceIsResolved(world: World, lab: Lab, v: string, previewed: set<string>, ip: string)
    requires OwnIp(lab, v) == "" && Unrecorded(lab, v) && ip in previewed && InNetwork(lab, ip)
    ensures Allocate(world, lab, v, previewed, {}) == Chosen(ip) <==> world.resolve(v) == ip
  {
    EmptyIsNoAddress();
    assert ip in Taken(world, lab, previewed);
    if world.resolve(v) == "" || IsAddress(world.resolve(v)) { AllocateGives(world, lab, v, previewed, {}); }
  }

  lemma AgreesNext(world: World, lab: Lab, order: seq<string>, preview: seq<Allocation>, at: Labels, i: nat)
    requires |order| == |preview| && 0 < i < |order| && preview[0].Chosen?
    requires Clashes(lab, at, order[0]) ==> preview[0].ip == at[Short(order[0])]
    ensures AgreesAt(world, lab, order, preview, at, i) <==>
            AgreesAt(world, lab, order[1..], preview[1..], Noted(at, Short(order[0]), preview[0].ip), i - 1)
  {
    var names, rest := order[1..], preview[1..];
    assert AllChosen(preview, i) <==> AllChosen(rest, i - 1) by {
      forall k | 0 < k < i ensures preview[k] == rest[k - 1] {}
      forall k | 0 <= k < i - 1 ensures rest[k] == preview[k + 1] {}
    }
    assert names[i - 1] == order[i];
    forall j | 0 < j < i ensures names[j - 1] == order[j] && rest[j - 1] == preview[j] {}
    forall j | 0 <= j < i - 1 ensures names[j] == order[j + 1] && rest[j] == preview[j + 1] {}
  }

  predicate AgreeFrom(world: World, lab: Lab, order: seq<string>, preview: seq<Allocation>, at: Labels, n: nat)
    requires |order| == |preview|
  {
    forall i :: n <= i < |order| ==> AgreesAt(world, lab, order, preview, at, i)
  }

  lemma AgreedStep(choose: Chooser, lab: Lab, order: seq<string>, previewed: set<string>, at: Labels, a: Allocation)
    requires order != [] && a == choose(lab, order[0], previewed)
    ensures Agreed(choose, lab, order, previewed, at) <==>
            && (Clashes(lab, at, order[0]) ==> a == Chosen(at[Short(order[0])]))
            && (a.Chosen? ==> Agreed(choose, lab, order[1..], previewed + {a.ip}, Noted(at, Short(order[0]), a.ip)))
    ensures var preview := Preview(choose, lab, order, previewed);
            preview[0] == a && (a.Chosen? ==> preview[1..] == Preview(choose, lab, order[1..], previewed + {a.ip}))
  {
  }

  lemma {:induction false} AgreedIff(world: World, choose: Chooser, lab: Lab, order: seq<string>,
                                     previewed: set<string>, at: Labels)
    requires choose == Allocating(world)
    requires Waiting(lab, order) && NoRepeats(order) && Notes(lab, at, previewed)
    ensures Agreed(choose, lab, order, previewed, at) <==>
            AgreeFrom(world, lab, order, Preview(choose, lab, order, previewed), at, 0)
    decreases |order|
  {
    if order != [] {
      var a := choose(lab, order[0], previewed);
      var preview := Preview(choose, lab, order, previewed);
      AgreedStep(choose, lab, order, previewed, at, a);
      FirstAgrees(world, lab, order, preview, previewed, at);
      if a.Chosen? && AgreesAt(world, lab, order, preview, at, 0) {
        ChosenInNetwork(world, lab, order[0], previewed, {});
        StillWaiting(lab, order, a.ip);
        AgreedIff(world, choose, lab, order[1..], previewed + {a.ip}, Noted(at, Short(order[0]), a.ip));
        AgreesTail(world, lab, order, preview, at);
      }
    }
  }

  lemma FirstAgrees(world: World, lab: Lab, order: seq<string>, preview: seq<Allocation>, previewed: set<string>,
                    at: Labels)
    requires Waiting(lab, order) && Notes(lab, at, previewed) && |order| == |preview| && order != []
    requires preview[0] == Allocate(world, lab, order[0], previewed, {})
    ensures AgreesAt(world, lab, order, preview, at, 0) <==>
            (Clashes(lab, at, order[0]) ==> preview[0] == Chosen(at[Short(order[0])]))
    ensures AgreeFrom(world, lab, order, preview, at, 0) <==>
            AgreesAt(world, lab, order, preview, at, 0)
            && (preview[0].Chosen? ==> AgreeFrom(world, lab, order, preview, at, 1))
  {
    assert order[0] in order;
    assert AllChosen(preview, 0);
    if Clashes(lab, at, order[0]) { ChoiceIsResolved(world, lab, order[0], previewed, at[Short(order[0])]); }
  }

  lemma AgreesTail(world: World, lab: Lab, order: seq<string>, preview: seq<Allocation>, at: Labels)
    requires |order| == |preview| && order != [] && preview[0].Chosen?
    requires Clashes(lab, at, order[0]) ==> preview[0].ip == at[Short(order[0])]
    ensures var notes := Noted(at, Short(order[0]), preview[0].ip);
            AgreeFrom(world, lab, order, preview, at, 1) <==> AgreeFrom(world, lab, order[1..], preview[1..], notes, 0)
  {
    var notes := Noted(at, Short(order[0]), preview[0].ip);
    forall i | 0 < i < |order|
      ensures AgreesAt(world, lab, order, preview, at, i) <==>
              AgreesAt(world, lab, order[1..], preview[1..], notes, i - 1)
    {
      AgreesNext(world, lab, order, preview, at, i);
    }
    if AgreeFrom(world, lab, order, preview, at, 1) {
      forall i | 0 <= i < |order| - 1 ensures AgreesAt(world, lab, order[1..], preview[1..], notes, i) {
        assert AgreesAt(world, lab, order, preview, at, i + 1);
      }
    }
    if AgreeFrom(world, lab, order[1..], preview[1..], notes, 0) {
      forall i | 0 < i < |order| ensures AgreesAt(world, lab, order, preview, at, i) {
        assert AgreesAt(world, lab, order[1..], preview[1..], notes, i - 1);
      }
    }
  }

  lemma NothingNoted(world: World, lab: Lab, order: seq<string>, preview: seq<Allocation>)
    requires |order| == |preview|
    ensures AgreeFrom(world, lab, order, preview, map[], 0) <==> LabelsAgree(world, lab, order, preview)
  {
    if AgreeFrom(world, lab, order, preview, map[], 0) {
      forall i, j | 0 <= j < i < |order| && AllChosen(preview, i) && Repeats(lab, order[j], order[i])
        ensures world.resolve(order[i]) == preview[j].ip
      {
        assert AgreesAt(world, lab, order, preview, map[], i);
      }
    }
  }

  /**
   Nodes that are set up one by one, each registered before the next is given its address, get what the preview says if
   and only if, as long as it says an address, every node whose first label an earlier one has and no record of the zone
   resolves to the address previewed for that earlier one.
   */
  lemma PreviewPredictsOneByOneIff(world: World, lab: Lab, order: seq<string>)
    requires NoRepeats(order) && Waiting(lab, order)
    ensures var preview := Preview(Allocating(world), lab, order, {});
            Predicted(RealRun(Allocating(world), WrittenAndRegistered(), lab, order), preview) <==>
              LabelsAgree(world, lab, order, preview)
  {
    var choose, none := Allocating(world), map[];
    forall now: Lab, names, used, at | InLabelledStep(now, lab, names, used, at) && names != []
      ensures choose(now, names[0], {}) == Choice(choose, lab, names[0], used, at)
    {
      LabelledChoice(world, now, lab, names, used, at);
    }
    AllocatingInNetwork(world);
    SameAddressesIff(choose, lab, lab, order, {}, none);
    AgreedIff(world, choose, lab, order, {}, none);
    NothingNoted(world, lab, order, Preview(choose, lab, order, {}));
  }

  /**
   Two nodes with the same first label, which is new to the zone and to the resolver: the preview announces two
   addresses.
   */
  lemma SameLabelIsMispredicted(world: World, lab: Lab, v: string, w: string)
    requires v != w && Waiting(lab, [v, w]) && Short(v) == Short(w) && Unrecorded(lab, v) && world.resolve(w) == ""
    requires Allocate(world, lab, v, {}, {}).Chosen?
    ensures !Predicted(RealRun(Allocating(world), WrittenAndRegistered(), lab, [v, w]),
            Preview(Allocating(world), lab, [v, w], {}))
  {
    var order := [v, w];
    var preview := Preview(Allocating(world), lab, order, {});
    PreviewPredictsOneByOneIff(world, lab, order);
    ChosenInNetwork(world, lab, v, {}, {});
    assert preview[0] == Allocate(world, lab, v, {}, {});
    assert AllChosen(preview, 1) && order[1] == w && order[0] == v;
  }
}
