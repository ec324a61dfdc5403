/**
 The running interface and wg0.conf: whether the peers that run are those a restart would give.

 A peer is seen as a key and a set of addresses; an address is routed to one peer only, the last that claimed it.
 */
module LivePeers {

  datatype View = View(name: string, key: string, addresses: set<string>)
  type Live = map<string, set<string>>

  /** wg set */
  function Claim(live: Live, key: string, addresses: set<string>): Live {
    (map k | k in live :: live[k] - addresses)[key := addresses]
  }

  /** The peers after a restart: the blocks of the file claim their addresses in order. */
  function Restart(views: seq<View>): Live {
    if views == [] then map[]
    else
      var last := views[|views| - 1];
      Claim(Restart(views[..|views| - 1]), last.key, last.addresses)
  }

  predicate HasKey(views: seq<View>, key: string) {
    exists i :: 0 <= i < |views| && views[i].key == key
  }

  lemma {:induction false} RestartKeys(views: seq<View>, key: string)
    ensures key in Restart(views) <==> HasKey(views, key)
  {
    if views != [] {
      var n := |views| - 1;
      RestartKeys(views[..n], key);
      if HasKey(views[..n], key) {
        var i :| 0 <= i < n && views[..n][i].key == key;
        assert views[i].key == key;
      }
      if i :| 0 <= i < |views| && views[i].key == key {
        assert i < n ==> views[..n][i].key == key;
      }
    }
  }

  /** After a restart no address is routed to two peers. */
  lemma {:induction false} RestartDisjoint(views: seq<View>)
    ensures forall k, l :: k in Restart(views) && l in Restart(views) && k != l ==>
            Restart(views)[k] !! Restart(views)[l]
  {
    if views != [] { RestartDisjoint(views[..|views| - 1]); }
  }

  /** A peer written last and set live keeps the interface what a restart gives, whatever other peers lose to it. */
  lemma NewPeerAgrees(views: seq<View>, v: View)
    ensures Restart(views + [v]) == Claim(Restart(views), v.key, v.addresses)
  {
    assert (views + [v])[..|views|] == views;
  }

  /**
   Setting a peer live without rewriting its block keeps that if and only if its key already has exactly these
   addresses.
   */
  lemma KnownPeerAgreesIff(views: seq<View>, key: string, addresses: set<string>)
    ensures var live := Restart(views);
            Claim(live, key, addresses) == live <==> key in live && live[key] == addresses
  {
    var live := Restart(views);
    RestartDisjoint(views);
    if key in live && live[key] == addresses {
      forall k | k in live && k != key ensures live[k] - addresses == live[k] {
        assert live[k] !! live[key];
      }
    } else {
      assert key in Claim(live, key, addresses);
    }
  }

  function Addresses(views: seq<View>): set<string> {
    if views == [] then {} else Addresses(views[..|views| - 1]) + views[|views| - 1].addresses
  }

  /** What a key has after a restart: the addresses of its last block that no later block claims. */
  lemma {:induction false} RestartGives(before: seq<View>, v: View, later: seq<View>)
    requires !HasKey(later, v.key)
    ensures v.key in Restart(before + [v] + later)
    ensures Restart(before + [v] + later)[v.key] == v.addresses - Addresses(later)
  {
    var views := before + [v] + later;
    if later == [] {
      assert views == before + [v];
      NewPeerAgrees(before, v);
    } else {
      var n := |later| - 1;
      assert views[..|views| - 1] == before + [v] + later[..n];
      assert later[n].key != v.key;
      assert !HasKey(later[..n], v.key) by { assert forall i :: 0 <= i < n ==> later[..n][i] == later[i]; }
      RestartGives(before, v, later[..n]);
    }
  }

  // ----- removing a peer -----

  /** The one has the peer, and the others what the other one gives them without what the peer has. */
  predicate Robbed(with: Live, without: Live, key: string) {
    && key in with && key !in without && with.Keys == without.Keys + {key}
    && forall k :: k in without ==> with[k] == without[k] - with[key]
  }

  lemma RobbedMore(a: seq<View>, b: seq<View>, w: View, key: string)
    requires Robbed(Restart(a), Restart(b), key) && w.key != key
    ensures Robbed(Restart(a + [w]), Restart(b + [w]), key)
  {
    NewPeerAgrees(a, w);
    NewPeerAgrees(b, w);
    ClaimBoth(Restart(a), Restart(b), key, w.key, w.addresses);
  }

  lemma SplitLast(before: seq<View>, later: seq<View>)
    requires later != []
    ensures before + later == (before + later[..|later| - 1]) + [later[|later| - 1]]
  {
  }

  lemma OthersLack(before: seq<View>, later: seq<View>, key: string)
    requires later != [] && !HasKey(before + later, key)
    ensures later[|later| - 1].key != key && !HasKey(before + later[..|later| - 1], key)
  {
    SplitLast(before, later);
    var all, init := before + later, before + later[..|later| - 1];
    assert all[|all| - 1] == later[|later| - 1];
    assert forall i :: 0 <= i < |init| ==> init[i] == all[i];
  }

  /** Without the block the other peers have what they have with it, and what the block had taken from them. */
  lemma {:induction false} RestartWithout(before: seq<View>, v: View, later: seq<View>)
    requires !HasKey(before + later, v.key)
    ensures Robbed(Restart((before + [v]) + later), Restart(before + later), v.key)
    decreases |later|
  {
    if later == [] {
      assert (before + [v]) + later == before + [v] && before + later == before;
      RestartKeys(before, v.key);
      NewPeerAgrees(before, v);
    } else {
      var n := |later| - 1;
      OthersLack(before, later, v.key);
      RestartWithout(before, v, later[..n]);
      SplitLast(before + [v], later);
      SplitLast(before, later);
      RobbedMore((before + [v]) + later[..n], before + later[..n], later[n], v.key);
    }
  }

  lemma ClaimBoth(with: Live, without: Live, gone: string, key: string, addresses: set<string>)
    requires Robbed(with, without, gone) && key != gone
    ensures Robbed(Claim(with, key, addresses), Claim(without, key, addresses), gone)
  {
  }

  /** No other block has the peer's key, and none would get an address back that the peer has. */
  predicate NothingComesBack(live: Live, key: string, left: seq<View>) {
    !HasKey(left, key) && (key in live ==> forall k :: k in Restart(left) ==> Restart(left)[k] !! live[key])
  }

  /**
   Removing a peer from the running interface and its block from the file: the interface is still what a restart gives
   if and only if nothing comes back to another peer.
   */
  lemma RemovedPeerAgreesIff(before: seq<View>, v: View, later: seq<View>)
    ensures var live := Restart(before + [v] + later);
            live - {v.key} == Restart(before + later) <==> NothingComesBack(live, v.key, before + later)
  {
    var live, left := Restart(before + [v] + later), Restart(before + later);
    RestartKeys(before + later, v.key);
    if !HasKey(before + later, v.key) {
      RestartWithout(before, v, later);
      if forall k :: k in left ==> left[k] !! live[v.key] {
        assert forall k :: k in left ==> left[k] - live[v.key] == left[k];
      }
      if live - {v.key} == left {
        forall k | k in left ensures left[k] !! live[v.key] {
          assert (live - {v.key})[k] == live[k];
        }
      }
    } else {
      assert v.key !in live - {v.key};
    }
  }
}
