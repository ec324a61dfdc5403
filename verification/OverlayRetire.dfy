/**
 Retiring a site from the overlay hub: which lines the deletions hit, what a retirement removes, and when it strands a
 peer.
 */
module OverlayRetire {
  import Bre
  import opened Ipv4
  import opened OverlayHub
  import opened Text
  import opened WgConf
  import opened Wrappers

  // ----- retiring a site -----

  /** The pattern built from the name matches the line of that key. */
  predicate Hit(lines: seq<Line>, name: string, key: string) {
    exists i :: 0 <= i < |lines| && FieldIs(lines[i], 0, key) && SedMatches(name, lines[i])
  }

  lemma DeleteKeeps(lines: seq<Line>, name: string, lo: nat, hi: nat, k: nat)
    requires UniqueAt(lines, k) && Fields(lines, lo, hi)
    ensures UniqueAt(SedDelete(lines, name), k) && Fields(SedDelete(lines, name), lo, hi)
  {
    var keep: Line -> bool := l => !SedMatches(name, l);
    FilterUnique(lines, keep, k);
    FilterFields(lines, keep, lo, hi);
    FilterSame(lines, keep, l => !SedMatches(name, l));
  }

  lemma DeleteAlloc(net: Network, alloc: seq<Line>, name: string)
    requires AllocOk(net, alloc)
    ensures AllocOk(net, SedDelete(alloc, name))
  {
    DeleteKeeps(alloc, name, 2, 2, 0);
    DeleteKeeps(alloc, name, 2, 2, 1);
    AllHostedMeans(net, alloc);
    AllHostedMeans(net, SedDelete(alloc, name));
  }

  /** The line of a key is gone after the deletion exactly if the pattern hits it. */
  lemma DeleteHas(lines: seq<Line>, name: string, key: string)
    requires UniqueAt(lines, 0) && HasKey(lines, 0, key)
    ensures HasKey(SedDelete(lines, name), 0, key) <==> !Hit(lines, name, key)
  {
    UniqueMeans(lines, 0);
    InLines(lines, 0, key);
    InLines(SedDelete(lines, name), 0, key);
    var l :| l in lines && FieldIs(l, 0, key);
    var i :| 0 <= i < |lines| && lines[i] == l;
    assert forall j :: 0 <= j < |lines| && FieldIs(lines[j], 0, key) ==> lines[j] == l;
    assert Hit(lines, name, key) <==> SedMatches(name, l);
  }

  /** A remaining peer loses the line of its site or of its address. */
  predicate Strands(h: Hub, name: string, o: Outcome, p: Peer) {
    && (o.peer ==> p.name != name)
    && ((o.sites && Hit(h.sites, name, p.name)) || (o.alloc && Hit(h.alloc, name, p.name)))
  }

  ghost predicate StrandsNone(h: Hub, name: string, o: Outcome) {
    forall p :: p in ReadPeers(h.conf) ==> !Strands(h, name, o, p)
  }

  function PeersLeft(h: Hub, name: string, o: Outcome): seq<Peer> {
    if o.peer then Dropping(ReadPeers(h.conf), name) else ReadPeers(h.conf)
  }

  lemma PeerAfterDelete(sites: seq<Line>, alloc: seq<Line>, name: string, o: Outcome, p: Peer)
    requires UniqueAt(sites, 0) && UniqueAt(alloc, 0) && Fields(alloc, 2, 2) && PeerOk(sites, alloc, p)
    ensures PeerOk(if o.sites then SedDelete(sites, name) else sites,
                   if o.alloc then SedDelete(alloc, name) else alloc, p) <==>
            !((o.sites && Hit(sites, name, p.name)) || (o.alloc && Hit(alloc, name, p.name)))
  {
    var i :| 0 <= i < |alloc| && Allocates(alloc[i], p);
    var own := alloc[i];
    assert FieldIs(own, 0, p.name);
    assert HasKey(alloc, 0, p.name);
    DeleteHas(sites, name, p.name);
    AllocAfterDelete(alloc, name, o.alloc, own, p);
  }

  lemma AllocAfterDelete(alloc: seq<Line>, name: string, deleted: bool, own: Line, p: Peer)
    requires UniqueAt(alloc, 0) && own in alloc && Allocates(own, p)
    ensures var after := if deleted then SedDelete(alloc, name) else alloc;
            (exists i :: 0 <= i < |after| && Allocates(after[i], p)) <==> !(deleted && Hit(alloc, name, p.name))
  {
    var after := if deleted then SedDelete(alloc, name) else alloc;
    UniqueMeans(alloc, 0);
    var i :| 0 <= i < |alloc| && alloc[i] == own;
    assert forall l :: l in alloc && FieldIs(l, 0, p.name) ==> l == own;
    assert Hit(alloc, name, p.name) <==> SedMatches(name, own);
    if own in after { var j :| 0 <= j < |after| && after[j] == own; }
    assert forall j :: 0 <= j < |after| && Allocates(after[j], p) ==> after[j] in alloc;
  }

  lemma RetiredParts(h: Hub, name: string, cidr: string, o: Outcome)
    ensures var after := Retired(h, name, cidr, o);
            && after.conf == (if o.peer then Remove(h.conf, name) else h.conf)
            && after.sites == (if o.sites then SedDelete(h.sites, name) else h.sites)
            && after.alloc == (if o.alloc then SedDelete(h.alloc, name) else h.alloc)
            && after.nodes == (if o.nodes then SedDelete(h.nodes, name) else h.nodes)
            && after.dns == (if o.dns then SedDelete(h.dns, name) else h.dns)
            && after.live == (if o.peer then h.live - {KeyOf(h.conf, name)} else h.live)
            && after.routes == (if o.route then h.routes - {cidr} else h.routes)
  {
    PeerParts(h, name, cidr, o);
    LineParts(RetiredPeer(h, name, cidr, o), name, o);
  }

  lemma PeerParts(h: Hub, name: string, cidr: string, o: Outcome)
    ensures RetiredPeer(h, name, cidr, o) ==
            h.(conf := if o.peer then Remove(h.conf, name) else h.conf,
               live := if o.peer then h.live - {KeyOf(h.conf, name)} else h.live,
               routes := if o.route then h.routes - {cidr} else h.routes)
  {
  }

  lemma LineParts(h: Hub, name: string, o: Outcome)
    ensures RetiredLines(h, name, o) ==
            h.(sites := if o.sites then SedDelete(h.sites, name) else h.sites,
               alloc := if o.alloc then SedDelete(h.alloc, name) else h.alloc,
               nodes := if o.nodes then SedDelete(h.nodes, name) else h.nodes,
               dns := if o.dns then SedDelete(h.dns, name) else h.dns)
  {
    SitesParts(h, name);
    var h1 := if o.sites then Exec(h, SedSites(name)) else h;
    SitesParts(h1, name);
    var h2 := if o.alloc then Exec(h1, SedAlloc(name)) else h1;
    NodesParts(h2, name);
    var h3 := if o.nodes then Exec(h2, SedNodes(name)) else h2;
    NodesParts(h3, name);
  }

  lemma SitesParts(h: Hub, name: string)
    ensures Exec(h, SedSites(name)) == h.(sites := SedDelete(h.sites, name))
    ensures Exec(h, SedAlloc(name)) == h.(alloc := SedDelete(h.alloc, name))
  {
  }

  lemma NodesParts(h: Hub, name: string)
    ensures Exec(h, SedNodes(name)) == h.(nodes := SedDelete(h.nodes, name))
    ensures Exec(h, SedDns(name)) == h.(dns := SedDelete(h.dns, name))
  {
  }

  lemma RetiredPeers(net: Network, h: Hub, name: string, o: Outcome, sites: seq<Line>, alloc: seq<Line>)
    requires Inv(net, h)
    requires sites == (if o.sites then SedDelete(h.sites, name) else h.sites)
    requires alloc == (if o.alloc then SedDelete(h.alloc, name) else h.alloc)
    ensures PeersOk(sites, alloc, PeersLeft(h, name, o)) <==> StrandsNone(h, name, o)
  {
    var peers := ReadPeers(h.conf);
    PeersOkMeans(h.sites, h.alloc, peers);
    PeersOkMeans(sites, alloc, PeersLeft(h, name, o));
    forall p | p in peers
      ensures PeerOk(sites, alloc, p) <==>
              !((o.sites && Hit(h.sites, name, p.name)) || (o.alloc && Hit(h.alloc, name, p.name)))
    {
      PeerAfterDelete(h.sites, h.alloc, name, o, p);
    }
  }

  lemma RetiredRegistries(net: Network, h: Hub, name: string, cidr: string, o: Outcome)
    requires Inv(net, h)
    ensures var after := Retired(h, name, cidr, o);
            && AllocOk(net, after.alloc) && SitesOk(after.sites) && NodesOk(after.nodes) && DnsOk(after.dns)
            && WellFormed(after.conf) && ReadPeers(after.conf) == PeersLeft(h, name, o)
  {
    RetiredParts(h, name, cidr, o);
    DeleteAlloc(net, h.alloc, name);
    DeleteKeeps(h.sites, name, 2, 2, 0);
    DeleteKeeps(h.nodes, name, 3, 3, 1);
    DeleteKeeps(h.dns, name, 1, 3, 0);
    RemoveDrops(h.conf, name);
  }

  /**
   A retirement keeps the invariant if and only if it strands no peer: whatever commands fail, and whatever other lines
   the pattern built from the name matches.
   */
  lemma RetireKeepsIff(net: Network, h: Hub, name: string, cidr: string, o: Outcome)
    requires Inv(net, h)
    ensures Inv(net, Retired(h, name, cidr, o)) <==> StrandsNone(h, name, o)
  {
    RetiredRegistries(net, h, name, cidr, o);
    RetiredParts(h, name, cidr, o);
    var after := Retired(h, name, cidr, o);
    RetiredPeers(net, h, name, o, after.sites, after.alloc);
  }

  // ----- which lines the pattern matches -----

  /** A name that stands for itself in a regular expression. */
  predicate PlainName(name: string) {
    IsWord(name) && forall i :: 0 <= i < |name| ==> name[i] !in Bre.SPECIAL
  }

  /** The lines of other keys. */
  function OthersThan(lines: seq<Line>, name: string): (r: seq<Line>)
    ensures forall l :: l in r <==> l in lines && !FieldIs(l, 0, name)
  {
    Filter(lines, l => !FieldIs(l, 0, name))
  }

  lemma TextOf(l: Line)
    requires |l| >= 2
    ensures Join(l) == l[0] + " " + Join(l[1..])
  {
  }

  /** A name whose only special characters are dots matches the lines that fit it, a dot standing for any character. */
  lemma SimpleNameMatches(name: string, l: Line)
    requires Bre.Simple(name) && |l| >= 2
    ensures SedMatches(name, l) <==> Bre.Fits(name + " ", Join(l))
  {
    assert Bre.Simple(name + " ");
    Bre.SimpleMeans(name + " ", Join(l));
  }

  lemma FirstWordEnds(w: string, text: string)
    requires IsWord(w) && |w| < |text| && text[..|w|] == w && text[|w|] == ' '
    ensures WordLen(text) == |w|
  {
    assert forall i :: 0 <= i < |w| ==> text[i] == w[i];
  }

  lemma PlainFits(name: string, text: string)
    requires PlainName(name) && Bre.Fits(name + " ", text)
    ensures |name| < |text| && text[..|name|] == name && text[|name|] == ' '
  {
    var pattern := name + " ";
    forall i | 0 <= i < |name| ensures text[i] == name[i] { assert pattern[i] == name[i]; }
    assert pattern[|name|] == ' ';
  }

  /** A plain name matches exactly its own lines. */
  lemma PlainNameMatches(name: string, l: Line)
    requires PlainName(name) && AllWords(l) && |l| >= 2
    ensures SedMatches(name, l) <==> l[0] == name
  {
    TextOf(l);
    SimpleNameMatches(name, l);
    var text := Join(l);
    assert text[..|l[0]|] == l[0] && text[|l[0]|] == ' ';
    FirstWordEnds(l[0], text);
    if SedMatches(name, l) {
      PlainFits(name, text);
      FirstWordEnds(name, text);
    }
    if l[0] == name { assert Bre.Fits(name + " ", text); }
  }

  /** A dot in the name stands for any character: another name of that shape is matched as well. */
  lemma DottedNameMatches(name: string, l: Line)
    requires Bre.Simple(name) && |l| >= 2 && Bre.Fits(name, l[0]) && |l[0]| == |name|
    ensures SedMatches(name, l)
  {
    TextOf(l);
    SimpleNameMatches(name, l);
    var pattern, text := name + " ", Join(l);
    assert forall i :: 0 <= i < |name| ==> text[i] == l[0][i];
    assert text[|name|] == ' ';
  }

  function Starred(stem: string, c: char): string {
    stem + [c] + "*"
  }

  /**
   A name that ends in a star does not match its own lines, but those of the names that repeat the character before.
   */
  lemma StarredNameMatches(stem: string, c: char, n: nat, l: Line)
    requires PlainName(stem) && c !in Bre.SPECIAL && c != ' ' && |l| >= 2
    ensures l[0] == stem + Bre.Repeated(c, n) ==> SedMatches(Starred(stem, c), l)
    ensures l[0] == Starred(stem, c) ==> !SedMatches(Starred(stem, c), l)
  {
    TextOf(l);
    var rest := Join(l[1..]);
    assert Starred(stem, c) + " " == stem + [c] + "* ";
    assert '.' !in stem by { assert forall i :: 0 <= i < |stem| ==> stem[i] !in Bre.SPECIAL; }
    if l[0] == stem + Bre.Repeated(c, n) {
      assert Join(l) == stem + (Bre.Repeated(c, n) + (" " + rest));
      Bre.StarredMatches(stem, c, n, rest);
    }
    if l[0] == Starred(stem, c) {
      assert Join(l) == stem + [c] + "* " + rest;
      Bre.StarredMisses(stem, c, rest);
    }
  }

  /** The pattern matches the lines of the name and no others. */
  predicate OwnLinesOnly(lines: seq<Line>, name: string) {
    forall i :: 0 <= i < |lines| ==> (SedMatches(name, lines[i]) <==> FieldIs(lines[i], 0, name))
  }

  /** The deletion removes the site's own lines and no other one, exactly if the pattern matches those only. */
  lemma DeletesOwnLines(lines: seq<Line>, name: string)
    ensures SedDelete(lines, name) == OthersThan(lines, name) <==> OwnLinesOnly(lines, name)
  {
    var sed: Line -> bool := l => !SedMatches(name, l);
    var own: Line -> bool := l => !FieldIs(l, 0, name);
    FilterSame(lines, sed, l => !SedMatches(name, l));
    FilterSame(lines, own, l => !FieldIs(l, 0, name));
    if OwnLinesOnly(lines, name) {
      forall l | l in lines ensures sed(l) == own(l) {
        var i :| 0 <= i < |lines| && lines[i] == l;
      }
      FilterSame(lines, sed, own);
    }
    if i :| 0 <= i < |lines| && SedMatches(name, lines[i]) != FieldIs(lines[i], 0, name) {
      assert lines[i] in lines;
      assert lines[i] in SedDelete(lines, name) <==> lines[i] !in OthersThan(lines, name);
    }
  }

  lemma OwnDeletion(lines: seq<Line>, name: string)
    requires OwnLinesOnly(lines, name)
    ensures SedDelete(lines, name) == OthersThan(lines, name)
    ensures !HasKey(SedDelete(lines, name), 0, name)
    ensures forall key :: Hit(lines, name, key) ==> key == name
  {
    DeletesOwnLines(lines, name);
    InLines(SedDelete(lines, name), 0, name);
  }

  lemma PlainOwnsLines(lines: seq<Line>, name: string, hi: nat)
    requires PlainName(name) && Fields(lines, 2, hi)
    ensures OwnLinesOnly(lines, name)
  {
    FieldsMeans(lines, 2, hi);
    forall i | 0 <= i < |lines| ensures SedMatches(name, lines[i]) <==> FieldIs(lines[i], 0, name) {
      assert lines[i] in lines;
      PlainNameMatches(name, lines[i]);
    }
  }

  // ----- retiring a site whose pattern matches its own lines only -----

  /** In the registries of sites, addresses and nodes. */
  predicate Precise(h: Hub, name: string) {
    OwnLinesOnly(h.sites, name) && OwnLinesOnly(h.alloc, name) && OwnLinesOnly(h.nodes, name)
  }

  /** A name without special characters is precise. */
  lemma PlainIsPrecise(net: Network, h: Hub, name: string)
    requires Inv(net, h) && PlainName(name)
    ensures Precise(h, name)
    ensures Fields(h.dns, 2, 3) ==> OwnLinesOnly(h.dns, name)
  {
    PlainOwnsLines(h.sites, name, 2);
    PlainOwnsLines(h.alloc, name, 2);
    FieldsMeans(h.nodes, 3, 3);
    FieldsMeans(h.nodes, 2, 3);
    PlainOwnsLines(h.nodes, name, 3);
    if Fields(h.dns, 2, 3) { PlainOwnsLines(h.dns, name, 3); }
  }

  /** The commands took effect one after the other, up to where the run stopped. */
  predicate InSequence(o: Outcome) {
    (o.dns ==> o.nodes) && (o.nodes ==> o.alloc) && (o.alloc ==> o.sites) && (o.sites ==> o.route) &&
    (o.route ==> o.peer)
  }

  /** Then the invariant is kept if and only if the peer was removed, or was none, or the registries kept its lines. */
  lemma PreciseRetireKeepsIff(net: Network, h: Hub, name: string, cidr: string, o: Outcome)
    requires Inv(net, h) && Precise(h, name)
    ensures Inv(net, Retired(h, name, cidr, o)) <==>
            o.peer || !HasPeer(ReadPeers(h.conf), name) || (!o.sites && !o.alloc)
    ensures InSequence(o) ==> Inv(net, Retired(h, name, cidr, o))
  {
    RetireKeepsIff(net, h, name, cidr, o);
    StrandsOwnOnly(net, h, name, o);
  }

  lemma StrandsOwnOnly(net: Network, h: Hub, name: string, o: Outcome)
    requires Inv(net, h) && Precise(h, name)
    ensures StrandsNone(h, name, o) <==> o.peer || !HasPeer(ReadPeers(h.conf), name) || (!o.sites && !o.alloc)
  {
    OwnDeletion(h.sites, name);
    OwnDeletion(h.alloc, name);
    if i :| 0 <= i < |ReadPeers(h.conf)| && ReadPeers(h.conf)[i].name == name {
      OwnPeerStranded(net, h, name, o, ReadPeers(h.conf)[i]);
    }
    forall p | p in ReadPeers(h.conf) && Strands(h, name, o, p) ensures HasPeer(ReadPeers(h.conf), name) {
      InPeers(ReadPeers(h.conf), p);
    }
  }

  lemma OwnPeerStranded(net: Network, h: Hub, name: string, o: Outcome, p: Peer)
    requires Inv(net, h) && Precise(h, name) && p in ReadPeers(h.conf) && p.name == name
    ensures Strands(h, name, o, p) <==> !o.peer && (o.sites || o.alloc)
  {
    PeersOkMeans(h.sites, h.alloc, ReadPeers(h.conf));
    OwnLinesHit(h, name, p);
  }

  lemma OwnLinesHit(h: Hub, name: string, p: Peer)
    requires PeerOk(h.sites, h.alloc, p) && p.name == name && Precise(h, name)
    ensures Hit(h.sites, name, name) && Hit(h.alloc, name, name)
  {
    var i :| 0 <= i < |h.sites| && FieldIs(h.sites[i], 0, name);
    assert SedMatches(name, h.sites[i]);
    var j :| 0 <= j < |h.alloc| && Allocates(h.alloc[j], p);
    assert FieldIs(h.alloc[j], 0, name) && SedMatches(name, h.alloc[j]);
  }

  const ALL := Outcome(true, true, true, true, true, true)
  const NOTHING := Outcome(false, false, false, false, false, false)

  /** A retirement whose commands all take effect leaves nothing of the site, and everything else as it was. */
  lemma RetireRemoves(h: Hub, name: string, cidr: string)
    requires Precise(h, name)
    ensures var after := Retired(h, name, cidr, ALL);
            && after.sites == OthersThan(h.sites, name) && !HasKey(after.sites, 0, name)
            && after.alloc == OthersThan(h.alloc, name) && !HasKey(after.alloc, 0, name)
            && after.nodes == OthersThan(h.nodes, name) && !HasKey(after.nodes, 0, name)
            && (OwnLinesOnly(h.dns, name) ==> after.dns == OthersThan(h.dns, name) && !HasKey(after.dns, 0, name))
            && after.routes == h.routes - {cidr}
            && after.live == h.live - {KeyOf(h.conf, name)}
  {
    RetiredParts(h, name, cidr, ALL);
    OwnDeletion(h.sites, name);
    OwnDeletion(h.alloc, name);
    OwnDeletion(h.nodes, name);
    if OwnLinesOnly(h.dns, name) { OwnDeletion(h.dns, name); }
  }

  /** Its peer goes from wg0.conf and from the running interface, and no other does. */
  lemma RetireRemovesPeer(net: Network, h: Hub, name: string, cidr: string)
    requires Inv(net, h) && Precise(h, name)
    ensures var after := Retired(h, name, cidr, ALL);
            && Inv(net, after)
            && ReadPeers(after.conf) == Dropping(ReadPeers(h.conf), name) && HeaderOf(after.conf) == HeaderOf(h.conf)
            && forall p :: p in ReadPeers(h.conf) && p.name == name ==> p.key !in after.live
  {
    PreciseRetireKeepsIff(net, h, name, cidr, ALL);
    RetiredRegistries(net, h, name, cidr, ALL);
    RetiredParts(h, name, cidr, ALL);
    MarkerFinds(h.conf, name);
    RemoveDrops(h.conf, name);
  }
}
