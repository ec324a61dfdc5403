/**
 wg0.conf on the overlay hub: the interface's header, then one marked block of four lines per peer, each after a blank
 line. Blocks are appended by one command and removed by line number with grep, sed and awk.
 */
module WgConf {
  import opened Text
  import opened Wrappers

  type Lines = seq<string>

  /** A peer of the hub: the site's name, its gateway's public key, and its allowed addresses, separated by commas. */
  datatype Peer = Peer(name: string, key: string, allowed: string)

  const MARK := "# peer: "
  const KEY := "PublicKey" + " " + "=" + " "
  const ALLOWED := "AllowedIPs = "

  function Marker(name: string): string {
    MARK + name
  }

  function BlockLines(p: Peer): Lines {
    [Marker(p.name), "[Peer]", KEY + p.key, ALLOWED + p.allowed]
  }

  /** _render_hub_config() */
  function HubHeader(key: string, address: string, prefix: string, port: string): Lines {
    ["[Interface]", "PrivateKey = " + key, "Address = " + address + "/" + prefix, "ListenPort = " + port]
  }

  // ----- the commands -----

  /** cat >> wg0.conf */
  function Append(conf: Lines, p: Peer): Lines {
    conf + ([""] + BlockLines(p))
  }

  /** grep -nxF line | head -1 */
  function FirstLine(conf: Lines, line: string): (at: Option<nat>)
    ensures at.Some? ==> at.value < |conf| && conf[at.value] == line
  {
    if conf == [] then None
    else if conf[0] == line then Some(0)
    else
      match FirstLine(conf[1..], line)
      case None => None
      case Some(n) => Some(n + 1)
  }

  /** awk '{print $3}' */
  function ThirdWord(line: string): string {
    var ws := Words(line);
    if |ws| >= 3 then ws[2] else ""
  }

  /** sed -n "$((ln+2))p" | awk '{print $3}' */
  function KeyAt(conf: Lines, at: nat): string {
    if at + 2 < |conf| then ThirdWord(conf[at + 2]) else ""
  }

  /** awk -v start=$ln 'NR>start && /^$/{print NR; exit}', or the last line */
  function BlockEnd(conf: Lines, at: nat): (end: nat)
    requires at < |conf|
    ensures at <= end < |conf|
    decreases |conf| - at
  {
    if at == |conf| - 1 || conf[at + 1] == "" then (if at == |conf| - 1 then at else at + 1)
    else BlockEnd(conf, at + 1)
  }

  /** sed -i "${ln},${end}d" */
  function Cut(conf: Lines, at: nat): Lines
    requires at < |conf|
  {
    conf[..at] + conf[BlockEnd(conf, at) + 1..]
  }

  /** The block from the first such line on; all of it is left when there is none. */
  function RemoveAt(conf: Lines, at: Option<nat>): Lines
    requires at.Some? ==> at.value < |conf|
  {
    if at.Some? then Cut(conf, at.value) else conf
  }

  function Remove(conf: Lines, name: string): Lines {
    RemoveAt(conf, FirstLine(conf, Marker(name)))
  }

  /** The key of the peer's block, or "" without one. */
  function KeyOf(conf: Lines, name: string): string {
    var at := FirstLine(conf, Marker(name));
    if at.Some? then KeyAt(conf, at.value) else ""
  }

  /** What the file says: the peers of the marked blocks, in order. */
  function ReadPeers(conf: Lines): seq<Peer> {
    if conf == [] then []
    else if MARK <= conf[0] && |conf| >= 4 && |conf[3]| >= |ALLOWED| then
      [Peer(conf[0][|MARK|..], ThirdWord(conf[2]), conf[3][|ALLOWED|..])] + ReadPeers(conf[1..])
    else ReadPeers(conf[1..])
  }

  // ----- its shape -----

  /** After the header: blank lines and blocks, a blank line after every block but the last. */
  datatype Item = Gap | Block(peer: Peer)

  function ItemLines(item: Item): Lines {
    match item
    case Gap => [""]
    case Block(p) => BlockLines(p)
  }

  function Render(items: seq<Item>): Lines {
    if items == [] then [] else ItemLines(items[0]) + Render(items[1..])
  }

  function Peers(items: seq<Item>): seq<Peer> {
    if items == [] then []
    else if items[0].Block? then [items[0].peer] + Peers(items[1..])
    else Peers(items[1..])
  }

  predicate HasPeer(peers: seq<Peer>, name: string) {
    exists i :: 0 <= i < |peers| && peers[i].name == name
  }

  predicate Proper(p: Peer) {
    IsWord(p.key)
  }

  /** No two blocks share a name, their keys are words, and a block is followed by a blank line or by nothing. */
  predicate ProperItems(items: seq<Item>) {
    items == [] ||
    (ProperItems(items[1..]) &&
     (items[0].Block? ==>
        Proper(items[0].peer) && !HasPeer(Peers(items[1..]), items[0].peer.name) && (|items| > 1 ==> items[1].Gap?)))
  }

  predicate KeyedItems(items: seq<Item>) {
    items == [] || (KeyedItems(items[1..]) && (items[0].Block? ==> Proper(items[0].peer)))
  }

  lemma {:induction false} ProperIsKeyed(items: seq<Item>)
    requires ProperItems(items)
    ensures KeyedItems(items)
  {
    if items != [] { ProperIsKeyed(items[1..]); }
  }

  lemma HasPeerCons(p: Peer, rest: seq<Peer>, name: string)
    ensures HasPeer([p] + rest, name) <==> p.name == name || HasPeer(rest, name)
  {
    var all := [p] + rest;
    if HasPeer(rest, name) {
      var i :| 0 <= i < |rest| && rest[i].name == name;
      assert all[i + 1].name == name;
    }
    assert all[0] == p && forall i :: 1 <= i < |all| ==> all[i] == rest[i - 1];
  }

  /** No blank line and no marker. */
  predicate PlainLines(lines: Lines) {
    forall i :: 0 <= i < |lines| ==> lines[i] != "" && lines[i][0] != '#'
  }

  /** The lines before the first blank line or comment: the interface's own. */
  function HeaderOf(conf: Lines): (header: Lines)
    ensures PlainLines(header)
  {
    if conf == [] || conf[0] == "" || conf[0][0] == '#' then [] else [conf[0]] + HeaderOf(conf[1..])
  }

  /** The file is its header and well-spaced blocks, one per name, and nothing else. */
  ghost predicate WellFormed(conf: Lines) {
    exists items :: Shaped(conf, HeaderOf(conf), items)
  }

  predicate Shaped(conf: Lines, header: Lines, items: seq<Item>) {
    conf == header + Render(items) && PlainLines(header) && ProperItems(items)
  }

  // ----- removing one block -----

  /** The items without the block of that name and the blank line after it. */
  function Without(items: seq<Item>, name: string): seq<Item> {
    if items == [] then []
    else if items[0].Block? && items[0].peer.name == name then
      (if |items| > 1 then items[2..] else [])
    else [items[0]] + Without(items[1..], name)
  }

  lemma SameMarker(a: string, b: string)
    ensures Marker(a) == Marker(b) <==> a == b
    ensures Marker(a)[0] == '#' && MARK <= Marker(a) && Marker(a)[|MARK|..] == a
  {
    assert Marker(a)[|MARK|..] == a && Marker(b)[|MARK|..] == b;
  }

  lemma BlockLinesPlain(p: Peer, name: string)
    ensures BlockLines(p)[0] == Marker(name) <==> p.name == name
    ensures forall i :: 1 <= i < 4 ==> BlockLines(p)[i] != "" && BlockLines(p)[i][0] != '#'
    ensures BlockLines(p)[0] != ""
  {
    SameMarker(p.name, name);
  }

  /** In a rendering the marker stands first where the block of that name does. */
  lemma {:induction false} FirstInPlain(lines: Lines, rest: Lines, line: string)
    requires forall i :: 0 <= i < |lines| ==> lines[i] != line
    ensures FirstLine(lines + rest, line) ==
            match FirstLine(rest, line) case None => None case Some(n) => Some(|lines| + n)
  {
    if lines == [] {
      assert lines + rest == rest;
    } else {
      assert (lines + rest)[1..] == lines[1..] + rest;
      FirstInPlain(lines[1..], rest, line);
    }
  }

  lemma {:induction false} BlockEndSkips(pre: Lines, rest: Lines, at: nat)
    requires at < |rest|
    ensures BlockEnd(pre + rest, |pre| + at) == |pre| + BlockEnd(rest, at)
    decreases |rest| - at
  {
    var conf := pre + rest;
    if at < |rest| - 1 {
      assert conf[|pre| + at + 1] == rest[at + 1];
      BlockEndSkips(pre, rest, at + 1);
    }
  }

  lemma CutSkips(pre: Lines, rest: Lines, at: nat)
    requires at < |rest|
    ensures Cut(pre + rest, |pre| + at) == pre + Cut(rest, at)
  {
    BlockEndSkips(pre, rest, at);
    SliceSkips(pre, rest, at, BlockEnd(rest, at) + 1);
  }

  lemma SliceSkips(pre: Lines, rest: Lines, at: nat, next: nat)
    requires at <= next <= |rest|
    ensures (pre + rest)[..|pre| + at] + (pre + rest)[|pre| + next..] == pre + (rest[..at] + rest[next..])
  {
  }

  lemma KeySkips(pre: Lines, rest: Lines, at: nat)
    ensures KeyAt(pre + rest, |pre| + at) == KeyAt(rest, at)
  {
    assert at + 2 < |rest| ==> (pre + rest)[|pre| + at + 2] == rest[at + 2];
  }

  /** Lines before the block do not matter to the removal. */
  lemma RemoveSkips(pre: Lines, rest: Lines, name: string)
    requires forall i :: 0 <= i < |pre| ==> pre[i] != Marker(name)
    ensures Remove(pre + rest, name) == pre + Remove(rest, name)
    ensures KeyOf(pre + rest, name) == KeyOf(rest, name)
    ensures FirstLine(pre + rest, Marker(name)).Some? <==> FirstLine(rest, Marker(name)).Some?
  {
    var line := Marker(name);
    FirstInPlain(pre, rest, line);
    var first := FirstLine(rest, line);
    if first.Some? {
      assert FirstLine(pre + rest, line) == Some(|pre| + first.value);
      CutSkips(pre, rest, first.value);
      KeySkips(pre, rest, first.value);
    } else {
      assert FirstLine(pre + rest, line) == None;
    }
  }

  lemma ThreeWords(pre: string, a: string, b: string, c: string)
    requires pre == a + " " + b + " " && IsWord(a) && IsWord(b) && IsWord(c)
    ensures Words(pre + c) == [a, b, c]
  {
    WordsOfJoin([a, b, c]);
    assert [a, b, c][1..] == [b, c] && [b, c][1..] == [c];
    assert Join([b, c]) == b + " " + c;
    assert pre + c == a + " " + (b + " " + c);
  }

  lemma KeyLine(key: string)
    requires IsWord(key)
    ensures ThirdWord(KEY + key) == key
  {
    ThreeWords(KEY, "PublicKey", "=", key);
  }

  lemma BlockEndHere(conf: Lines)
    requires |conf| >= 4 && (forall i :: 1 <= i < 4 ==> conf[i] != "") && (|conf| > 4 ==> conf[4] == "")
    ensures BlockEnd(conf, 0) == if |conf| == 4 then 3 else 4
  {
    assert BlockEnd(conf, 3) == if |conf| == 4 then 3 else 4;
    assert BlockEnd(conf, 2) == BlockEnd(conf, 3);
    assert BlockEnd(conf, 1) == BlockEnd(conf, 2);
  }

  /** A block at the start of the lines, at the end or before a blank line, is what is found and deleted. */
  lemma RemoveHere(block: Lines, rest: Lines, name: string, key: string)
    requires |block| == 4 && block[0] == Marker(name) && forall i :: 1 <= i < 4 ==> block[i] != ""
    requires (rest != [] ==> rest[0] == "") && ThirdWord(block[2]) == key
    ensures Remove(block + rest, name) == (if rest == [] then [] else rest[1..])
    ensures KeyOf(block + rest, name) == key
    ensures FirstLine(block + rest, Marker(name)).Some?
  {
    var conf := block + rest;
    assert conf[0] == block[0] && conf[1] == block[1] && conf[2] == block[2] && conf[3] == block[3];
    assert rest != [] ==> conf[4] == rest[0];
    BlockEndHere(conf);
    assert conf[..0] == [];
    if rest == [] {
      assert conf[4..] == [];
    } else {
      assert conf[5..] == rest[1..];
    }
  }

  /** The block of the name comes first in the items. */
  lemma RemoveFirst(p: Peer, items: seq<Item>)
    requires Proper(p) && (items != [] ==> items[0].Gap?)
    ensures Remove(BlockLines(p) + Render(items), p.name) == (if items == [] then [] else Render(items[1..]))
    ensures KeyOf(BlockLines(p) + Render(items), p.name) == p.key
    ensures FirstLine(BlockLines(p) + Render(items), Marker(p.name)).Some?
  {
    BlockLinesPlain(p, p.name);
    KeyLine(p.key);
    RemoveHere(BlockLines(p), Render(items), p.name, p.key);
    assert items != [] ==> Render(items)[1..] == Render(items[1..]);
  }

  /** Deleting by line number deletes exactly the block of that name and the blank line after it. */
  lemma {:induction false} RemoveRendered(items: seq<Item>, name: string)
    requires ProperItems(items)
    ensures Remove(Render(items), name) == Render(Without(items, name))
  {
    if items != [] {
      var rest := items[1..];
      if items[0].Block? && items[0].peer.name == name {
        RemoveFirst(items[0].peer, rest);
        assert |items| > 1 ==> rest[1..] == items[2..];
      } else {
        OtherFirst(items[0], Render(rest), name);
        RemoveRendered(rest, name);
      }
    }
  }

  lemma OtherFirst(item: Item, rest: Lines, name: string)
    requires item.Block? ==> item.peer.name != name
    ensures Remove(ItemLines(item) + rest, name) == ItemLines(item) + Remove(rest, name)
    ensures KeyOf(ItemLines(item) + rest, name) == KeyOf(rest, name)
    ensures FirstLine(ItemLines(item) + rest, Marker(name)).Some? <==> FirstLine(rest, Marker(name)).Some?
  {
    SameMarker(name, name);
    if item.Block? { BlockLinesPlain(item.peer, name); }
    RemoveSkips(ItemLines(item), rest, name);
  }

  /** The shell finds a marker exactly for the peers of the file, and the key two lines below is the peer's. */
  lemma {:induction false} KeyInRendered(items: seq<Item>, name: string)
    requires ProperItems(items)
    ensures FirstLine(Render(items), Marker(name)).Some? <==> HasPeer(Peers(items), name)
    ensures forall p :: p in Peers(items) && p.name == name ==> KeyOf(Render(items), name) == p.key
  {
    if items != [] {
      var rest := items[1..];
      KeyInRendered(rest, name);
      if items[0].Block? { HasPeerCons(items[0].peer, Peers(rest), name); }
      if items[0].Block? && items[0].peer.name == name {
        RemoveFirst(items[0].peer, rest);
        forall p | p in Peers(rest) ensures p.name != name { InPeers(Peers(rest), p); }
      } else {
        OtherFirst(items[0], Render(rest), name);
      }
    }
  }

  lemma InPeers(peers: seq<Peer>, p: Peer)
    requires p in peers
    ensures HasPeer(peers, p.name)
  {
  }

  // ----- reading it -----

  lemma {:induction false} ReadSkips(pre: Lines, rest: Lines)
    requires forall i :: 0 <= i < |pre| ==> !(MARK <= pre[i])
    ensures ReadPeers(pre + rest) == ReadPeers(rest)
  {
    if pre == [] {
      assert pre + rest == rest;
    } else {
      assert (pre + rest)[0] == pre[0];
      assert (pre + rest)[1..] == pre[1..] + rest;
      ReadSkips(pre[1..], rest);
    }
  }

  lemma NoMark(line: string)
    requires line == "" || line[0] != '#'
    ensures !(MARK <= line)
  {
    assert MARK[0] == '#';
  }

  lemma ReadBlock(p: Peer, rest: Lines)
    requires Proper(p)
    ensures ReadPeers(BlockLines(p) + rest) == [p] + ReadPeers(rest)
  {
    var block := BlockLines(p);
    var conf := block + rest;
    SameMarker(p.name, p.name);
    BlockLinesPlain(p, p.name);
    KeyLine(p.key);
    assert conf[0] == block[0] && conf[2] == block[2] && conf[3] == block[3];
    assert (ALLOWED + p.allowed)[|ALLOWED|..] == p.allowed;
    NoMark(block[1]);
    NoMark(block[2]);
    NoMark(block[3]);
    assert conf[1..] == block[1..] + rest;
    ReadSkips(block[1..], rest);
  }

  lemma {:induction false} ReadRendered(items: seq<Item>)
    requires KeyedItems(items)
    ensures ReadPeers(Render(items)) == Peers(items)
  {
    if items != [] {
      var rest := items[1..];
      ReadRendered(rest);
      match items[0] {
        case Gap =>
          NoMark("");
          ReadSkips([""], Render(rest));
        case Block(p) => ReadBlock(p, Render(rest));
      }
    }
  }

  // ----- the file, by what it says -----

  predicate DistinctPeers(peers: seq<Peer>) {
    forall i, j :: 0 <= i < j < |peers| ==> peers[i].name != peers[j].name
  }

  function Dropping(peers: seq<Peer>, name: string): (r: seq<Peer>)
    ensures forall p :: p in r <==> p in peers && p.name != name
  {
    if peers == [] then []
    else if peers[0].name == name then Dropping(peers[1..], name)
    else [peers[0]] + Dropping(peers[1..], name)
  }

  lemma {:induction false} PeersDistinct(items: seq<Item>)
    requires ProperItems(items)
    ensures DistinctPeers(Peers(items))
  {
    if items != [] {
      PeersDistinct(items[1..]);
      if items[0].Block? {
        var peers, rest := Peers(items), Peers(items[1..]);
        assert peers[0] == items[0].peer && peers[1..] == rest;
        forall j | 0 < j < |peers| ensures peers[j].name != peers[0].name { assert peers[j] == rest[j - 1]; }
        assert forall i, j :: 0 < i < j < |peers| ==> peers[i] == rest[i - 1] && peers[j] == rest[j - 1];
      }
    }
  }

  lemma {:induction false} PeersProper(items: seq<Item>)
    requires ProperItems(items)
    ensures forall p :: p in Peers(items) ==> Proper(p)
  {
    if items != [] { PeersProper(items[1..]); }
  }

  lemma {:induction false} AbsentDrops(peers: seq<Peer>, name: string)
    requires !HasPeer(peers, name)
    ensures Dropping(peers, name) == peers
  {
    if peers != [] {
      assert peers == [peers[0]] + peers[1..];
      HasPeerCons(peers[0], peers[1..], name);
      AbsentDrops(peers[1..], name);
    }
  }

  lemma DroppingHas(peers: seq<Peer>, name: string, n: string)
    ensures HasPeer(Dropping(peers, name), n) ==> HasPeer(peers, n)
  {
    if HasPeer(Dropping(peers, name), n) {
      var i :| 0 <= i < |Dropping(peers, name)| && Dropping(peers, name)[i].name == n;
      assert Dropping(peers, name)[i] in peers;
    }
  }

  lemma {:induction false} WithoutKeeps(items: seq<Item>, name: string)
    requires ProperItems(items)
    ensures ProperItems(Without(items, name))
    ensures Peers(Without(items, name)) == Dropping(Peers(items), name)
    ensures Without(items, name) != [] && items[0].Gap? ==> Without(items, name)[0].Gap?
  {
    if items != [] {
      var rest := items[1..];
      WithoutKeeps(rest, name);
      if items[0].Block? && items[0].peer.name == name {
        AbsentDrops(Peers(rest), name);
        if |items| > 1 { assert rest[1..] == items[2..]; }
      } else {
        var now := Without(rest, name);
        assert ([items[0]] + now)[1..] == now;
        if items[0].Block? { DroppingHas(Peers(rest), name, items[0].peer.name); }
      }
    }
  }

  lemma {:induction false} AddKeeps(items: seq<Item>, p: Peer)
    requires ProperItems(items) && Proper(p) && !HasPeer(Peers(items), p.name)
    ensures ProperItems(items + [Gap, Block(p)])
  {
    var more := [Gap, Block(p)];
    if items == [] {
      assert items + more == more;
      OneBlock(p);
    } else {
      var rest := items[1..];
      assert (items + more)[1..] == rest + more;
      if items[0].Block? {
        HasPeerCons(items[0].peer, Peers(rest), p.name);
        HasPeerSnoc(Peers(rest), p, items[0].peer.name);
      }
      AddKeeps(rest, p);
      ProperIsKeyed(rest);
      RenderAdded(rest, p);
    }
  }

  lemma {:induction false} RenderAdded(items: seq<Item>, p: Peer)
    requires Proper(p) && KeyedItems(items)
    ensures KeyedItems(items + [Gap, Block(p)])
    ensures Peers(items + [Gap, Block(p)]) == Peers(items) + [p]
    ensures Render(items + [Gap, Block(p)]) == Append(Render(items), p)
  {
    var more := [Gap, Block(p)];
    if items == [] {
      assert items + more == more;
      OneBlock(p);
    } else {
      var rest := items[1..];
      assert (items + more)[1..] == rest + more;
      RenderAdded(rest, p);
      AppendSkips(ItemLines(items[0]), Render(rest), p);
    }
  }

  lemma OneBlock(p: Peer)
    requires Proper(p)
    ensures var more := [Gap, Block(p)];
            ProperItems(more) && KeyedItems(more) && Peers(more) == [p] && Render(more) == Append([], p)
  {
    var more := [Gap, Block(p)];
    assert more[1..] == [Block(p)] && [Block(p)][1..] == [];
    assert Peers([Block(p)]) == [p] && Render([Block(p)]) == BlockLines(p) + [];
  }

  lemma AppendSkips(pre: Lines, rest: Lines, p: Peer)
    ensures pre + Append(rest, p) == Append(pre + rest, p)
  {
  }

  lemma HasPeerSnoc(peers: seq<Peer>, p: Peer, name: string)
    ensures HasPeer(peers + [p], name) ==> HasPeer(peers, name) || p.name == name
  {
  }

  // ----- what the commands do to a well-formed file -----

  lemma ShapedMeans(conf: Lines, header: Lines, items: seq<Item>, name: string)
    requires Shaped(conf, header, items)
    ensures ReadPeers(conf) == Peers(items)
    ensures Remove(conf, name) == header + Render(Without(items, name))
    ensures KeyOf(conf, name) == KeyOf(Render(items), name)
    ensures FirstLine(conf, Marker(name)).Some? <==> FirstLine(Render(items), Marker(name)).Some?
  {
    forall i | 0 <= i < |header| ensures !(MARK <= header[i]) && header[i] != Marker(name) {
      NoMark(header[i]);
      SameMarker(name, name);
    }
    ReadSkips(header, Render(items));
    ProperIsKeyed(items);
    ReadRendered(items);
    RemoveSkips(header, Render(items), name);
    RemoveRendered(items, name);
  }

  lemma RenderStarts(items: seq<Item>)
    ensures Render(items) == [] || Render(items)[0] == "" || Render(items)[0][0] == '#'
  {
    if items != [] && items[0].Block? { SameMarker(items[0].peer.name, items[0].peer.name); }
  }

  lemma {:induction false} HeaderFirst(header: Lines, rest: Lines)
    requires PlainLines(header) && (rest == [] || rest[0] == "" || rest[0][0] == '#')
    ensures HeaderOf(header + rest) == header
  {
    if header == [] {
      assert header + rest == rest;
    } else {
      assert (header + rest)[0] == header[0] && (header + rest)[1..] == header[1..] + rest;
      HeaderFirst(header[1..], rest);
    }
  }

  /** There is only one way to read a file as a header and blocks. */
  lemma ShapedHeader(conf: Lines, header: Lines, items: seq<Item>)
    requires Shaped(conf, header, items)
    ensures HeaderOf(conf) == header && WellFormed(conf)
  {
    RenderStarts(items);
    HeaderFirst(header, Render(items));
  }

  /** A file with the interface's lines only has no peers. */
  lemma HeaderOnly(header: Lines)
    requires PlainLines(header)
    ensures WellFormed(header) && HeaderOf(header) == header && ReadPeers(header) == []
  {
    assert header + Render([]) == header;
    assert Shaped(header, header, []);
    ShapedHeader(header, header, []);
    ShapedMeans(header, header, [], "");
  }

  /** What the header says, word by word. */
  lemma HubHeaderSays(key: string, address: string, prefix: string, port: string)
    requires IsWord(key) && IsWord(address) && IsWord(prefix) && IsWord(port)
    ensures var header := HubHeader(key, address, prefix, port);
            && |header| == 4 && header[0] == "[Interface]"
            && Words(header[1]) == ["PrivateKey", "=", key]
            && Words(header[2]) == ["Address", "=", address + "/" + prefix]
            && Words(header[3]) == ["ListenPort", "=", port]
  {
    var header := HubHeader(key, address, prefix, port);
    SettingWords("PrivateKey", key, header[1]);
    SettingWords("Address", address + "/" + prefix, header[2]);
    SettingWords("ListenPort", port, header[3]);
  }

  lemma {:induction false} SettingWords(name: string, value: string, line: string)
    requires IsWord(name) && IsWord(value) && line == name + (" = " + value)
    ensures Words(line) == [name, "=", value]
  {
    var last := " " + value;
    assert (" = " + value)[1..] == "=" + last && last[1..] == value && value + "" == value;
    FirstWord(name, " = " + value);
    FirstWord("=", last);
    FirstWord(value, "");
  }

  /** What a peer adds to the file, line by line. */
  lemma AppendedText(conf: Lines, p: Peer)
    ensures Append(conf, p) ==
            conf + ["", "# peer: " + p.name, "[Peer]", "PublicKey = " + p.key, "AllowedIPs = " + p.allowed]
  {
    assert KEY == "PublicKey = ";
  }

  lemma HubHeaderPlain(key: string, address: string, prefix: string, port: string)
    ensures PlainLines(HubHeader(key, address, prefix, port))
  {
  }

  /**
   Appending a block adds exactly that peer, whatever blank lines earlier removals left, and keeps the header. The
   file stays well-formed if and only if it had no peer of that name.
   */
  lemma AppendAdds(conf: Lines, p: Peer)
    requires WellFormed(conf) && Proper(p)
    ensures ReadPeers(Append(conf, p)) == ReadPeers(conf) + [p]
    ensures HeaderOf(Append(conf, p)) == HeaderOf(conf)
    ensures WellFormed(Append(conf, p)) <==> !HasPeer(ReadPeers(conf), p.name)
  {
    ReadAppended(conf, p);
    if HasPeer(ReadPeers(conf), p.name) {
      var i :| 0 <= i < |ReadPeers(conf)| && ReadPeers(conf)[i].name == p.name;
      var peers := ReadPeers(Append(conf, p));
      assert peers[i].name == peers[|peers| - 1].name;
      if WellFormed(Append(conf, p)) { MarkerFinds(Append(conf, p), p.name); }
    } else {
      AppendShaped(conf, p);
    }
  }

  lemma ReadAppended(conf: Lines, p: Peer)
    requires WellFormed(conf) && Proper(p)
    ensures ReadPeers(Append(conf, p)) == ReadPeers(conf) + [p]
    ensures HeaderOf(Append(conf, p)) == HeaderOf(conf)
  {
    var header := HeaderOf(conf);
    var items :| Shaped(conf, header, items);
    ShapedMeans(conf, header, items, p.name);
    ProperIsKeyed(items);
    RenderAdded(items, p);
    AppendSkips(header, Render(items), p);
    forall i | 0 <= i < |header| ensures !(MARK <= header[i]) { NoMark(header[i]); }
    ReadSkips(header, Render(items + [Gap, Block(p)]));
    ReadRendered(items + [Gap, Block(p)]);
    RenderStarts(items + [Gap, Block(p)]);
    HeaderFirst(header, Render(items + [Gap, Block(p)]));
  }

  lemma AppendShaped(conf: Lines, p: Peer)
    requires WellFormed(conf) && Proper(p) && !HasPeer(ReadPeers(conf), p.name)
    ensures WellFormed(Append(conf, p))
  {
    var header := HeaderOf(conf);
    var items :| Shaped(conf, header, items);
    ShapedMeans(conf, header, items, p.name);
    AddKeeps(items, p);
    ProperIsKeyed(items);
    RenderAdded(items, p);
    AppendSkips(header, Render(items), p);
    ShapedHeader(Append(conf, p), header, items + [Gap, Block(p)]);
  }

  /** Deleting from the marker to the next blank line removes exactly that peer, and keeps the header. */
  lemma RemoveDrops(conf: Lines, name: string)
    requires WellFormed(conf)
    ensures WellFormed(Remove(conf, name)) && HeaderOf(Remove(conf, name)) == HeaderOf(conf)
    ensures ReadPeers(Remove(conf, name)) == Dropping(ReadPeers(conf), name)
  {
    var header := HeaderOf(conf);
    var items :| Shaped(conf, header, items);
    ShapedMeans(conf, header, items, name);
    WithoutKeeps(items, name);
    ShapedHeader(Remove(conf, name), header, Without(items, name));
    ShapedMeans(Remove(conf, name), header, Without(items, name), name);
  }

  /** The marker is found exactly for the file's peers, and two lines below it stands that peer's key. */
  lemma MarkerFinds(conf: Lines, name: string)
    requires WellFormed(conf)
    ensures FirstLine(conf, Marker(name)).Some? <==> HasPeer(ReadPeers(conf), name)
    ensures forall p :: p in ReadPeers(conf) && p.name == name ==> KeyOf(conf, name) == p.key
    ensures DistinctPeers(ReadPeers(conf)) && forall p :: p in ReadPeers(conf) ==> Proper(p)
  {
    var header := HeaderOf(conf);
    var items :| Shaped(conf, header, items);
    ShapedMeans(conf, header, items, name);
    KeyInRendered(items, name);
    PeersDistinct(items);
    PeersProper(items);
  }

  // ----- any sequence of additions and removals -----

  datatype Edit = Add(peer: Peer) | Drop(name: string)

  /** add_peer_to_hub() appends no second block; remove_peer_from_hub() does nothing without one. */
  function Edited(conf: Lines, edit: Edit): Lines {
    match edit
    case Add(p) => if FirstLine(conf, Marker(p.name)).Some? then conf else Append(conf, p)
    case Drop(name) => Remove(conf, name)
  }

  function EditedAll(conf: Lines, edits: seq<Edit>): Lines {
    if edits == [] then conf else Edited(EditedAll(conf, edits[..|edits| - 1]), edits[|edits| - 1])
  }

  /** The peers after the edits, without looking at any text. */
  function PeersAfter(peers: seq<Peer>, edits: seq<Edit>): seq<Peer> {
    if edits == [] then peers
    else
      var before := PeersAfter(peers, edits[..|edits| - 1]);
      match edits[|edits| - 1]
      case Add(p) => if HasPeer(before, p.name) then before else before + [p]
      case Drop(name) => Dropping(before, name)
  }

  predicate ProperEdits(edits: seq<Edit>) {
    forall i :: 0 <= i < |edits| && edits[i].Add? ==> Proper(edits[i].peer)
  }

  /** Over any sequence of edits the file is its old header and the blocks of the peers that the edits say. */
  lemma {:induction false} EditsTrackPeers(conf: Lines, edits: seq<Edit>)
    requires WellFormed(conf) && ProperEdits(edits)
    ensures WellFormed(EditedAll(conf, edits)) && HeaderOf(EditedAll(conf, edits)) == HeaderOf(conf)
    ensures ReadPeers(EditedAll(conf, edits)) == PeersAfter(ReadPeers(conf), edits)
  {
    if edits != [] {
      var init := edits[..|edits| - 1];
      EditsTrackPeers(conf, init);
      var now := EditedAll(conf, init);
      match edits[|edits| - 1] {
        case Add(p) =>
          MarkerFinds(now, p.name);
          if !HasPeer(ReadPeers(now), p.name) { AppendAdds(now, p); }
        case Drop(name) => RemoveDrops(now, name);
      }
    }
  }
}
