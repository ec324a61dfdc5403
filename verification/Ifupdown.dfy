/** Rewriting /etc/network/interfaces: the NIC becomes `inet manual`, the bridge gets a stanza of its own. */
module Ifupdown {
  import opened Text

  predicate IsWordChar(c: char) {
    'a' <= c <= 'z' || 'A' <= c <= 'Z' || '0' <= c <= '9' || c == '_'
  }

  /** `keyword\b` matches at the start of the word. */
  predicate KeywordAt(w: string, keyword: string) {
    keyword <= w && (|w| == |keyword| || !IsWordChar(w[|keyword|]))
  }

  /** The line opens a stanza: _IFUPDOWN_STANZA matches it once stripped. */
  predicate StanzaHead(line: string) {
    Words(line) != [] && HeadWord(Words(line)[0])
  }

  predicate HeadWord(w: string) {
    || KeywordAt(w, "iface") || KeywordAt(w, "auto") || KeywordAt(w, "mapping") || KeywordAt(w, "source")
    || KeywordAt(w, "source-directory") || KeywordAt(w, "rename")
    || ("allow-" <= w && exists i :: 6 <= i < |w| && IsWordChar(w[i]))
  }

  predicate IfaceHead(line: string, name: string) {
    var ws := Words(line);
    |ws| >= 2 && ws[0] == "iface" && ws[1] == name
  }

  predicate InetHead(line: string, name: string) {
    IfaceHead(line, name) && |Words(line)| >= 3 && Words(line)[2] == "inet"
  }

  predicate Blank(line: string) {
    Words(line) == []
  }

  function Manual(nic: string): string {
    Join(["iface", nic, "inet", "manual"])
  }

  // ----- what the rewriting means -----

  /** The last line of the text lies in a stanza of the interface: the nearest stanza head is its `iface` line. */
  predicate InStanzaOf(lines: seq<string>, name: string) {
    lines != [] &&
    var line := lines[|lines| - 1];
    if StanzaHead(line) then IfaceHead(line, name) else InStanzaOf(lines[..|lines| - 1], name)
  }

  /** What becomes of the last line of a text. */
  function Emit(lines: seq<string>, nic: string): seq<string>
    requires lines != []
  {
    var line := lines[|lines| - 1];
    if !InStanzaOf(lines, nic) || Blank(line) then [line]
    else if InetHead(line, nic) then [Manual(nic)]
    else []
  }

  function Rewrite(lines: seq<string>, nic: string): seq<string> {
    if lines == [] then [] else Rewrite(lines[..|lines| - 1], nic) + Emit(lines, nic)
  }

  /** The loop of render_ifupdown(), with its skipping flag. */
  method RewriteLines(lines: seq<string>, nic: string) returns (out: seq<string>)
    ensures out == Rewrite(lines, nic)
  {
    out := [];
    var skipping := false;
    for i := 0 to |lines|
      invariant out == Rewrite(lines[..i], nic)
      invariant skipping == InStanzaOf(lines[..i], nic)
    {
      var line := lines[i];
      var words := Words(line);
      assert lines[..i + 1][..i] == lines[..i];
      if StanzaHead(line) {
        skipping := false;
        if |words| >= 2 && words[..2] == ["iface", nic] {
          assert words[..2][0] == words[0] && words[..2][1] == words[1];
          skipping := true;
          if |words| >= 3 && words[2] == "inet" {
            out := out + [Manual(nic)];
          }
          continue;
        }
        assert |words| >= 2 ==> words[..2] == [words[0], words[1]];
      } else if skipping && words != [] {
        HeadsAreHeads(line, nic);
        continue;
      }
      out := out + [line];
    }
    assert lines[..|lines|] == lines;
  }

  lemma HeadsAreHeads(line: string, name: string)
    ensures IfaceHead(line, name) ==> StanzaHead(line)
  {
  }

  /** The lines the rewriting must not touch: those outside the interface's stanzas, and blank ones. */
  function Kept(lines: seq<string>, nic: string): seq<string> {
    if lines == [] then []
    else
      var line := lines[|lines| - 1];
      Kept(lines[..|lines| - 1], nic) + (if !InStanzaOf(lines, nic) || Blank(line) then [line] else [])
  }

  lemma ManualLine(nic: string)
    requires IsWord(nic)
    ensures Words(Manual(nic)) == ["iface", nic, "inet", "manual"]
    ensures InetHead(Manual(nic), nic) && StanzaHead(Manual(nic)) && !Blank(Manual(nic))
  {
    WordsOfJoin(["iface", nic, "inet", "manual"]);
    HeadsAreHeads(Manual(nic), nic);
  }

  lemma Last(lines: seq<string>, line: string, nic: string)
    ensures InStanzaOf(lines + [line], nic) == if StanzaHead(line) then IfaceHead(line, nic) else InStanzaOf(lines, nic)
    ensures Rewrite(lines + [line], nic) == Rewrite(lines, nic) + Emit(lines + [line], nic)
    ensures Kept(lines + [line], nic) ==
            Kept(lines, nic) + (if !InStanzaOf(lines + [line], nic) || Blank(line) then [line] else [])
  {
    assert (lines + [line])[..|lines|] == lines;
  }

  /** Reading the rewritten text, a line that was outside the interface's stanzas still is. */
  lemma {:induction false} StaysOutside(lines: seq<string>, nic: string)
    requires IsWord(nic)
    ensures !InStanzaOf(lines, nic) ==> !InStanzaOf(Rewrite(lines, nic), nic)
  {
    if lines != [] && !InStanzaOf(lines, nic) {
      var init, line := lines[..|lines| - 1], lines[|lines| - 1];
      StaysOutside(init, nic);
      Last(Rewrite(init, nic), line, nic);
    }
  }

  /** One more line, kept as it is or blank, dropped, or replaced by the manual head. */
  lemma RewriteCases(lines: seq<string>, nic: string)
    requires IsWord(nic) && lines != []
    ensures var init, line := lines[..|lines| - 1], lines[|lines| - 1];
            var out := Rewrite(init, nic);
            || ((!InStanzaOf(lines, nic) || Blank(line)) && Rewrite(lines, nic) == out + [line]
                && (!InStanzaOf(lines, nic) ==> !InStanzaOf(out + [line], nic)))
            || (InStanzaOf(lines, nic) && !Blank(line)
                && (Rewrite(lines, nic) == out + [Manual(nic)] || Rewrite(lines, nic) == out))
  {
    StaysOutside(lines, nic);
  }

  /** The rewriting keeps exactly the untouchable lines, in order, and adds only `inet manual` heads. */
  lemma {:induction false} RewriteKeeps(lines: seq<string>, nic: string)
    requires IsWord(nic)
    ensures Kept(Rewrite(lines, nic), nic) == Kept(lines, nic)
  {
    if lines != [] {
      var init, line := lines[..|lines| - 1], lines[|lines| - 1];
      var out := Rewrite(init, nic);
      RewriteKeeps(init, nic);
      RewriteCases(lines, nic);
      ManualLine(nic);
      Last(out, line, nic);
      Last(out, Manual(nic), nic);
      assert Kept(out, nic) + [] == Kept(out, nic);
    }
  }

  /** Rewriting a rewritten text changes nothing. */
  lemma {:induction false} RewriteIdempotent(lines: seq<string>, nic: string)
    requires IsWord(nic)
    ensures Rewrite(Rewrite(lines, nic), nic) == Rewrite(lines, nic)
  {
    if lines != [] {
      var init, line := lines[..|lines| - 1], lines[|lines| - 1];
      var out := Rewrite(init, nic);
      RewriteIdempotent(init, nic);
      RewriteCases(lines, nic);
      ManualLine(nic);
      Last(out, line, nic);
      Last(out, Manual(nic), nic);
    }
  }

  /** No stanza of the interface is left but `inet manual` ones without a body. */
  predicate Switched(lines: seq<string>, nic: string) {
    forall n :: 0 < n <= |lines| && InStanzaOf(lines[..n], nic) ==> Blank(lines[n - 1]) || lines[n - 1] == Manual(nic)
  }

  lemma SwitchedAppend(lines: seq<string>, line: string, nic: string)
    requires Switched(lines, nic)
    requires InStanzaOf(lines + [line], nic) ==> Blank(line) || line == Manual(nic)
    ensures Switched(lines + [line], nic)
  {
    var more := lines + [line];
    forall n | 0 < n <= |more| && InStanzaOf(more[..n], nic)
      ensures Blank(more[n - 1]) || more[n - 1] == Manual(nic)
    {
      if n <= |lines| { assert more[..n] == lines[..n]; } else { assert more[..n] == more; }
    }
  }

  lemma {:induction false} RewriteSwitches(lines: seq<string>, nic: string)
    requires IsWord(nic)
    ensures Switched(Rewrite(lines, nic), nic)
  {
    if lines != [] {
      var init, line := lines[..|lines| - 1], lines[|lines| - 1];
      var out := Rewrite(init, nic);
      RewriteSwitches(init, nic);
      StaysOutside(lines, nic);
      ManualLine(nic);
      if Emit(lines, nic) == [line] {
        SwitchedAppend(out, line, nic);
      } else if Emit(lines, nic) == [Manual(nic)] {
        SwitchedAppend(out, Manual(nic), nic);
      } else {
        assert out + [] == out;
      }
    }
  }

  // ----- what is left of the interface's own stanzas -----

  /** The number of `iface <nic> inet` lines. */
  function InetHeads(lines: seq<string>, nic: string): nat {
    if lines == [] then 0
    else InetHeads(lines[..|lines| - 1], nic) + if InetHead(lines[|lines| - 1], nic) then 1 else 0
  }

  /**
   The rewritten text of any first part of the lines is the first part of the rewritten text, and has as many
   `inet manual` lines of the interface as that part has `iface <nic> inet` lines, each where that stood among the kept
   lines; and no other `iface` line of the interface.
   */
  lemma {:induction false} RewriteHeads(lines: seq<string>, nic: string, n: nat)
    requires IsWord(nic) && n <= |lines|
    ensures Rewrite(lines[..n], nic) <= Rewrite(lines, nic)
    ensures InetHeads(Rewrite(lines[..n], nic), nic) == InetHeads(lines[..n], nic)
    ensures Stanzas(Rewrite(lines[..n], nic), nic) == InetHeads(lines[..n], nic)
    ensures |Rewrite(lines[..n], nic)| == |Kept(lines[..n], nic)| + InetHeads(lines[..n], nic)
    ensures forall l :: l in Rewrite(lines, nic) && IfaceHead(l, nic) ==> l == Manual(nic)
  {
    RewriteGrows(lines, nic, n);
    HeadsRewritten(lines[..n], nic);
    OnlyManualHeads(lines, nic);
  }

  lemma {:induction false} RewriteGrows(lines: seq<string>, nic: string, n: nat)
    requires n <= |lines|
    ensures Rewrite(lines[..n], nic) <= Rewrite(lines, nic)
    decreases |lines|
  {
    if n < |lines| {
      var init := lines[..|lines| - 1];
      assert init[..n] == lines[..n];
      RewriteGrows(init, nic, n);
    } else {
      assert lines[..n] == lines;
    }
  }

  lemma InetHeadsSnoc(lines: seq<string>, line: string, nic: string)
    ensures InetHeads(lines + [line], nic) == InetHeads(lines, nic) + if InetHead(line, nic) then 1 else 0
    ensures Stanzas(lines + [line], nic) == Stanzas(lines, nic) + if IfaceHead(line, nic) then 1 else 0
  {
    assert (lines + [line])[..|lines|] == lines;
  }

  lemma {:induction false} HeadsRewritten(lines: seq<string>, nic: string)
    requires IsWord(nic)
    ensures InetHeads(Rewrite(lines, nic), nic) == Stanzas(Rewrite(lines, nic), nic) == InetHeads(lines, nic)
    ensures |Rewrite(lines, nic)| == |Kept(lines, nic)| + InetHeads(lines, nic)
  {
    if lines != [] {
      HeadsRewritten(lines[..|lines| - 1], nic);
      EmittedHeads(Rewrite(lines[..|lines| - 1], nic), lines, nic);
      EmittedLength(lines, nic);
    }
  }

  lemma EmittedLength(lines: seq<string>, nic: string)
    requires lines != []
    ensures |Emit(lines, nic)| == |Kept(lines, nic)| - |Kept(lines[..|lines| - 1], nic)|
                                  + if InetHead(lines[|lines| - 1], nic) then 1 else 0
  {
    HeadsAreHeads(lines[|lines| - 1], nic);
  }

  /** What becomes of the last line brings one such line for an inet head, and none otherwise. */
  lemma EmittedHeads(out: seq<string>, lines: seq<string>, nic: string)
    requires IsWord(nic) && lines != []
    ensures var n := if InetHead(lines[|lines| - 1], nic) then 1 else 0;
            && InetHeads(out + Emit(lines, nic), nic) == InetHeads(out, nic) + n
            && Stanzas(out + Emit(lines, nic), nic) == Stanzas(out, nic) + n
  {
    ManualLine(nic);
    HeadsAreHeads(lines[|lines| - 1], nic);
    InetHeadsSnoc(out, lines[|lines| - 1], nic);
    InetHeadsSnoc(out, Manual(nic), nic);
    assert out + [] == out;
  }

  lemma {:induction false} OnlyManualHeads(lines: seq<string>, nic: string)
    requires IsWord(nic)
    ensures forall l :: l in Rewrite(lines, nic) && IfaceHead(l, nic) ==> l == Manual(nic)
  {
    if lines != [] {
      OnlyManualHeads(lines[..|lines| - 1], nic);
      HeadsAreHeads(lines[|lines| - 1], nic);
    }
  }

  /**
   A line lies in a stanza of the interface exactly if the nearest line that opens one, itself or before, is its own.
   */
  lemma {:induction false} InStanzaMeans(lines: seq<string>, name: string)
    ensures InStanzaOf(lines, name) <==>
            exists h :: 0 <= h < |lines| && IfaceHead(lines[h], name) && forall i :: h < i < |lines| ==>
              !StanzaHead(lines[i])
  {
    if lines != [] {
      var init, line := lines[..|lines| - 1], lines[|lines| - 1];
      InStanzaMeans(init, name);
      HeadsAreHeads(line, name);
      if !StanzaHead(line) {
        if h :| 0 <= h < |init| && IfaceHead(init[h], name) && forall i :: h < i < |init| ==> !StanzaHead(init[i]) {
          assert IfaceHead(lines[h], name);
          forall i | h < i < |lines| ensures !StanzaHead(lines[i]) { assert i < |init| ==> lines[i] == init[i]; }
        }
        if h :| 0 <= h < |lines| && IfaceHead(lines[h], name) && forall i :: h < i < |lines| ==> !StanzaHead(lines[i]) {
          assert h < |init| && IfaceHead(init[h], name);
          forall i | h < i < |init| ensures !StanzaHead(init[i]) { assert lines[i] == init[i]; }
        }
      }
    }
  }

  predicate Letter(c: char) {
    c in "abcdefghijklmnopqrstuvwxyz" || c in "ABCDEFGHIJKLMNOPQRSTUVWXYZ" || c in "0123456789" || c == '_'
  }

  lemma LettersAreWordChars(c: char)
    ensures IsWordChar(c) <==> Letter(c)
  {
    SmallLetters(c);
    CapitalLetters(c);
    Numerals(c);
  }

  lemma SmallLetters(c: char)
    ensures 'a' <= c <= 'z' <==> c in "abcdefghijklmnopqrstuvwxyz"
  {
    var all := "abcdefghijklmnopqrstuvwxyz";
    if 'a' <= c <= 'z' { assert all[c as int - 'a' as int] == c; }
  }

  lemma CapitalLetters(c: char)
    ensures 'A' <= c <= 'Z' <==> c in "ABCDEFGHIJKLMNOPQRSTUVWXYZ"
  {
    var all := "ABCDEFGHIJKLMNOPQRSTUVWXYZ";
    if 'A' <= c <= 'Z' { assert all[c as int - 'A' as int] == c; }
  }

  lemma Numerals(c: char)
    ensures '0' <= c <= '9' <==> c in "0123456789"
  {
    var all := "0123456789";
    if '0' <= c <= '9' { assert all[c as int - '0' as int] == c; }
  }

  /** \b at k: a letter, digit or underscore on one side, and none on the other. */
  predicate Boundary(w: string, k: nat)
    requires k <= |w|
  {
    (k > 0 && Letter(w[k - 1])) != (k < |w| && Letter(w[k]))
  }

  /** Up to k the word is what the expression allows in front of the boundary. */
  predicate OpensAt(w: string, k: nat)
    requires k <= |w|
  {
    Boundary(w, k) && (Keyword(w[..k]) || (k > 6 && "allow-" <= w))
  }

  predicate Keyword(s: string) {
    s in ["iface", "auto", "mapping", "source", "source-directory", "rename"]
  }

  /** The expression matches a word exactly as it says: one of the keywords, or allow- and more, up to a boundary. */
  lemma {:induction false} HeadWordExactly(w: string)
    ensures HeadWord(w) <==> exists k: nat :: k <= |w| && OpensAt(w, k)
  {
    AllowOpensAt(w);
    if HeadWord(w) && !("allow-" <= w && exists i :: 6 <= i < |w| && IsWordChar(w[i])) {
      var keyword := KeywordOf(w);
      KeywordOpens(w, keyword);
      assert OpensAt(w, |keyword|);
    }
    if "allow-" <= w && exists i :: 6 <= i < |w| && IsWordChar(w[i]) {
      var k: nat :| 6 < k <= |w| && Boundary(w, k);
      assert OpensAt(w, k);
    }
    if k: nat :| k <= |w| && OpensAt(w, k) {
      if Keyword(w[..k]) { KeywordCloses(w, k); }
    }
  }

  lemma {:induction false} KeywordOf(w: string) returns (keyword: string)
    requires HeadWord(w) && !("allow-" <= w && exists i :: 6 <= i < |w| && IsWordChar(w[i]))
    ensures Keyword(keyword) && KeywordAt(w, keyword) && keyword != "" && IsWordChar(keyword[|keyword| - 1])
  {
    if KeywordAt(w, "iface") { return "iface"; }
    if KeywordAt(w, "auto") { return "auto"; }
    if KeywordAt(w, "mapping") { return "mapping"; }
    if KeywordAt(w, "source") { return "source"; }
    if KeywordAt(w, "rename") { return "rename"; }
    return "source-directory";
  }

  lemma {:induction false} KeywordCloses(w: string, k: nat)
    requires k <= |w| && Keyword(w[..k]) && Boundary(w, k)
    ensures HeadWord(w)
  {
    KeywordEnds(w[..k]);
    KeywordOpens(w, w[..k]);
    KeywordHeads(w, w[..k]);
  }

  lemma {:induction false} KeywordEnds(s: string)
    requires Keyword(s)
    ensures s != "" && IsWordChar(s[|s| - 1])
  {
  }

  lemma {:induction false} KeywordHeads(w: string, keyword: string)
    requires Keyword(keyword) && KeywordAt(w, keyword)
    ensures HeadWord(w)
  {
  }

  /** A keyword is there exactly when it ends at a boundary. */
  lemma {:induction false} KeywordOpens(w: string, keyword: string)
    requires keyword != "" && IsWordChar(keyword[|keyword| - 1])
    ensures KeywordAt(w, keyword) <==> |keyword| <= |w| && w[..|keyword|] == keyword && Boundary(w, |keyword|)
  {
    forall c { LettersAreWordChars(c); }
    if keyword <= w { assert w[|keyword| - 1] == keyword[|keyword| - 1]; }
  }

  /** After allow- there is a boundary exactly when there is a letter. */
  lemma {:induction false} AllowOpensAt(w: string)
    ensures (exists i :: 6 <= i < |w| && IsWordChar(w[i])) <==> exists k: nat :: 6 < k <= |w| && Boundary(w, k)
  {
    forall c { LettersAreWordChars(c); }
    if i :| 6 <= i < |w| && IsWordChar(w[i]) {
      var k := LastLetter(w, i);
      assert Boundary(w, k);
    }
    if k: nat :| 6 < k <= |w| && Boundary(w, k) {
      assert IsWordChar(w[k - 1]) || (k < |w| && IsWordChar(w[k]));
    }
  }

  /** The end of the letters that go on from i. */
  lemma {:induction false} LastLetter(w: string, i: nat) returns (k: nat)
    requires i < |w| && IsWordChar(w[i])
    ensures i < k <= |w| && IsWordChar(w[k - 1]) && (k < |w| ==> !IsWordChar(w[k]))
    decreases |w| - i
  {
    if i + 1 < |w| && IsWordChar(w[i + 1]) { k := LastLetter(w, i + 1); } else { k := i + 1; }
  }

  /** A line opens a stanza exactly when the expression matches its first word, whatever blanks are before it. */
  lemma {:induction false} StanzaHeadExactly(blank: string, w: string, rest: string)
    requires (forall i :: 0 <= i < |blank| ==> IsSpace(blank[i])) && IsWord(w) && (rest == "" || IsSpace(rest[0]))
    ensures StanzaHead(blank + (w + rest)) <==> exists k: nat :: k <= |w| && OpensAt(w, k)
  {
    BlankFirst(blank, w + rest);
    FirstWord(w, rest);
    HeadWordExactly(w);
  }

  lemma {:induction false} BlankFirst(blank: string, text: string)
    requires forall i :: 0 <= i < |blank| ==> IsSpace(blank[i])
    ensures Words(blank + text) == Words(text)
  {
    if blank == "" {
      assert blank + text == text;
    } else {
      assert (blank + text)[1..] == blank[1..] + text;
      BlankFirst(blank[1..], text);
    }
  }

  // ----- the whole file -----

  datatype HostNet = HostNet(
    nic: string, mac: string, address: string, gateway: string, dhcp: bool, dns: seq<string>, search: seq<string>)

  const INDENT := "    "

  function Setting(key: string, value: string): string {
    INDENT + (key + (" " + value))
  }

  /** The stanza of the bridge, after an empty line. */
  function BridgeStanza(net: HostNet, bridge: string): seq<string> {
    ["", "auto " + bridge] + [BridgeHead(net, bridge)] + BridgeBody(net)
  }

  function BridgeHead(net: HostNet, bridge: string): string {
    Join(["iface", bridge, "inet", if net.dhcp then "dhcp" else "static"])
  }

  function BridgeBody(net: HostNet): seq<string> {
    AddressLines(net) + PortLines(net)
  }

  function PortLines(net: HostNet): seq<string> {
    [Setting("bridge_ports", net.nic), Setting("bridge_stp", "off"), Setting("bridge_fd", "0")]
  }

  function AddressLines(net: HostNet): seq<string> {
    if net.dhcp then [Setting("bridge_hw", net.mac)]
    else [Setting("address", net.address), Setting("gateway", net.gateway)] + DnsLines(net)
  }

  function DnsLines(net: HostNet): seq<string> {
    (if net.dns != [] then [Setting("dns-nameservers", Join(net.dns))] else [])
    + (if net.search != [] then [Setting("dns-search", Join(net.search))] else [])
  }

  /** "\n".join(out).rstrip("\n"), by lines: at least one line is left, an empty one if need be. */
  function StripEmpty(lines: seq<string>): seq<string> {
    if lines == [] then [""]
    else if lines[|lines| - 1] == "" then StripEmpty(lines[..|lines| - 1])
    else lines
  }

  function Render(lines: seq<string>, net: HostNet, bridge: string): seq<string> {
    StripEmpty(Rewrite(lines, net.nic)) + BridgeStanza(net, bridge)
  }

  /** render_ifupdown(), by lines */
  method RenderIfupdown(lines: seq<string>, net: HostNet, bridge: string) returns (result: seq<string>)
    ensures result == Render(lines, net, bridge)
  {
    var out := RewriteLines(lines, net.nic);
    var stanza := ["", "auto " + bridge] + [BridgeHead(net, bridge)];
    ghost var head := stanza;
    if net.dhcp {
      stanza := stanza + [Setting("bridge_hw", net.mac)];
    } else {
      stanza := stanza + [Setting("address", net.address), Setting("gateway", net.gateway)];
      if net.dns != [] { stanza := stanza + [Setting("dns-nameservers", Join(net.dns))]; }
      if net.search != [] { stanza := stanza + [Setting("dns-search", Join(net.search))]; }
    }
    assert stanza == head + AddressLines(net);
    ghost var upper := stanza;
    stanza := stanza + [Setting("bridge_ports", net.nic), Setting("bridge_stp", "off"), Setting("bridge_fd", "0")];
    assert stanza == upper + PortLines(net) == head + (AddressLines(net) + PortLines(net));
    result := StripEmpty(out) + stanza;
  }

  /** The number of `iface` stanzas of an interface. */
  function Stanzas(lines: seq<string>, name: string): nat {
    if lines == [] then 0
    else Stanzas(lines[..|lines| - 1], name) + (if IfaceHead(lines[|lines| - 1], name) then 1 else 0)
  }

  lemma {:induction false} StanzasAppend(a: seq<string>, b: seq<string>, name: string)
    ensures Stanzas(a + b, name) == Stanzas(a, name) + Stanzas(b, name)
  {
    if b == [] {
      assert a + b == a;
    } else {
      var init := b[..|b| - 1];
      assert (a + b)[..|a + b| - 1] == a + init;
      StanzasAppend(a, init, name);
    }
  }

  lemma {:induction false} RewriteStanzas(lines: seq<string>, nic: string, name: string)
    requires IsWord(nic) && name != nic
    ensures Stanzas(Rewrite(lines, nic), name) == Stanzas(lines, name)
  {
    if lines != [] {
      RewriteStanzas(lines[..|lines| - 1], nic, name);
      ManualLine(nic);
      HeadsAreHeads(lines[|lines| - 1], name);
      var emitted := Emit(lines, nic);
      StanzasAppend(Rewrite(lines[..|lines| - 1], nic), emitted, name);
      if emitted != [] { assert emitted[..0] == []; }
    }
  }

  lemma {:induction false} StripEmptyKeeps(lines: seq<string>, nic: string, name: string)
    requires Switched(lines, nic)
    ensures Stanzas(StripEmpty(lines), name) == Stanzas(lines, name)
    ensures Switched(StripEmpty(lines), nic)
  {
    if lines == [] {
      assert [""][..0] == [];
    } else if lines[|lines| - 1] == "" {
      var init := lines[..|lines| - 1];
      forall n | 0 < n <= |init| ensures init[..n] == lines[..n] {}
      StripEmptyKeeps(init, nic, name);
    }
  }

  lemma SpaceFirst(s: string)
    ensures Words([' '] + s) == Words(s)
  {
    assert ([' '] + s)[1..] == s;
  }

  predicate BodyLines(lines: seq<string>) {
    forall i :: 0 <= i < |lines| ==> !StanzaHead(lines[i]) && !Blank(lines[i])
  }

  /** Two characters decide that a setting opens no stanza. */
  lemma SettingNotHead(key: string, value: string)
    requires |key| >= 2 && !IsSpace(key[0]) && !IsSpace(key[1])
    requires key[0] !in {'i', 'm', 's', 'r'} && key[1] !in {'u', 'l'}
    ensures !StanzaHead(Setting(key, value)) && !Blank(Setting(key, value))
  {
    var rest := key + (" " + value);
    SpaceFirst(rest);
    SpaceFirst([' '] + rest);
    SpaceFirst([' '] + ([' '] + rest));
    SpaceFirst([' '] + ([' '] + ([' '] + rest)));
    assert Setting(key, value) == [' '] + ([' '] + ([' '] + ([' '] + rest)));
    var w := Words(rest)[0];
    assert w == rest[..WordLen(rest)];
    assert w[0] == key[0];
    assert w != [] && (|w| == 1 || w[1] == key[1]);
    NotHeadWord(w);
  }

  lemma NotHeadWord(w: string)
    requires w != [] && w[0] !in {'i', 'm', 's', 'r'} && (|w| == 1 || w[1] !in {'u', 'l'})
    ensures !HeadWord(w)
  {
  }

  lemma DnsIsBody(net: HostNet)
    ensures BodyLines(DnsLines(net))
  {
    SettingNotHead("dns-nameservers", Join(net.dns));
    SettingNotHead("dns-search", Join(net.search));
  }

  lemma AddressIsBody(net: HostNet)
    ensures BodyLines(AddressLines(net))
  {
    DnsIsBody(net);
    SettingNotHead("bridge_hw", net.mac);
    SettingNotHead("address", net.address);
    SettingNotHead("gateway", net.gateway);
  }

  lemma PortIsBody(net: HostNet)
    ensures BodyLines(PortLines(net))
  {
    SettingNotHead("bridge_ports", net.nic);
    TreeIsBody();
    BodyThree(Setting("bridge_ports", net.nic), Setting("bridge_stp", "off"), Setting("bridge_fd", "0"));
  }

  lemma TreeIsBody()
    ensures !StanzaHead(Setting("bridge_stp", "off")) && !Blank(Setting("bridge_stp", "off"))
    ensures !StanzaHead(Setting("bridge_fd", "0")) && !Blank(Setting("bridge_fd", "0"))
  {
    SettingNotHead("bridge_stp", "off");
    SettingNotHead("bridge_fd", "0");
  }

  lemma BodyThree(a: string, b: string, c: string)
    requires !StanzaHead(a) && !Blank(a) && !StanzaHead(b) && !Blank(b) && !StanzaHead(c) && !Blank(c)
    ensures BodyLines([a, b, c])
  {
  }

  lemma BodyConcat(a: seq<string>, b: seq<string>)
    requires BodyLines(a) && BodyLines(b)
    ensures BodyLines(a + b)
  {
  }

  lemma BodyIsBody(net: HostNet)
    ensures BodyLines(BridgeBody(net))
  {
    AddressIsBody(net);
    PortIsBody(net);
    BodyConcat(AddressLines(net), PortLines(net));
  }

  lemma {:induction false} AppendBody(lines: seq<string>, body: seq<string>, nic: string, name: string)
    requires BodyLines(body)
    requires Switched(lines, nic) && !InStanzaOf(lines, nic)
    ensures Switched(lines + body, nic) && !InStanzaOf(lines + body, nic)
    ensures Stanzas(lines + body, name) == Stanzas(lines, name)
  {
    if body == [] {
      assert lines + body == lines;
    } else {
      var init, line := body[..|body| - 1], body[|body| - 1];
      AppendBody(lines, init, nic, name);
      assert lines + body == (lines + init) + [line];
      AppendBodyLine(lines + init, line, nic, name);
    }
  }

  lemma AppendBodyLine(lines: seq<string>, line: string, nic: string, name: string)
    requires !StanzaHead(line) && Switched(lines, nic) && !InStanzaOf(lines, nic)
    ensures Switched(lines + [line], nic) && !InStanzaOf(lines + [line], nic)
    ensures Stanzas(lines + [line], name) == Stanzas(lines, name)
  {
    Last(lines, line, nic);
    SwitchedAppend(lines, line, nic);
    HeadsAreHeads(line, name);
    assert (lines + [line])[..|lines|] == lines;
  }

  /**
   The rendered file: the NIC is switched to bodiless `inet manual` stanzas, as many as it had `inet` stanzas, the
   bridge has one stanza more than before; the text before it is the rewritten text without its trailing empty lines.
   */
  lemma RenderSwitches(lines: seq<string>, net: HostNet, bridge: string)
    requires IsWord(net.nic) && IsWord(bridge) && bridge != net.nic
    ensures Switched(Render(lines, net, bridge), net.nic)
    ensures Stanzas(Render(lines, net, bridge), bridge) == Stanzas(lines, bridge) + 1
    ensures Stanzas(Render(lines, net, bridge), net.nic) == InetHeads(lines, net.nic)
    ensures !InStanzaOf(Render(lines, net, bridge), net.nic)
  {
    RewriteStanzas(lines, net.nic, bridge);
    HeadsRewritten(lines, net.nic);
    RenderCounts(lines, net, bridge, bridge);
    RenderCounts(lines, net, bridge, net.nic);
  }

  lemma RenderCounts(lines: seq<string>, net: HostNet, bridge: string, name: string)
    requires IsWord(net.nic) && IsWord(bridge) && bridge != net.nic
    requires name in {bridge, net.nic}
    ensures Stanzas(Render(lines, net, bridge), name) ==
            Stanzas(Rewrite(lines, net.nic), name) + if name == bridge then 1 else 0
    ensures Switched(Render(lines, net, bridge), net.nic) && !InStanzaOf(Render(lines, net, bridge), net.nic)
  {
    var nic := net.nic;
    var kept := StripEmpty(Rewrite(lines, nic));
    RewriteSwitches(lines, nic);
    StripEmptyKeeps(Rewrite(lines, nic), nic, name);
    var auto, head := "auto " + bridge, BridgeHead(net, bridge);
    BridgeHeads(net, bridge);
    var c := kept + [""] + [auto] + [head];
    AppendLine(kept, "", nic, name);
    AppendLine(kept + [""], auto, nic, name);
    AppendLine(kept + [""] + [auto], head, nic, name);
    BodyIsBody(net);
    AppendBody(c, BridgeBody(net), nic, name);
    AppendStanza(kept, "", auto, head, BridgeBody(net));
  }

  lemma AppendStanza<T>(x: seq<T>, a: T, b: T, c: T, body: seq<T>)
    ensures x + ([a, b] + [c] + body) == x + [a] + [b] + [c] + body
  {
  }

  lemma BridgeHeads(net: HostNet, bridge: string)
    requires IsWord(bridge)
    ensures Blank("")
    ensures StanzaHead("auto " + bridge) && !IfaceHead("auto " + bridge, net.nic) &&
            !IfaceHead("auto " + bridge, bridge)
    ensures StanzaHead(BridgeHead(net, bridge)) && IfaceHead(BridgeHead(net, bridge), bridge)
    ensures bridge != net.nic ==> !IfaceHead(BridgeHead(net, bridge), net.nic)
  {
    FirstWord("auto", " " + bridge);
    assert "auto " + bridge == "auto" + (" " + bridge);
    WordsOfJoin(["iface", bridge, "inet", if net.dhcp then "dhcp" else "static"]);
  }

  lemma AppendLine(lines: seq<string>, line: string, nic: string, name: string)
    requires Switched(lines, nic)
    requires if StanzaHead(line) then !IfaceHead(line, nic) else Blank(line)
    ensures Switched(lines + [line], nic)
    ensures StanzaHead(line) ==> !InStanzaOf(lines + [line], nic)
    ensures Stanzas(lines + [line], name) == Stanzas(lines, name) + (if IfaceHead(line, name) then 1 else 0)
  {
    Last(lines, line, nic);
    SwitchedAppend(lines, line, nic);
    assert (lines + [line])[..|lines|] == lines;
  }

  // ----- what the bridge's stanza says -----

  function WordLines(lines: seq<string>): seq<seq<string>> {
    seq(|lines|, i requires 0 <= i < |lines| => Words(lines[i]))
  }

  /** The settings of the bridge, each a keyword and its values: the NIC as its port, and the host's own addressing. */
  function Settings(net: HostNet): seq<seq<string>> {
    (if net.dhcp then [["bridge_hw", net.mac]]
     else ([["address", net.address]] + [["gateway", net.gateway]])
          + ((if net.dns == [] then [] else [["dns-nameservers"] + net.dns])
             + (if net.search == [] then [] else [["dns-search"] + net.search])))
    + PortKeys(net.nic)
  }

  /** What is written into the stanza are words. */
  predicate WordsOnly(net: HostNet) {
    IsWord(net.nic) && IsWord(net.mac) && IsWord(net.address) && IsWord(net.gateway) && AllWords(net.dns) &&
      AllWords(net.search)
  }

  lemma {:induction false} SpacesFirst(s: string, n: nat)
    ensures Words(seq(n, _ => ' ') + s) == Words(s)
    decreases n
  {
    var t := seq(n, _ => ' ') + s;
    if n == 0 { assert t == s; } else {
      assert t[1..] == seq(n - 1, _ => ' ') + s;
      SpacesFirst(s, n - 1);
    }
  }

  lemma SettingWords(key: string, value: string)
    requires IsWord(key)
    ensures Words(Setting(key, value)) == [key] + Words(value)
  {
    var rest := key + (" " + value);
    assert INDENT == seq(4, _ => ' ');
    SpacesFirst(rest, 4);
    FirstWord(key, " " + value);
    assert (" " + value)[1..] == value;
  }

  lemma OneWord(w: string)
    requires IsWord(w)
    ensures Words(w) == [w]
  {
    FirstWord(w, "");
    assert w + "" == w;
  }

  lemma SettingPair(key: string, value: string)
    requires IsWord(key) && IsWord(value)
    ensures WordLines([Setting(key, value)]) == [[key, value]]
  {
    SettingWords(key, value);
    OneWord(value);
    assert [key] + [value] == [key, value];
    assert WordLines([Setting(key, value)])[0] == [key, value];
  }

  lemma PortKey(nic: string)
    requires IsWord(nic)
    ensures WordLines([Setting("bridge_ports", nic)]) == [["bridge_ports", nic]]
  {
    SettingPair("bridge_ports", nic);
  }

  lemma StpKey()
    ensures WordLines([Setting("bridge_stp", "off")]) == [["bridge_stp", "off"]]
  {
    SettingPair("bridge_stp", "off");
  }

  lemma FdKey()
    ensures WordLines([Setting("bridge_fd", "0")]) == [["bridge_fd", "0"]]
  {
    SettingPair("bridge_fd", "0");
  }

  lemma ThreeLines(a: string, b: string, c: string)
    ensures WordLines([a, b, c]) == WordLines([a]) + WordLines([b]) + WordLines([c])
  {
  }

  lemma TwoLines(a: string, b: string)
    ensures WordLines([a, b]) == WordLines([a]) + WordLines([b])
  {
  }

  function PortKeys(nic: string): seq<seq<string>> {
    [["bridge_ports", nic]] + [["bridge_stp", "off"]] + [["bridge_fd", "0"]]
  }

  lemma PortSettings(net: HostNet)
    requires IsWord(net.nic)
    ensures WordLines(PortLines(net)) == PortKeys(net.nic)
  {
    PortKey(net.nic);
    StpKey();
    FdKey();
    ThreeLines(Setting("bridge_ports", net.nic), Setting("bridge_stp", "off"), Setting("bridge_fd", "0"));
  }

  lemma DnsSettings(net: HostNet)
    requires WordsOnly(net)
    ensures WordLines(DnsLines(net)) ==
            (if net.dns == [] then [] else [["dns-nameservers"] + net.dns])
            + (if net.search == [] then [] else [["dns-search"] + net.search])
  {
    SettingWords("dns-nameservers", Join(net.dns));
    SettingWords("dns-search", Join(net.search));
    WordsOfJoin(net.dns);
    WordsOfJoin(net.search);
  }

  lemma HwKey(mac: string)
    requires IsWord(mac)
    ensures WordLines([Setting("bridge_hw", mac)]) == [["bridge_hw", mac]]
  {
    SettingPair("bridge_hw", mac);
  }

  lemma StaticKeys(address: string, gateway: string)
    requires IsWord(address) && IsWord(gateway)
    ensures WordLines([Setting("address", address), Setting("gateway", gateway)]) ==
            [["address", address]] + [["gateway", gateway]]
  {
    SettingPair("address", address);
    SettingPair("gateway", gateway);
    TwoLines(Setting("address", address), Setting("gateway", gateway));
  }

  lemma AddressSettings(net: HostNet)
    requires WordsOnly(net)
    ensures WordLines(AddressLines(net)) + PortKeys(net.nic) == Settings(net)
  {
    if net.dhcp {
      HwKey(net.mac);
    } else {
      DnsSettings(net);
      StaticKeys(net.address, net.gateway);
      WordLinesConcat([Setting("address", net.address), Setting("gateway", net.gateway)], DnsLines(net));
    }
  }

  lemma WordLinesConcat(a: seq<string>, b: seq<string>)
    ensures WordLines(a + b) == WordLines(a) + WordLines(b)
  {
  }

  /** The file ends with the bridge's stanza: its head, and the settings, with no other stanza among them. */
  lemma BridgeSays(lines: seq<string>, net: HostNet, bridge: string)
    requires WordsOnly(net) && IsWord(bridge)
    ensures var out, n := Render(lines, net, bridge), |Settings(net)| + 1;
            && |out| > n
            && Words(out[|out| - n - 1]) == ["auto", bridge]
            && Words(out[|out| - n]) == ["iface", bridge, "inet", if net.dhcp then "dhcp" else "static"]
            && WordLines(out[|out| - n + 1..]) == Settings(net)
            && forall i :: |out| - n < i < |out| ==> !StanzaHead(out[i])
  {
    var body := BridgeBody(net);
    PortSettings(net);
    AddressSettings(net);
    WordLinesConcat(AddressLines(net), PortLines(net));
    BodyIsBody(net);
    HeadSays(net, bridge);
    AutoSays(bridge);
    assert |WordLines(body)| == |body|;
    var kept := StripEmpty(Rewrite(lines, net.nic));
    StanzaParts(kept, "", "auto " + bridge, BridgeHead(net, bridge), body, Render(lines, net, bridge));
  }

  lemma HeadSays(net: HostNet, bridge: string)
    requires IsWord(bridge)
    ensures Words(BridgeHead(net, bridge)) == ["iface", bridge, "inet", if net.dhcp then "dhcp" else "static"]
  {
    WordsOfJoin(["iface", bridge, "inet", if net.dhcp then "dhcp" else "static"]);
  }

  lemma AutoSays(bridge: string)
    requires IsWord(bridge)
    ensures Words("auto " + bridge) == ["auto", bridge]
  {
    var w := "auto";
    TwoWords(w, bridge);
    assert "auto " + bridge == w + (" " + bridge);
  }

  lemma TwoWords(a: string, b: string)
    requires IsWord(a) && IsWord(b)
    ensures Words(a + (" " + b)) == [a, b]
  {
    OneWord(a);
    WordsSnoc(a, b);
  }

  lemma StanzaParts<T>(kept: seq<T>, blank: T, auto: T, head: T, body: seq<T>, out: seq<T>)
    requires out == kept + ([blank, auto] + [head] + body)
    ensures |out| >= |body| + 3 && out[|out| - |body|..] == body
    ensures out[|out| - |body| - 1] == head && out[|out| - |body| - 2] == auto
    ensures forall i :: |out| - |body| <= i < |out| ==> out[i] == body[i - (|out| - |body|)]
  {
  }
}
