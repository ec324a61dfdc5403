/**
 DNAT port forwarding: two dedicated iptables chains, flushed and rebuilt from a port map on every run.

 The filter rules a run never touches are Other rules, whose effect on a packet is left open.
 */
module PortForward {
  import opened Text
  import opened Decimal
  import opened Wrappers

  datatype Proto = Tcp | Udp

  // ----- port specs -----

  datatype Spec = Spec(outer: nat, inner: nat, proto: Proto)

  /** One to five digits and a separator: the number, and what follows. */
  function TakePort(s: string, separator: char): Option<(nat, string)> {
    var n := LeadingDigits(s);
    if 1 <= n <= 5 && n < |s| && s[n] == separator then Some((Read(s[..n]), s[n + 1..])) else None
  }

  function ParseProto(s: string): Option<Proto> {
    if Lower(s) == "tcp" then Some(Tcp) else if Lower(s) == "udp" then Some(Udp) else None
  }

  /** parse_port_spec(): "<external>:<internal>/<protocol>", whitespace around it ignored. */
  function ParsePortSpec(text: string): Option<Spec> {
    var ws := Words(text);
    if |ws| != 1 then None
    else match TakePort(ws[0], ':')
      case None => None
      case Some((outer, rest)) => match TakePort(rest, '/')
        case None => None
        case Some((inner, tail)) => match ParseProto(tail)
          case None => None
          case Some(proto) => Some(Spec(outer, inner, proto))
  }

  function ShowSpec(spec: Spec): string {
    Show(spec.outer) + (":" + (Show(spec.inner) + ("/" + ShowProto(spec.proto))))
  }

  function ShowProto(proto: Proto): string {
    if proto.Tcp? then "tcp" else "udp"
  }

  lemma ProtoShown(proto: Proto)
    ensures ParseProto(ShowProto(proto)) == Some(proto) && IsWord(ShowProto(proto))
  {
    assert Lower("tcp") == "tcp";
    assert Lower("udp") == "udp" != "tcp";
  }

  lemma TakeShown(n: nat, separator: char, rest: string)
    requires n < 100000 && !IsDigit(separator)
    ensures TakePort(Show(n) + ([separator] + rest), separator) == Some((n, rest))
  {
    var s := Show(n) + ([separator] + rest);
    assert Pow10(5) == 100000 by { assert Pow10(4) == 10 * (10 * (10 * (10 * Pow10(0)))); }
    ShowLength(n, 100000, 5);
    ReadShow(n);
    LeadingShown(Show(n), [separator] + rest);
    assert s[..|Show(n)|] == Show(n);
    assert s[|Show(n)|] == separator;
    assert s[|Show(n)| + 1..] == rest;
  }

  lemma {:induction false} LeadingShown(digits: string, rest: string)
    requires AllDigits(digits) && rest != [] && !IsDigit(rest[0])
    ensures LeadingDigits(digits + rest) == |digits|
  {
    if digits == [] {
      assert digits + rest == rest;
    } else {
      LeadingShown(digits[1..], rest);
      assert (digits + rest)[1..] == digits[1..] + rest;
    }
  }

  lemma DigitsAreWord(n: nat)
    ensures IsWord(Show(n))
  {
  }

  lemma WordConcat(a: string, b: string)
    requires IsWord(a) && IsWord(b)
    ensures IsWord(a + b)
  {
  }

  /** Every external and internal number of at most five digits is read back from the spec that names it. */
  lemma ParseShown(spec: Spec)
    requires spec.outer < 100000 && spec.inner < 100000
    ensures ParsePortSpec(ShowSpec(spec)) == Some(spec)
  {
    var p := ShowProto(spec.proto);
    ProtoShown(spec.proto);
    var right := Show(spec.inner) + (['/'] + p);
    var s := Show(spec.outer) + ([':'] + right);
    TakeShown(spec.inner, '/', p);
    TakeShown(spec.outer, ':', right);
    ShownIsWord(spec);
    FirstWord(s, "");
    assert s + "" == s;
  }

  lemma ShownIsWord(spec: Spec)
    ensures IsWord(ShowSpec(spec))
  {
    var p := ShowProto(spec.proto);
    ProtoShown(spec.proto);
    DigitsAreWord(spec.outer);
    DigitsAreWord(spec.inner);
    WordConcat("/", p);
    WordConcat(Show(spec.inner), "/" + p);
    WordConcat(":", Show(spec.inner) + ("/" + p));
    WordConcat(Show(spec.outer), ":" + (Show(spec.inner) + ("/" + p)));
  }

  /** A word that is a spec: one to five digits, a colon, one to five digits, a slash and a protocol in any case. */
  predicate Names(word: string, outer: string, inner: string, proto: string, spec: Spec) {
    && word == outer + (":" + (inner + ("/" + proto)))
    && AllDigits(outer) && 1 <= |outer| <= 5 && AllDigits(inner) && 1 <= |inner| <= 5
    && Lower(proto) == (if spec.proto.Tcp? then "tcp" else "udp")
    && spec.outer == Read(outer) && spec.inner == Read(inner)
  }

  lemma {:induction false} TakeExactly(s: string, separator: char, digits: string, rest: string)
    requires !IsDigit(separator) && AllDigits(digits)
    requires s == digits + ([separator] + rest)
    ensures TakePort(s, separator) == if 1 <= |digits| <= 5 then Some((Read(digits), rest)) else None
  {
    LeadingShown(digits, [separator] + rest);
    assert s[..|digits|] == digits && s[|digits|] == separator && s[|digits| + 1..] == rest;
  }

  lemma {:induction false} TakenFrom(s: string, separator: char) returns (digits: string)
    requires TakePort(s, separator).Some?
    ensures var (n, rest) := TakePort(s, separator).value;
            && s == digits + ([separator] + rest) && AllDigits(digits) && 1 <= |digits| <= 5 && n == Read(digits)
  {
    digits := s[..LeadingDigits(s)];
    assert s == digits + ([s[|digits|]] + s[|digits| + 1..]);
  }

  /** A text whose one word is a spec is read as it. */
  lemma {:induction false} SpecIsRead(text: string, word: string, outer: string, inner: string, proto: string,
                                      spec: Spec)
    requires Words(text) == [word] && Names(word, outer, inner, proto, spec)
    ensures ParsePortSpec(text) == Some(spec)
  {
    var rest := inner + ("/" + proto);
    assert ":" == [':'] && "/" == ['/'];
    TakeExactly(word, ':', outer, rest);
    TakeExactly(rest, '/', inner, proto);
    ProtoIsRead(proto, spec.proto);
    PartsAreRead(text, word, rest, spec.outer, spec.inner, proto, spec.proto);
  }

  lemma {:induction false} ProtoIsRead(s: string, proto: Proto)
    requires Lower(s) == if proto.Tcp? then "tcp" else "udp"
    ensures ParseProto(s) == Some(proto)
  {
    assert "tcp"[0] != "udp"[0];
  }

  lemma {:induction false} PartsAreRead(text: string, word: string, rest: string, outer: nat, inner: nat,
                                        tail: string, proto: Proto)
    requires Words(text) == [word] && TakePort(word, ':') == Some((outer, rest))
    requires TakePort(rest, '/') == Some((inner, tail)) && ParseProto(tail) == Some(proto)
    ensures ParsePortSpec(text) == Some(Spec(outer, inner, proto))
  {
  }

  /** And every text that is read is such a text. */
  lemma {:induction false} ReadIsSpec(text: string)
    returns (word: string, outer: string, inner: string, proto: string)
    requires ParsePortSpec(text).Some?
    ensures Words(text) == [word] && Names(word, outer, inner, proto, ParsePortSpec(text).value)
  {
    word := Words(text)[0];
    outer := TakenFrom(word, ':');
    var rest := TakePort(word, ':').value.1;
    inner := TakenFrom(rest, '/');
    proto := TakePort(rest, '/').value.1;
  }

  // ----- rules, chains and packets -----

  datatype Rule =
    | Dnat(proto: Proto, dport: nat, toIp: string, toPort: nat)
    | Accept(proto: Proto, dst: string, dport: nat)
    | Jump(chain: ChainId)
    | Other(id: nat)

  datatype ChainId = ChainId(table: string, name: string)

  type Chains = map<ChainId, seq<Rule>>

  const PREROUTING := ChainId("nat", "PREROUTING")
  const FORWARD := ChainId("filter", "FORWARD")
  const CHAIN_DNAT := ChainId("nat", "LAB_PORTFWD")
  const CHAIN_FWD := ChainId("filter", "LAB_PORTFWD_FWD")

  /** One forwarded port of the map. */
  datatype Entry = Entry(ip: string, spec: Spec)

  /** port_map: target address and specs, in the order of the mapping. */
  type PortMap = seq<(string, seq<string>)>

  function SpecEntries(ip: string, specs: seq<string>): Option<seq<Entry>> {
    if specs == [] then Some([])
    else match SpecEntries(ip, specs[..|specs| - 1])
      case None => None
      case Some(es) => match ParsePortSpec(specs[|specs| - 1])
        case None => None
        case Some(spec) => Some(es + [Entry(ip, spec)])
  }

  /** The entries of a port map in order, or None when a spec is malformed. */
  function Entries(portMap: PortMap): Option<seq<Entry>> {
    if portMap == [] then Some([])
    else match Entries(portMap[..|portMap| - 1])
      case None => None
      case Some(es) => match SpecEntries(portMap[|portMap| - 1].0, portMap[|portMap| - 1].1)
        case None => None
        case Some(more) => Some(es + more)
  }

  function DnatRule(e: Entry): Rule {
    Dnat(e.spec.proto, e.spec.outer, e.ip, e.spec.inner)
  }

  function ForwardRule(e: Entry): Rule {
    Accept(e.spec.proto, e.ip, e.spec.inner)
  }

  function DnatRules(es: seq<Entry>): seq<Rule> {
    seq(|es|, i requires 0 <= i < |es| => DnatRule(es[i]))
  }

  function ForwardRules(es: seq<Entry>): seq<Rule> {
    seq(|es|, i requires 0 <= i < |es| => ForwardRule(es[i]))
  }

  /** An `iptables -A` command. */
  datatype Append = Append(chain: ChainId, rule: Rule)

  function Commands(es: seq<Entry>): seq<Append> {
    if es == [] then []
    else
      var e := es[|es| - 1];
      Commands(es[..|es| - 1]) + [Append(CHAIN_DNAT, DnatRule(e)), Append(CHAIN_FWD, ForwardRule(e))]
  }

  /** The commands of a whole port map; None when a spec is malformed. */
  function RuleList(portMap: PortMap): Option<seq<Append>> {
    if Entries(portMap).None? then None else Some(Commands(Entries(portMap).value))
  }

  /** build_dnat_rules(), the inner loop: the commands of one target, or None at its first malformed spec. */
  method TargetRules(ip: string, specs: seq<string>) returns (rules: Option<seq<Append>>)
    ensures SpecEntries(ip, specs).None? ==> rules == None
    ensures SpecEntries(ip, specs).Some? ==> rules == Some(Commands(SpecEntries(ip, specs).value))
  {
    var out: seq<Append> := [];
    ghost var added: seq<Entry> := [];
    for j := 0 to |specs|
      invariant SpecEntries(ip, specs[..j]) == Some(added) && out == Commands(added)
    {
      assert specs[..j + 1][..j] == specs[..j];
      var parsed := ParsePortSpec(specs[j]);
      if parsed.None? {
        BadSpec(ip, specs, j + 1);
        return None;
      }
      var e := Entry(ip, parsed.value);
      out := out + [Append(CHAIN_DNAT, DnatRule(e)), Append(CHAIN_FWD, ForwardRule(e))];
      assert (added + [e])[..|added|] == added;
      added := added + [e];
    }
    assert specs[..|specs|] == specs;
    rules := Some(out);
  }

  /** build_dnat_rules(); None when it dies on a malformed spec. */
  method BuildDnatRules(portMap: PortMap) returns (rules: Option<seq<Append>>)
    ensures rules == RuleList(portMap)
  {
    var out: seq<Append> := [];
    ghost var es: seq<Entry> := [];
    for i := 0 to |portMap|
      invariant Entries(portMap[..i]) == Some(es) && out == Commands(es)
    {
      assert portMap[..i + 1][..i] == portMap[..i];
      var target := TargetRules(portMap[i].0, portMap[i].1);
      if target.None? {
        BadTarget(portMap, i + 1);
        return None;
      }
      ghost var added := SpecEntries(portMap[i].0, portMap[i].1).value;
      CommandsConcat(es, added);
      out := out + target.value;
      es := es + added;
    }
    assert portMap[..|portMap|] == portMap;
    rules := Some(out);
  }

  lemma {:induction false} CommandsConcat(a: seq<Entry>, b: seq<Entry>)
    ensures Commands(a + b) == Commands(a) + Commands(b)
  {
    if b == [] {
      assert a + b == a;
    } else {
      assert (a + b)[..|a + b| - 1] == a + b[..|b| - 1];
      CommandsConcat(a, b[..|b| - 1]);
    }
  }

  lemma {:induction false} BadSpec(ip: string, specs: seq<string>, n: nat)
    requires n <= |specs| && SpecEntries(ip, specs[..n]) == None
    ensures SpecEntries(ip, specs) == None
    decreases |specs|
  {
    if n < |specs| {
      assert specs[..|specs| - 1][..n] == specs[..n];
      BadSpec(ip, specs[..|specs| - 1], n);
    } else {
      assert specs[..n] == specs;
    }
  }

  lemma {:induction false} BadTarget(portMap: PortMap, n: nat)
    requires n <= |portMap| && Entries(portMap[..n]) == None
    ensures Entries(portMap) == None
    decreases |portMap|
  {
    if n < |portMap| {
      assert portMap[..|portMap| - 1][..n] == portMap[..n];
      BadTarget(portMap[..|portMap| - 1], n);
    } else {
      assert portMap[..n] == portMap;
    }
  }

  // ----- the rebuild -----

  /** The chain exists and its hook jumps to it; the jump goes in front when it was missing. */
  function Ensured(chains: Chains, chain: ChainId, hook: ChainId): Chains
    requires hook in chains && hook != chain
  {
    var created := if chain in chains then chains else chains[chain := []];
    if Jump(chain) in created[hook] then created else created[hook := [Jump(chain)] + created[hook]]
  }

  predicate BuiltIn(chains: Chains) {
    PREROUTING in chains && FORWARD in chains
  }

  function Prepared(chains: Chains): Chains
    requires BuiltIn(chains)
  {
    Ensured(Ensured(chains, CHAIN_DNAT, PREROUTING), CHAIN_FWD, FORWARD)
  }

  function Flushed(chains: Chains): Chains
    requires BuiltIn(chains)
  {
    Prepared(chains)[CHAIN_DNAT := []][CHAIN_FWD := []]
  }

  function Rebuilt(chains: Chains, es: seq<Entry>): Chains
    requires BuiltIn(chains)
  {
    Flushed(chains)[CHAIN_DNAT := DnatRules(es)][CHAIN_FWD := ForwardRules(es)]
  }

  function Appended(chains: Chains, commands: seq<Append>): Chains {
    if commands == [] then chains
    else
      var c := commands[|commands| - 1];
      var rest := Appended(chains, commands[..|commands| - 1]);
      if c.chain in rest then rest[c.chain := rest[c.chain] + [c.rule]] else rest
  }

  lemma {:induction false} AppendedCommands(chains: Chains, es: seq<Entry>)
    requires BuiltIn(chains)
    ensures Appended(Flushed(chains), Commands(es)) == Rebuilt(chains, es)
  {
    if es == [] {
      assert DnatRules(es) == [] && ForwardRules(es) == [];
    } else {
      var init, e := es[..|es| - 1], es[|es| - 1];
      AppendedCommands(chains, init);
      var all := Commands(es);
      assert all[..|all| - 1][..|all| - 2] == Commands(init);
      RulesSnoc(es);
    }
  }

  lemma RulesSnoc(es: seq<Entry>)
    requires es != []
    ensures DnatRules(es) == DnatRules(es[..|es| - 1]) + [DnatRule(es[|es| - 1])]
    ensures ForwardRules(es) == ForwardRules(es[..|es| - 1]) + [ForwardRule(es[|es| - 1])]
  {
  }

  // ----- running it -----

  datatype Outcome = Applied | BadPortSpec | CommandFailed

  class Iptables {
    var chains: Chains

    constructor (chains: Chains)
      ensures this.chains == chains
    {
      this.chains := chains;
    }

    /** _ensure_chain(): each command may fail, and then changes nothing. */
    method EnsureChain(chain: ChainId, hook: ChainId) returns (ok: bool)
      requires BuiltIn(chains) && hook in chains && hook != chain
      modifies this
      ensures ok ==> chains == Ensured(old(chains), chain, hook)
      ensures !ok ==> chains == old(chains) || (chain !in old(chains) && chains == old(chains)[chain := []])
    {
      if chain !in chains {
        var created: bool := *;
        if !created { return false; }
        chains := chains[chain := []];
      }
      if Jump(chain) !in chains[hook] {
        var hooked: bool := *;
        if !hooked { return false; }
        chains := chains[hook := [Jump(chain)] + chains[hook]];
      }
      return true;
    }

    /** Both chains ensured and flushed; a failing command leaves the steps before it done. */
    method Prepare() returns (ok: bool)
      requires BuiltIn(chains)
      modifies this
      ensures ok ==> chains == Flushed(old(chains))
      ensures !ok ==> Preserves(old(chains), chains)
    {
      ok := EnsureChain(CHAIN_DNAT, PREROUTING);
      if !ok { return; }
      ok := EnsureChain(CHAIN_FWD, FORWARD);
      if !ok { return; }
      ok := *;
      if !ok { return; }
      chains := chains[CHAIN_DNAT := []];
      ok := *;
      if !ok { return; }
      chains := chains[CHAIN_FWD := []];
    }

    /**
     apply_forwarded_ports(). A malformed spec is only found after the flush, so such a run leaves both dedicated chains
     empty; a failing append leaves the rules before it in place.
     */
    method ApplyForwardedPorts(portMap: PortMap) returns (outcome: Outcome)
      requires BuiltIn(chains)
      modifies this
      ensures outcome == Applied ==> Entries(portMap).Some? && chains == Rebuilt(old(chains), Entries(portMap).value)
      ensures outcome == BadPortSpec ==> Entries(portMap) == None && chains == Flushed(old(chains))
      ensures Entries(portMap) == None ==> outcome != Applied
      ensures outcome == CommandFailed ==> Preserves(old(chains), chains) || Partial(old(chains), chains, portMap)
    {
      var ok := Prepare();
      if !ok { return CommandFailed; }
      var rules := BuildDnatRules(portMap);
      if rules.None? { return BadPortSpec; }
      ghost var flushed := chains;
      for i := 0 to |rules.value|
        invariant chains == Appended(flushed, rules.value[..i])
      {
        ok := *;
        if !ok { return CommandFailed; }
        var c := rules.value[i];
        assert rules.value[..i + 1][..i] == rules.value[..i];
        if c.chain in chains {
          chains := chains[c.chain := chains[c.chain] + [c.rule]];
        }
      }
      assert rules.value[..|rules.value|] == rules.value;
      AppendedCommands(old(chains), Entries(portMap).value);
      outcome := Applied;
    }
  }

  /** The chains of a run that stopped at an append: the first n rules are in. */
  predicate Partial(before: Chains, after: Chains, portMap: PortMap)
    requires BuiltIn(before)
  {
    Entries(portMap).Some? &&
    var commands := Commands(Entries(portMap).value);
    exists n :: 0 <= n <= |commands| && after == Appended(Flushed(before), commands[..n])
  }

  // ----- what a run preserves -----

  predicate HookKept(before: seq<Rule>, after: seq<Rule>, chain: ChainId) {
    after == before || (Jump(chain) !in before && after == [Jump(chain)] + before)
  }

  /** Every other chain keeps its rules, apart from one jump put in front of a hook that lacked it. */
  predicate Preserves(before: Chains, after: Chains) {
    && BuiltIn(before) && BuiltIn(after)
    && after.Keys - {CHAIN_DNAT, CHAIN_FWD} == before.Keys - {CHAIN_DNAT, CHAIN_FWD}
    && HookKept(before[PREROUTING], after[PREROUTING], CHAIN_DNAT)
    && HookKept(before[FORWARD], after[FORWARD], CHAIN_FWD)
    && forall c :: c in before && c !in {CHAIN_DNAT, CHAIN_FWD, PREROUTING, FORWARD} ==>
       c in after && after[c] == before[c]
  }

  lemma RebuildPreserves(chains: Chains, es: seq<Entry>)
    requires BuiltIn(chains)
    ensures Preserves(chains, Rebuilt(chains, es))
    ensures Jump(CHAIN_DNAT) in Rebuilt(chains, es)[PREROUTING] && Jump(CHAIN_FWD) in Rebuilt(chains, es)[FORWARD]
  {
    var after := Rebuilt(chains, es);
    assert after.Keys == chains.Keys + {CHAIN_DNAT, CHAIN_FWD};
    assert ([Jump(CHAIN_DNAT)] + chains[PREROUTING])[0] == Jump(CHAIN_DNAT);
    assert ([Jump(CHAIN_FWD)] + chains[FORWARD])[0] == Jump(CHAIN_FWD);
  }

  lemma {:induction false} CommandChains(es: seq<Entry>)
    ensures forall c :: c in Commands(es) ==> c.chain in {CHAIN_DNAT, CHAIN_FWD}
  {
    if es != [] { CommandChains(es[..|es| - 1]); }
  }

  lemma {:induction false} AppendsPreserve(before: Chains, chains: Chains, commands: seq<Append>)
    requires Preserves(before, chains)
    requires forall c :: c in commands ==> c.chain in {CHAIN_DNAT, CHAIN_FWD}
    ensures Preserves(before, Appended(chains, commands))
  {
    if commands != [] { AppendsPreserve(before, chains, commands[..|commands| - 1]); }
  }

  /** A run that stopped half-way touched no other chain either. */
  lemma PartialPreserves(before: Chains, after: Chains, portMap: PortMap)
    requires BuiltIn(before) && Partial(before, after, portMap)
    ensures Preserves(before, after)
  {
    var commands := Commands(Entries(portMap).value);
    var n :| 0 <= n <= |commands| && after == Appended(Flushed(before), commands[..n]);
    CommandChains(Entries(portMap).value);
    RebuildPreserves(before, []);
    assert DnatRules([]) == [] && ForwardRules([]) == [];
    assert Flushed(before) == Rebuilt(before, []);
    AppendsPreserve(before, Flushed(before), commands[..n]);
  }

  /** The last run decides: rebuilding after any earlier rebuild gives what rebuilding at once would have given. */
  lemma LastRebuildWins(chains: Chains, first: seq<Entry>, second: seq<Entry>)
    requires BuiltIn(chains)
    ensures BuiltIn(Rebuilt(chains, first))
    ensures Rebuilt(Rebuilt(chains, first), second) == Rebuilt(chains, second)
  {
    RebuildPreserves(chains, first);
    var once := Rebuilt(chains, first);
    assert Prepared(once) == once;
    var twice, direct := Rebuilt(once, second), Rebuilt(chains, second);
    assert twice.Keys == direct.Keys;
    forall c | c in direct ensures twice[c] == direct[c] {}
  }

  // ----- packets -----

  datatype Packet = Packet(proto: Proto, dst: string, dport: nat)

  /** What a dedicated chain does to a packet: the first DNAT rule that matches it. */
  function Translate(rules: seq<Rule>, p: Packet): Option<Packet> {
    if rules == [] then None
    else if rules[0].Dnat? && rules[0].proto == p.proto && rules[0].dport == p.dport then
      Some(Packet(p.proto, rules[0].toIp, rules[0].toPort))
    else Translate(rules[1..], p)
  }

  predicate Accepts(rules: seq<Rule>, p: Packet) {
    exists r :: r in rules && r.Accept? && r.proto == p.proto && r.dst == p.dst && r.dport == p.dport
  }

  predicate Wants(e: Entry, p: Packet) {
    e.spec.proto == p.proto && e.spec.outer == p.dport
  }

  /** The first entry of the map, in its order, that names the packet's protocol and port. */
  predicate FirstWanting(es: seq<Entry>, i: int, p: Packet) {
    0 <= i < |es| && Wants(es[i], p) && forall k :: 0 <= k < i ==> !Wants(es[k], p)
  }

  lemma {:induction false} TranslateFirst(es: seq<Entry>, p: Packet)
    ensures forall i :: FirstWanting(es, i, p) ==>
              Translate(DnatRules(es), p) == Some(Packet(p.proto, es[i].ip, es[i].spec.inner))
    ensures Translate(DnatRules(es), p) == None <==> forall i :: 0 <= i < |es| ==> !Wants(es[i], p)
  {
    if es != [] {
      TranslateFirst(es[1..], p);
      assert DnatRules(es)[1..] == DnatRules(es[1..]);
      if !Wants(es[0], p) {
        forall i | FirstWanting(es, i, p) ensures FirstWanting(es[1..], i - 1, p) {
          forall k | 0 <= k < i - 1 ensures !Wants(es[1..][k], p) {}
        }
        forall i | 0 <= i < |es[1..]| ensures es[1..][i] == es[i + 1] {}
      }
    }
  }

  /** Every packet the DNAT chain rewrites is let through by the forward chain, which lets nothing else through. */
  lemma RewrittenIsAccepted(es: seq<Entry>, p: Packet)
    ensures Translate(DnatRules(es), p).Some? ==> Accepts(ForwardRules(es), Translate(DnatRules(es), p).value)
    ensures Accepts(ForwardRules(es), p) <==>
            exists e :: e in es && e.ip == p.dst && e.spec.proto == p.proto && e.spec.inner == p.dport
  {
    TranslateFirst(es, p);
    if Translate(DnatRules(es), p).Some? {
      var i :| 0 <= i < |es| && Wants(es[i], p);
      var first := FirstOf(es, i, p);
      assert ForwardRules(es)[first] == ForwardRule(es[first]);
    }
    if r :| r in ForwardRules(es) && r.Accept? && r.proto == p.proto && r.dst == p.dst && r.dport == p.dport {
      var i :| 0 <= i < |es| && ForwardRules(es)[i] == r;
      assert es[i] in es;
    }
    if e :| e in es && e.ip == p.dst && e.spec.proto == p.proto && e.spec.inner == p.dport {
      var i :| 0 <= i < |es| && es[i] == e;
      assert ForwardRules(es)[i] == ForwardRule(e);
    }
  }

  lemma FirstOf(es: seq<Entry>, i: nat, p: Packet) returns (first: nat)
    requires i < |es| && Wants(es[i], p)
    ensures FirstWanting(es, first, p)
  {
    if k :| 0 <= k < i && Wants(es[k], p) {
      first := FirstOf(es, k, p);
    } else {
      first := i;
    }
  }

  /**
   The verdict of a list of rules on a packet: the packet it sends on, or None for no verdict, after which the rules of
   the calling chain go on. Other rules decide as `other` says; jumps are followed to this depth.
   */
  function Walk(chains: Chains, rules: seq<Rule>, p: Packet, other: (nat, Packet) -> Option<Packet>,
                depth: nat): Option<Packet>
    decreases depth, |rules|
  {
    if rules == [] then None
    else
      var verdict :=
        match rules[0]
        case Other(id) => other(id, p)
        case Jump(chain) =>
          if chain in chains && depth > 0 then Walk(chains, chains[chain], p, other, depth - 1) else None
        case _ => Translate([rules[0]], p);
      if verdict.Some? then verdict else Walk(chains, rules[1..], p, other, depth)
  }

  /** The jumps of these rules stay in the nat table, and lead neither to its hook nor to the dedicated chain. */
  predicate LeadsElsewhere(rules: seq<Rule>) {
    forall r :: r in rules && r.Jump? ==> r.chain.table == "nat" && r.chain !in {PREROUTING, CHAIN_DNAT}
  }

  /** No chain of the nat table leads to the dedicated one. */
  predicate Unhooked(chains: Chains) {
    forall c :: c in chains && c.table == "nat" && c != CHAIN_DNAT ==> LeadsElsewhere(chains[c])
  }

  /**
   When PREROUTING had no hook yet, the new one comes first: whatever its other rules do and wherever they jump, a
   packet some entry wants goes to the first such entry; and every other packet meets the old rules unchanged, unless
   some chain led to the dedicated one before.
   */
  lemma HookedFirst(chains: Chains, es: seq<Entry>, p: Packet, other: (nat, Packet) -> Option<Packet>, depth: nat)
    requires BuiltIn(chains) && Jump(CHAIN_DNAT) !in chains[PREROUTING] && depth > 0
    ensures forall i :: FirstWanting(es, i, p) ==>
              Walk(Rebuilt(chains, es), Rebuilt(chains, es)[PREROUTING], p, other, depth)
                == Some(Packet(p.proto, es[i].ip, es[i].spec.inner))
    ensures (forall i :: 0 <= i < |es| ==> !Wants(es[i], p)) && Unhooked(chains) ==>
              Walk(Rebuilt(chains, es), Rebuilt(chains, es)[PREROUTING], p, other, depth)
                == Walk(chains, chains[PREROUTING], p, other, depth)
  {
    var after := Rebuilt(chains, es);
    TranslateFirst(es, p);
    WalkDnat(after, DnatRules(es), p, other, depth - 1);
    var rules := chains[PREROUTING];
    assert after[PREROUTING] == [Jump(CHAIN_DNAT)] + rules && after[CHAIN_DNAT] == DnatRules(es);
    assert after[PREROUTING][1..] == rules;
    if Unhooked(chains) { WalkElsewhere(chains, after, rules, p, other, depth); }
  }

  lemma {:induction false} WalkDnat(chains: Chains, rules: seq<Rule>, p: Packet, other: (nat, Packet) -> Option<Packet>,
                                    depth: nat)
    requires forall r :: r in rules ==> r.Dnat?
    ensures Walk(chains, rules, p, other, depth) == Translate(rules, p)
    decreases |rules|
  {
    if rules != [] {
      assert rules[0] in rules;
      assert [rules[0]][1..] == [] && Translate([], p) == None;
      assert Translate([rules[0]], p).Some? ==> Translate([rules[0]], p) == Translate(rules, p);
      WalkDnat(chains, rules[1..], p, other, depth);
    }
  }

  lemma {:induction false} WalkElsewhere(before: Chains, after: Chains, rules: seq<Rule>, p: Packet,
                                         other: (nat, Packet) -> Option<Packet>, depth: nat)
    requires Unhooked(before) && LeadsElsewhere(rules)
    requires forall c: ChainId :: c.table == "nat" && c !in {PREROUTING, CHAIN_DNAT} ==>
               (c in after <==> c in before) && (c in before ==> after[c] == before[c])
    ensures Walk(after, rules, p, other, depth) == Walk(before, rules, p, other, depth)
    decreases depth, |rules|
  {
    if rules != [] {
      assert rules[0] in rules;
      if rules[0].Jump? && rules[0].chain in before && depth > 0 {
        WalkElsewhere(before, after, before[rules[0].chain], p, other, depth - 1);
      }
      WalkElsewhere(before, after, rules[1..], p, other, depth);
    }
  }
}
