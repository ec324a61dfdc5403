/**
 What each migration step leaves in a definition, key by key: which keys stay, which are gone, and what the written
 ones say. The conditions are those of the new schema versions, said here on the values themselves.
 */
module NewForms {
  import opened Decimal
  import opened Json
  import opened Migrations
  import opened SchemaMigration
  import opened SchemaValidate
  import opened Text
  import opened Wrappers

  // ----- values -----

  /** A value Python counts as false. */
  predicate Hollow(v: Value) {
    || v == Null || v == Bool(false) || v == Number(0) || v == Float(0.0) || v == Text("") || v == Array([])
    || v == Object(map[])
  }

  lemma TruthyMeans(v: Value)
    ensures Truthy(v) <==> !Hollow(v)
  {
  }

  /** The text contains the other one, somewhere. */
  ghost predicate Contains(s: string, part: string) {
    exists i :: 0 <= i <= |s| && part <= s[i..]
  }

  lemma {:induction false} HoldsMeans(s: string, part: string)
    ensures Holds(s, part) <==> Contains(s, part)
    decreases |s|
  {
    if Holds(s, part) {
      if part <= s {
        assert part <= s[0..];
      } else {
        HoldsMeans(s[1..], part);
        var i :| 0 <= i <= |s[1..]| && part <= s[1..][i..];
        assert s[1 + i..] == s[1..][i..];
      }
    }
    if Contains(s, part) {
      var i :| 0 <= i <= |s| && part <= s[i..];
      if i == 0 {
        assert s[0..] == s;
      } else {
        assert s[1..][i - 1..] == s[i..];
        HoldsMeans(s[1..], part);
      }
    }
  }

  /** A version of the edge channel: 20, two digits, a dot, anything. */
  predicate EdgeForm(s: string) {
    |s| >= 5 && s[..2] == "20" && AllDigits(s[2..4]) && s[4] == '.'
  }

  lemma EdgeMeans(s: string)
    ensures EdgeVersion(s) <==> EdgeForm(s)
  {
    if |s| >= 5 {
      assert s[..2] == [s[0], s[1]] && s[2..4] == [s[2], s[3]];
    }
  }

  // ----- keys that stay -----

  /** What the step of an add-on keeps of a mapping: the key's value is not of the old form. */
  ghost predicate KeepsLinkerd(py: Python, cfg: Config, key: string)
    requires key in cfg
  {
    && (key == "linkerd_repo_url" ==> !Contains(Str(py, cfg[key]), "helm.linkerd.io/stable"))
    && (key == "linkerd_rel" ==> cfg[key] != Text("linkerd"))
    && (key == "linkerd_version" ==> Hollow(cfg[key]) || EdgeForm(Str(py, cfg[key])))
  }

  /** The mapping says that the chart is Bitnami's. */
  ghost predicate FromBitnami(py: Python, cfg: Config) {
    || ("keycloak_rel" in cfg && cfg["keycloak_rel"] == Text("bitnami"))
    || ("keycloak_repo_url" in cfg && Contains(Str(py, cfg["keycloak_repo_url"]), "bitnami"))
  }

  ghost predicate KeepsKeycloak(py: Python, cfg: Config, key: string) {
    FromBitnami(py, cfg) ==> key != "keycloak_rel" && key != "keycloak_repo_url" && key != "keycloak_version"
  }

  ghost predicate KeepsCompliance(py: Python, cfg: Config, key: string)
    requires key in cfg
  {
    && key != "complianceascode_ns"
    && (key == "complianceascode_rel" ==> cfg[key] != Text("compliance-operator"))
    && (key == "complianceascode_repo_url" ==> !Contains(Str(py, cfg[key]), "openshift.github.io"))
    && (key == "complianceascode_version" ==> Hollow(cfg[key]) || Contains(Str(py, cfg[key]), "+up"))
    && (key == "complianceascode_profile" ==>
          Hollow(cfg[key]) || exists front: string :: Str(py, cfg[key]) == front + "-profile")
  }

  ghost predicate KeepsTrento(py: Python, cfg: Config, key: string)
    requires key in cfg
  {
    && key != "trento_rel" && key != "trento_repo_url"
    && (key == "trento_admin" ==> '@' !in Str(py, cfg[key]))
  }

  lemma {:induction false} LinkerdKept(py: Python, cfg: Config, key: string)
    requires key in cfg
    ensures key in Current(py, Linkerd, cfg) <==> KeepsLinkerd(py, cfg, key)
  {
    TruthyMeans(cfg[key]);
    HoldsMeans(Str(py, cfg[key]), "helm.linkerd.io/stable");
    EdgeMeans(Str(py, cfg[key]));
  }

  lemma {:induction false} KeycloakKept(py: Python, cfg: Config, key: string)
    requires key in cfg
    ensures key in Current(py, Keycloak, cfg) <==> KeepsKeycloak(py, cfg, key)
  {
    if "keycloak_repo_url" in cfg {
      HoldsMeans(Str(py, cfg["keycloak_repo_url"]), "bitnami");
    }
  }

  lemma {:induction false} ComplianceKept(py: Python, cfg: Config, key: string)
    requires key in cfg
    ensures key in Current(py, ComplianceAsCode, cfg) <==> KeepsCompliance(py, cfg, key)
  {
    var s := Str(py, cfg[key]);
    TruthyMeans(cfg[key]);
    HoldsMeans(s, "openshift.github.io");
    HoldsMeans(s, "+up");
    EndMeans(s, "-profile");
  }

  lemma {:induction false} EndMeans(s: string, end: string)
    ensures EndsWith(s, end) <==> exists front: string :: s == front + end
  {
    if EndsWith(s, end) { assert s == s[..|s| - |end|] + end; }
  }

  lemma {:induction false} TrentoKept(py: Python, cfg: Config, key: string)
    requires key in cfg
    ensures key in Current(py, Trento, cfg) <==> KeepsTrento(py, cfg, key)
  {
    CharacterHeld(Str(py, cfg[key]), '@');
  }

  lemma {:induction false} CharacterHeld(s: string, c: char)
    ensures Holds(s, [c]) <==> c in s
  {
    HoldsMeans(s, [c]);
    if c in s {
      var i :| 0 <= i < |s| && s[i] == c;
      assert [c] <= s[i..];
    }
    if Contains(s, [c]) {
      var i :| 0 <= i <= |s| && [c] <= s[i..];
      assert s[i] == c;
    }
  }

  ghost predicate Keeps(py: Python, step: Step, cfg: Config, key: string)
    requires key in cfg && DropsKeys(step)
  {
    match step
    case DropKeys(_, keys) => key !in keys
    case Linkerd => KeepsLinkerd(py, cfg, key)
    case Keycloak => KeepsKeycloak(py, cfg, key)
    case ComplianceAsCode => KeepsCompliance(py, cfg, key)
    case Trento => KeepsTrento(py, cfg, key)
  }

  lemma {:induction false} KeptExactly(py: Python, step: Step, cfg: Config, key: string)
    requires key in cfg && DropsKeys(step)
    ensures key in Current(py, step, cfg) <==> Keeps(py, step, cfg, key)
  {
    match step {
      case DropKeys(_, _) =>
      case Linkerd => LinkerdKept(py, cfg, key);
      case Keycloak => KeycloakKept(py, cfg, key);
      case ComplianceAsCode => ComplianceKept(py, cfg, key);
      case Trento => TrentoKept(py, cfg, key);
    }
  }

  /** A mapping before and after: what stays has its value, and stays exactly when it is to be kept. */
  ghost predicate Pruned(py: Python, step: Step, before: Config, after: Config)
    requires DropsKeys(step)
  {
    && (forall key :: key in after ==> key in before && after[key] == before[key])
    && (forall key :: key in before ==> (key in after <==> Keeps(py, step, before, key)))
  }

  /** The steps that remove keys: in the section and the overrides of the add-on exactly the old form goes. */
  lemma {:induction false} NewFormStays(py: Python, step: Step, lab: Lab)
    requires DropsKeys(step)
    ensures var after := Apply(py, step, lab).configs;
            && after.Keys == lab.configs.Keys
            && (forall p :: p in after && OfAddon(p, Target(step)) ==> Pruned(py, step, lab.configs[p], after[p]))
            && (forall p :: p in after && !OfAddon(p, Target(step)) ==> after[p] == lab.configs[p])
  {
    RemovingAt(py, step, lab);
    forall p | p in lab.configs { PrunedExactly(py, step, lab.configs[p]); }
  }

  lemma {:induction false} PrunedExactly(py: Python, step: Step, cfg: Config)
    requires DropsKeys(step)
    ensures Pruned(py, step, cfg, Current(py, step, cfg))
  {
    forall key | key in cfg { KeptExactly(py, step, cfg, key); }
  }

  // ----- rancher -----

  predicate Says(cfg: Config, key: string) {
    key in cfg && !Hollow(cfg[key])
  }

  /** What a mapping says over what it inherits. */
  function Over(cfg: Config, inherited: Config, key: string): Value {
    if key in cfg then cfg[key] else if key in inherited then inherited[key] else Null
  }

  /** A rancher mapping before and after: its URL and chart are written exactly when a repository name needs them. */
  ghost predicate Spelt(py: Python, before: Config, inherited: Config, after: Config) {
    var rel := Over(before, inherited, "rancher_rel");
    && (forall key :: key in before && key != "rancher_repo_url" && key != "rancher_helm_chart" ==>
          key in after && after[key] == before[key])
    && (forall key :: key in after && key != "rancher_repo_url" && key != "rancher_helm_chart" ==> key in before)
    && Filled(before, inherited, after, "rancher_repo_url", !Hollow(rel),
              "https://releases.rancher.com/server-charts/stable")
    && Filled(before, inherited, after, "rancher_helm_chart", !Hollow(rel), Str(py, rel) + "/rancher")
  }

  /** The key holds the text if it was needed and nothing was said for it; else it is as it was. */
  predicate Filled(before: Config, inherited: Config, after: Config, key: string, needed: bool, text: string) {
    if needed && Hollow(Over(before, inherited, key)) then key in after && after[key] == Text(text)
    else (key in after <==> key in before) && (key in after ==> after[key] == before[key])
  }

  lemma {:induction false} StableSpelt(py: Python, cfg: Config, inherited: Config)
    ensures Spelt(py, cfg, inherited, WithStable(py, cfg, inherited))
  {
    var effective := inherited + cfg;
    OverMeans(cfg, inherited, "rancher_rel");
    OverMeans(cfg, inherited, "rancher_repo_url");
    OverMeans(cfg, inherited, "rancher_helm_chart");
  }

  lemma OverMeans(cfg: Config, inherited: Config, key: string)
    ensures Set(inherited + cfg, key) <==> !Hollow(Over(cfg, inherited, key))
    ensures Set(inherited + cfg, key) ==> (inherited + cfg)[key] == Over(cfg, inherited, key)
  {
  }

  /** Every rancher mapping is spelt out, the section by itself and the overrides over the new section. */
  lemma {:induction false} RancherSpelt(py: Python, lab: Lab)
    ensures var after := Apply(py, Rancher, lab).configs;
            && after.Keys == lab.configs.Keys
            && (Top("rancher") in after ==>
                  Spelt(py, lab.configs[Top("rancher")], map[], after[Top("rancher")]))
            && (forall p :: p in after && p.Override? && p.addon == "rancher" ==>
                  Spelt(py, lab.configs[p], if Top("rancher") in after then after[Top("rancher")] else map[], after[p]))
            && (forall p :: p in after && !OfAddon(p, "rancher") ==> after[p] == lab.configs[p])
  {
    var section := WithStable(py, Section(lab.configs, "rancher"), map[]);
    RancherAt(py, lab, section);
    forall p, inherited | p in lab.configs { StableSpelt(py, lab.configs[p], inherited); }
    assert Top("rancher") !in lab.configs ==> section == map[];
  }

  // ----- sources -----

  /** Only the add-on's section changes: it names a source if the lab uses the add-on and it named none. */
  lemma {:induction false} SourceNamed(py: Python, lab: Lab, name: string, prefix: string)
    ensures var after, key := Apply(py, DefaultSource(name, prefix), lab).configs,
                              if prefix == "" then name + "_source" else prefix + "_source";
            && (forall p :: p != Top(name) ==> (p in after <==> p in lab.configs))
            && (forall p :: p != Top(name) && p in after ==> after[p] == lab.configs[p])
            && (if Top(name) in lab.configs then
                  && Top(name) in after
                  && (forall k :: k in lab.configs[Top(name)] ==>
                        k in after[Top(name)] && after[Top(name)][k] == lab.configs[Top(name)][k])
                  && (forall k :: k in after[Top(name)] && k !in lab.configs[Top(name)] ==>
                        k == key && after[Top(name)][k] == Text("upstream"))
                  && key in after[Top(name)]
                else if name in lab.mentions then Top(name) in after && after[Top(name)] == map[key := Text("upstream")]
                else Top(name) !in after)
  {
    SourceAt(py, lab, name, prefix);
  }

  // ----- lists of ports -----

  predicate Separates(c: char) {
    c == ',' || IsSpace(c)
  }

  /** The characters from a to b are a piece of the text: no separator in it, and separators or the ends around it. */
  predicate Piece(s: string, a: int, b: int) {
    && 0 <= a < b <= |s|
    && (forall i :: a <= i < b ==> !Separates(s[i]))
    && (a > 0 ==> Separates(s[a - 1]))
    && (b < |s| ==> Separates(s[b]))
  }

  /** The items are the pieces of the text from position k on, in their order, all of them. */
  ghost predicate Pieces(s: string, k: nat, items: seq<string>, ends: seq<(nat, nat)>) {
    |ends| == |items| && Cut(s, k, items, ends) && Apart(ends) && Complete(s, k, ends)
  }

  predicate Cut(s: string, k: nat, items: seq<string>, ends: seq<(nat, nat)>)
    requires |ends| == |items|
  {
    forall i :: 0 <= i < |ends| ==>
      k <= ends[i].0 && Piece(s, ends[i].0, ends[i].1) && items[i] == s[ends[i].0..ends[i].1]
  }

  predicate Apart(ends: seq<(nat, nat)>) {
    forall i, j :: 0 <= i < j < |ends| ==> ends[i].1 < ends[j].0
  }

  ghost predicate Complete(s: string, k: nat, ends: seq<(nat, nat)>) {
    forall a: nat, b: nat :: k <= a && Piece(s, a, b) ==> (a, b) in ends
  }

  function WordsFrom(s: string, k: nat): seq<string>
    requires k <= |s|
  {
    Words(Commas(s)[k..])
  }

  lemma {:induction false} WordsAreThePieces(s: string, k: nat) returns (ends: seq<(nat, nat)>)
    requires k <= |s| && (0 < k < |s| ==> Separates(s[k]) || Separates(s[k - 1]))
    ensures Pieces(s, k, WordsFrom(s, k), ends)
    decreases |s| - k
  {
    if k == |s| {
      ends := NoMorePieces(s);
    } else if Separates(s[k]) {
      ends := WordsAreThePieces(s, k + 1);
      NoPieceHere(s, k, WordsFrom(s, k + 1), ends);
      WordsSkip(s, k);
    } else {
      var m := FirstPiece(s, k);
      var rest := WordsAreThePieces(s, m);
      ends := [(k, m)] + rest;
      OnePieceMore(s, k, m, WordsFrom(s, m), rest);
    }
  }

  lemma {:induction false} NoMorePieces(s: string) returns (ends: seq<(nat, nat)>)
    ensures Pieces(s, |s|, WordsFrom(s, |s|), ends)
  {
    ends := [];
  }

  lemma {:induction false} WordsSkip(s: string, k: nat)
    requires k < |s| && Separates(s[k])
    ensures WordsFrom(s, k) == WordsFrom(s, k + 1)
  {
    var t := Commas(s)[k..];
    assert t[1..] == Commas(s)[k + 1..];
  }

  lemma {:induction false} NoPieceHere(s: string, k: nat, items: seq<string>, ends: seq<(nat, nat)>)
    requires k < |s| && Separates(s[k]) && Pieces(s, k + 1, items, ends)
    ensures Pieces(s, k, items, ends)
  {
    forall a: nat, b: nat | k <= a && Piece(s, a, b) ensures (a, b) in ends {
      assert !Separates(s[a]);
    }
  }

  lemma {:induction false} FirstPiece(s: string, k: nat) returns (m: nat)
    requires k < |s| && !Separates(s[k]) && (k > 0 ==> Separates(s[k - 1]))
    ensures k < m <= |s| && Piece(s, k, m) && (m < |s| ==> Separates(s[m]))
    ensures WordsFrom(s, k) == [s[k..m]] + WordsFrom(s, m)
  {
    var t := Commas(s)[k..];
    var n := WordLen(t);
    m := k + n;
    assert |t| == |s| - k && !IsSpace(t[0]);
    forall i | k <= i < m ensures !Separates(s[i]) { assert t[i - k] == Commas(s)[i]; }
    if m < |s| { assert t[n] == Commas(s)[m]; }
    assert t[n..] == Commas(s)[m..];
    assert t[..n] == s[k..m];
  }

  lemma {:induction false} OnePieceMore(s: string, k: nat, m: nat, items: seq<string>, ends: seq<(nat, nat)>)
    requires Piece(s, k, m) && Pieces(s, m, items, ends)
    ensures Pieces(s, k, [s[k..m]] + items, [(k, m)] + ends)
  {
    CutMore(s, k, m, items, ends);
    ApartMore(s, k, m, items, ends);
    CompleteMore(s, k, m, ends);
  }

  lemma {:induction false} CutMore(s: string, k: nat, m: nat, items: seq<string>, ends: seq<(nat, nat)>)
    requires Piece(s, k, m) && |ends| == |items| && Cut(s, m, items, ends)
    ensures Cut(s, k, [s[k..m]] + items, [(k, m)] + ends)
  {
  }

  lemma {:induction false} ApartMore(s: string, k: nat, m: nat, items: seq<string>, ends: seq<(nat, nat)>)
    requires Piece(s, k, m) && |ends| == |items| && Cut(s, m, items, ends) && Apart(ends)
    ensures Apart([(k, m)] + ends)
  {
    forall i | 0 <= i < |ends| ensures m < ends[i].0 {
      assert !Separates(s[ends[i].0]);
      assert m < |s| ==> Separates(s[m]);
    }
  }

  lemma {:induction false} CompleteMore(s: string, k: nat, m: nat, ends: seq<(nat, nat)>)
    requires Piece(s, k, m) && Complete(s, m, ends)
    ensures Complete(s, k, [(k, m)] + ends)
  {
    var all := [(k, m)] + ends;
    assert all[0] == (k, m) && all[1..] == ends;
    forall a: nat, b: nat | k <= a && Piece(s, a, b) ensures (a, b) in all {
      SamePiece(s, k, m, a, b);
    }
  }

  /** A piece that starts at or after the start of another is that one or lies behind it. */
  lemma {:induction false} SamePiece(s: string, k: nat, m: nat, a: nat, b: nat)
    requires Piece(s, k, m) && Piece(s, a, b) && k <= a
    ensures (a, b) == (k, m) || m <= a
  {
  }

  /** The text's pieces, in order. */
  ghost predicate SplitsInto(s: string, items: seq<string>) {
    exists ends :: Pieces(s, 0, items, ends)
  }

  function Texts(words: seq<string>): seq<Value> {
    seq(|words|, i requires 0 <= i < |words| => Text(words[i]))
  }

  lemma {:induction false} PortsAreThePieces(s: string) returns (ports: seq<string>)
    ensures Ports(s) == Array(Texts(ports)) && SplitsInto(s, ports)
  {
    ports := Words(Commas(s));
    assert Commas(s)[0..] == Commas(s);
    var ends := WordsAreThePieces(s, 0);
  }

  predicate Blank(s: string) {
    forall i :: 0 <= i < |s| ==> IsSpace(s[i])
  }

  /** The value of a port key before and after: a text that is not blank becomes the list of its pieces. */
  ghost predicate Listed(before: Value, after: Value) {
    if before.Text? && !Blank(before.s)
    then exists ports :: after == Array(Texts(ports)) && SplitsInto(before.s, ports)
    else after == before
  }

  /** A mapping before and after: the port keys are lists, the others as they were. */
  ghost predicate PortsInLists(before: Config, after: Config) {
    && before.Keys == after.Keys
    && forall key :: key in before ==>
         if key == "open_ports" || key == "aws_open_ports" then Listed(before[key], after[key])
         else after[key] == before[key]
  }

  lemma {:induction false} ListsAreThePieces(cfg: Config)
    ensures PortsInLists(cfg, WithPortLists(cfg))
  {
    var now := WithPortLists(cfg);
    forall key | key in cfg && (key == "open_ports" || key == "aws_open_ports") ensures Listed(cfg[key], now[key]) {
      if cfg[key].Text? {
        WordsBlank(cfg[key].s);
        var ports := PortsAreThePieces(cfg[key].s);
      }
    }
  }

  /** common and the nodes have their ports in lists, and every other mapping is as it was. */
  lemma {:induction false} PortsListed(py: Python, lab: Lab)
    ensures var after := Apply(py, OpenPorts, lab).configs;
            && after.Keys == lab.configs.Keys
            && (forall p :: p in after && (p == Top("common") || p.NodeKeys?) ==>
                  PortsInLists(lab.configs[p], after[p]))
            && (forall p :: p in after && p != Top("common") && !p.NodeKeys? ==> after[p] == lab.configs[p])
  {
    PortsAt(py, lab);
    forall p | p in lab.configs { ListsAreThePieces(lab.configs[p]); }
  }

  // ----- the names of the steps -----

  /** The add-ons whose chart comes from the Application Collection since version 2.0. */
  const COLLECTION :=
    ["argocd", "coredns", "fluentd", "harbor", "longhorn", "milvus", "ollama", "open_webui", "traefik"]

  /** A registered step is the one its name says. */
  predicate WellNamed(name: string, step: Step) {
    Bears(name, step) && (step.DropKeys? ==> ChartKeys(step)) && Sourced(step)
  }

  predicate Bears(name: string, step: Step) {
    name == (if step.OpenPorts? then "open_ports" else Target(step)) + "_2_0"
  }

  predicate Sourced(step: Step) {
    && (step.DefaultSource? <==> Target(step) in COLLECTION)
    && (step.DefaultSource? ==> step.prefix == if step.addon == "longhorn" then "lh" else "")
  }

  /** The keys of an add-on's repository; of postgresql also its chart version. */
  predicate ChartKeys(step: Step)
    requires step.DropKeys?
  {
    if step.addon == "postgresql" then |step.keys| == 3 && step.keys[2] == "postgresql_version" && RepositoryKeys(step)
    else |step.keys| == 2 && RepositoryKeys(step)
  }

  predicate RepositoryKeys(step: Step)
    requires step.DropKeys? && |step.keys| >= 2
  {
    step.keys[0] == step.addon + "_rel" && step.keys[1] == step.addon + "_repo_url"
  }

  lemma ChartKeysWritten()
    ensures "appcollection" + "_rel" == "appcollection_rel" && "appcollection" + "_repo_url" == "appcollection_repo_url"
    ensures "kagent" + "_rel" == "kagent_rel" && "kagent" + "_repo_url" == "kagent_repo_url"
    ensures "postgresql" + "_rel" == "postgresql_rel" && "postgresql" + "_repo_url" == "postgresql_repo_url"
  {
  }

  lemma {:induction false} FirstNamesBorne(i: nat)
    requires i < 11
    ensures Bears(Registered()[i].0, Registered()[i].1)
  {
  }

  lemma {:induction false} LastNamesBorne(i: nat)
    requires 11 <= i < |Registered()|
    ensures Bears(Registered()[i].0, Registered()[i].1)
  {
  }

  lemma {:induction false} KeysOfCharts(i: nat)
    requires i < |Registered()| && Registered()[i].1.DropKeys?
    ensures ChartKeys(Registered()[i].1)
  {
    ChartKeysWritten();
  }

  lemma {:induction false} SourcesOfCharts(i: nat)
    requires i < |Registered()|
    ensures Sourced(Registered()[i].1)
  {
  }

  /** Every registered step bears the name of what it rewrites, 22 of them. */
  lemma {:induction false} StepsWellNamed(i: nat)
    requires i < |Registered()|
    ensures |Registered()| == 22
    ensures WellNamed(Registered()[i].0, Registered()[i].1)
  {
    if i < 11 { FirstNamesBorne(i); } else { LastNamesBorne(i); }
    if Registered()[i].1.DropKeys? { KeysOfCharts(i); }
    SourcesOfCharts(i);
  }
}
