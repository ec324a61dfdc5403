/**
 The migration steps: rewriting a lab definition across breaking schema versions.

 A definition is held by its configuration mappings, each at the place where it stands; what a step looks at besides
 is which add-ons the addons[] lists mention. Deleting and assigning keys changes a mapping at its place.
 */
module Migrations {
  import opened Json
  import opened SchemaValidate
  import opened Text
  import opened Wrappers

  datatype Owner = Cluster(name: string) | Node(name: string)

  /** A top-level mapping, the mapping of an addons[] entry for its add-on, or a node's own keys. */
  datatype Place = Top(name: string) | Override(owner: Owner, at: nat, addon: string) | NodeKeys(node: string)

  type Configs = map<Place, Config>

  /** A lab definition: its mappings, the names its addons[] lists mention, and the versions it records. */
  datatype Lab = Lab(configs: Configs, mentions: set<string>, versions: map<string, string>)

  /** The registered steps, by what they do; an empty prefix is none. */
  datatype Step =
    | DropKeys(addon: string, keys: seq<string>)
    | Linkerd | Keycloak | ComplianceAsCode | Trento | Rancher | OpenPorts
    | DefaultSource(addon: string, prefix: string)

  /** The add-on whose configuration a step rewrites; the base sections count as "common". */
  function Target(step: Step): string {
    match step
    case DropKeys(name, _) => name
    case DefaultSource(name, _) => name
    case Linkerd => "linkerd"
    case Keycloak => "keycloak"
    case ComplianceAsCode => "complianceascode"
    case Trento => "trento"
    case Rancher => "rancher"
    case OpenPorts => "common"
  }

  /** The only target whose step may touch a place. */
  function TargetOf(p: Place): string {
    match p
    case Top(name) => name
    case Override(_, _, addon) => addon
    case NodeKeys(_) => "common"
  }

  // ----- one mapping -----

  predicate Truthy(v: Value) {
    match v
    case Null => false
    case Bool(on) => on
    case Number(n) => n != 0
    case Float(x) => x != 0.0
    case Text(s) => s != ""
    case Array(items) => items != []
    case Object(entries) => entries != map[]
  }

  predicate Holds(s: string, part: string) {
    part <= s || (s != [] && Holds(s[1..], part))
  }

  predicate EndsWith(s: string, end: string) {
    |end| <= |s| && s[|s| - |end|..] == end
  }

  /** str(cfg.get(key, "")) */
  function Written(py: Python, cfg: Config, key: string): string {
    if key in cfg then Str(py, cfg[key]) else ""
  }

  predicate Set(cfg: Config, key: string) {
    key in cfg && Truthy(cfg[key])
  }

  predicate Is(cfg: Config, key: string, s: string) {
    key in cfg && cfg[key] == Text(s)
  }

  /** The version is one of linkerd's edge channel: it starts with 20, two digits and a dot. */
  predicate EdgeVersion(s: string) {
    |s| >= 5 && s[0] == '2' && s[1] == '0' && '0' <= s[2] <= '9' && '0' <= s[3] <= '9' && s[4] == '.'
  }

  /** keycloak is installed from Bitnami. */
  predicate Bitnami(py: Python, cfg: Config) {
    Is(cfg, "keycloak_rel", "bitnami") || Holds(Written(py, cfg, "keycloak_repo_url"), "bitnami")
  }

  /** complianceascode: keys that name the former operator's namespace and repository. */
  predicate OldOperator(py: Python, cfg: Config, key: string) {
    || key == "complianceascode_ns"
    || (key == "complianceascode_rel" && Is(cfg, key, "compliance-operator"))
    || (key == "complianceascode_repo_url" && Holds(Written(py, cfg, key), "openshift.github.io"))
  }

  /** complianceascode: a version or a profile that is none of the new operator's. */
  predicate OldChoice(py: Python, cfg: Config, key: string) {
    || (key == "complianceascode_version" && Set(cfg, key) && !Holds(Str(py, cfg[key]), "+up"))
    || (key == "complianceascode_profile" && Set(cfg, key) && !EndsWith(Str(py, cfg[key]), "-profile"))
  }

  /** The key of the mapping is in its old form, and the step removes it. */
  predicate Outdated(py: Python, step: Step, cfg: Config, key: string) {
    match step
    case DropKeys(_, keys) => key in keys
    case Linkerd =>
      || (key == "linkerd_repo_url" && Holds(Written(py, cfg, key), "helm.linkerd.io/stable"))
      || (key == "linkerd_rel" && Is(cfg, key, "linkerd"))
      || (key == "linkerd_version" && Set(cfg, key) && !EdgeVersion(Str(py, cfg[key])))
    case Keycloak =>
      Bitnami(py, cfg) && key in ["keycloak_rel", "keycloak_repo_url", "keycloak_version"]
    case ComplianceAsCode => OldOperator(py, cfg, key) || OldChoice(py, cfg, key)
    case Trento =>
      || key in ["trento_rel", "trento_repo_url"]
      || (key == "trento_admin" && Holds(Written(py, cfg, key), "@"))
    case _ => false
  }

  /** The mapping without what is outdated in it. */
  function Current(py: Python, step: Step, cfg: Config): Config {
    map k | k in cfg && !Outdated(py, step, cfg, k) :: cfg[k]
  }

  const STABLE_URL := "https://releases.rancher.com/server-charts/stable"

  /** The mapping with the old defaults of rancher written into it, over what it inherits. */
  function WithStable(py: Python, cfg: Config, inherited: Config): Config {
    var effective := inherited + cfg;
    if !Set(effective, "rancher_rel") then cfg
    else
      var a := if Set(effective, "rancher_repo_url") then cfg else cfg["rancher_repo_url" := Text(STABLE_URL)];
      if Set(effective, "rancher_helm_chart") then a
      else a["rancher_helm_chart" := Text(Str(py, effective["rancher_rel"]) + "/rancher")]
  }

  /** One item per port of the text. */
  function Ports(s: string): Value {
    var words := Words(Commas(s));
    Array(seq(|words|, i requires 0 <= i < |words| => Text(words[i])))
  }

  predicate PortText(cfg: Config, key: string) {
    key in cfg && cfg[key].Text? && Words(cfg[key].s) != []
  }

  function WithLists(cfg: Config, keys: seq<string>): Config {
    map k | k in cfg :: if k in keys && PortText(cfg, k) then Ports(cfg[k].s) else cfg[k]
  }

  function WithPortLists(cfg: Config): Config {
    WithLists(cfg, ["open_ports", "aws_open_ports"])
  }

  // ----- a step -----

  function SourceKey(name: string, prefix: string): string {
    (if prefix == "" then name else prefix) + "_source"
  }

  /** The section's own rancher keys, which the overrides inherit. */
  function Section(part: Configs, name: string): Config {
    if Top(name) in part then part[Top(name)] else map[]
  }

  /** What a step makes of the mappings it may touch. */
  function Run(py: Python, step: Step, mentions: set<string>, part: Configs): Configs {
    match step
    case Rancher =>
      var section := WithStable(py, Section(part, "rancher"), map[]);
      map p | p in part ::
        if p == Top("rancher") then section else if p.Override? then WithStable(py, part[p], section) else part[p]
    case DefaultSource(name, prefix) =>
      var section, key := Section(part, name), SourceKey(name, prefix);
      if (Top(name) in part || name in mentions) && key !in section
      then part[Top(name) := section[key := Text("upstream")]]
      else part
    case OpenPorts =>
      map p | p in part :: if p.Override? then part[p] else WithPortLists(part[p])
    case _ =>
      map p | p in part :: if p.NodeKeys? then part[p] else Current(py, step, part[p])
  }

  function Part(configs: Configs, target: string): Configs {
    map p | p in configs && TargetOf(p) == target :: configs[p]
  }

  function Rest(configs: Configs, target: string): Configs {
    map p | p in configs && TargetOf(p) != target :: configs[p]
  }

  function Apply(py: Python, step: Step, lab: Lab): Lab {
    lab.(configs := Rest(lab.configs, Target(step)) + Run(py, step, lab.mentions, Part(lab.configs, Target(step))))
  }

  function ApplyAll(py: Python, steps: seq<Step>, lab: Lab): (after: Lab)
    ensures after.mentions == lab.mentions && after.versions == lab.versions
  {
    if steps == [] then lab else Apply(py, steps[|steps| - 1], ApplyAll(py, steps[..|steps| - 1], lab))
  }

  // ----- a second run changes nothing -----

  lemma CurrentIdempotent(py: Python, step: Step, cfg: Config)
    ensures Current(py, step, Current(py, step, cfg)) == Current(py, step, cfg)
  {
    var now := Current(py, step, cfg);
    forall k | k in now ensures !Outdated(py, step, now, k) {
      assert now[k] == cfg[k];
      if step.Keycloak? && Bitnami(py, cfg) { assert !Bitnami(py, now); }
    }
  }

  lemma StableIdempotent(py: Python, cfg: Config, inherited: Config)
    ensures WithStable(py, WithStable(py, cfg, inherited), inherited) == WithStable(py, cfg, inherited)
  {
    var effective := inherited + cfg;
    var now := WithStable(py, cfg, inherited);
    if Set(effective, "rancher_rel") {
      Slash(Str(py, effective["rancher_rel"]), "/rancher");
      assert Set(inherited + now, "rancher_repo_url");
      assert Set(inherited + now, "rancher_helm_chart");
    }
  }

  lemma Slash(a: string, b: string)
    requires b != ""
    ensures a + b != ""
  {
  }

  predicate Targets(part: Configs, target: string) {
    forall p :: p in part ==> TargetOf(p) == target
  }

  lemma RunStays(py: Python, step: Step, mentions: set<string>, part: Configs)
    requires Targets(part, Target(step))
    ensures Targets(Run(py, step, mentions, part), Target(step))
  {
  }

  /** Every step is idempotent: what it has rewritten, it leaves alone. */
  lemma RunIdempotent(py: Python, step: Step, mentions: set<string>, part: Configs)
    ensures var now := Run(py, step, mentions, part); Run(py, step, mentions, now) == now
  {
    var now := Run(py, step, mentions, part);
    match step {
      case Rancher =>
        StableIdempotent(py, Section(part, "rancher"), map[]);
        var section := WithStable(py, Section(part, "rancher"), map[]);
        if Top("rancher") in part {
          assert Section(now, "rancher") == section;
        } else {
          assert section == map[];
        }
        forall p | p in part && p.Override? { StableIdempotent(py, part[p], section); }
      case DefaultSource(_, _) =>
      case OpenPorts =>
        forall p | p in part && !p.Override? ensures WithPortLists(now[p]) == now[p] {}
      case _ =>
        forall p | p in part { CurrentIdempotent(py, step, part[p]); }
    }
  }

  lemma PartApply(py: Python, step: Step, lab: Lab, target: string)
    ensures Part(Apply(py, step, lab).configs, target) ==
            if target == Target(step) then Run(py, step, lab.mentions, Part(lab.configs, target))
            else Part(lab.configs, target)
  {
    RunStays(py, step, lab.mentions, Part(lab.configs, Target(step)));
  }

  lemma SameParts(a: Configs, b: Configs)
    requires forall target :: Part(a, target) == Part(b, target)
    ensures a == b
  {
    forall p | p in a ensures p in b && b[p] == a[p] {
      assert p in Part(a, TargetOf(p)) && p in Part(b, TargetOf(p));
    }
    forall p | p in b ensures p in a {
      assert p in Part(b, TargetOf(p)) && p in Part(a, TargetOf(p));
    }
  }

  lemma ApplyIdempotent(py: Python, step: Step, lab: Lab)
    ensures Apply(py, step, Apply(py, step, lab)) == Apply(py, step, lab)
  {
    var once := Apply(py, step, lab);
    RunIdempotent(py, step, lab.mentions, Part(lab.configs, Target(step)));
    forall target ensures Part(Apply(py, step, once).configs, target) == Part(once.configs, target) {
      PartApply(py, step, once, target);
      PartApply(py, step, lab, target);
    }
    SameParts(Apply(py, step, once).configs, once.configs);
  }

  /** Steps for different add-ons touch different mappings, so their order does not matter. */
  lemma StepsCommute(py: Python, a: Step, b: Step, lab: Lab)
    requires Target(a) != Target(b)
    ensures Apply(py, a, Apply(py, b, lab)) == Apply(py, b, Apply(py, a, lab))
  {
    var ab, ba := Apply(py, a, Apply(py, b, lab)), Apply(py, b, Apply(py, a, lab));
    forall target ensures Part(ab.configs, target) == Part(ba.configs, target) {
      PartApply(py, a, Apply(py, b, lab), target);
      PartApply(py, b, lab, target);
      PartApply(py, b, Apply(py, a, lab), target);
      PartApply(py, a, lab, target);
    }
    SameParts(ab.configs, ba.configs);
  }

  // ----- many steps -----

  /** No two different steps rewrite the same add-on. */
  predicate Coherent(steps: seq<Step>) {
    forall i, j :: 0 <= i < |steps| && 0 <= j < |steps| && Target(steps[i]) == Target(steps[j]) ==> steps[i] == steps[j]
  }

  /** What steps make of one add-on's mappings: what the step for it makes of them, if there is one. */
  lemma {:induction false} PartAfterAll(py: Python, steps: seq<Step>, lab: Lab, target: string)
    requires Coherent(steps)
    ensures var part := Part(ApplyAll(py, steps, lab).configs, target);
            && (forall s :: s in steps && Target(s) == target ==>
                  part == Run(py, s, lab.mentions, Part(lab.configs, target)))
            && ((forall s :: s in steps ==> Target(s) != target) ==> part == Part(lab.configs, target))
  {
    if steps != [] {
      var init, last := steps[..|steps| - 1], steps[|steps| - 1];
      var before := ApplyAll(py, init, lab);
      PartAfterAll(py, init, lab, target);
      PartApply(py, last, before, target);
      if Target(last) == target {
        RunIdempotent(py, last, lab.mentions, Part(lab.configs, target));
        assert forall s :: s in init && Target(s) == target ==> s == last;
      }
    }
  }

  /** Neither the order of the steps nor their repetition matters. */
  lemma OrderIrrelevant(py: Python, steps: seq<Step>, others: seq<Step>, lab: Lab)
    requires Coherent(steps) && Coherent(others) && forall s :: s in steps <==> s in others
    ensures ApplyAll(py, steps, lab) == ApplyAll(py, others, lab)
  {
    var a, b := ApplyAll(py, steps, lab), ApplyAll(py, others, lab);
    forall target ensures Part(a.configs, target) == Part(b.configs, target) {
      PartAfterAll(py, steps, lab, target);
      PartAfterAll(py, others, lab, target);
      if s :| s in steps && Target(s) == target { assert s in others; }
    }
    SameParts(a.configs, b.configs);
  }

  /** Running the same steps once more changes nothing. */
  lemma AllIdempotent(py: Python, steps: seq<Step>, lab: Lab)
    requires Coherent(steps)
    ensures ApplyAll(py, steps, ApplyAll(py, steps, lab)) == ApplyAll(py, steps, lab)
  {
    var once := ApplyAll(py, steps, lab);
    var twice := ApplyAll(py, steps, once);
    forall target ensures Part(twice.configs, target) == Part(once.configs, target) {
      PartAfterAll(py, steps, lab, target);
      PartAfterAll(py, steps, once, target);
      if s :| s in steps && Target(s) == target { RunIdempotent(py, s, lab.mentions, Part(lab.configs, target)); }
    }
    SameParts(twice.configs, once.configs);
  }

  /** No step changes the definition it finds. */
  predicate Quiet(py: Python, steps: seq<Step>, lab: Lab) {
    forall i :: 0 <= i < |steps| ==> Apply(py, steps[i], ApplyAll(py, steps[..i], lab)) == ApplyAll(py, steps[..i], lab)
  }

  lemma {:induction false} QuietKeeps(py: Python, steps: seq<Step>, lab: Lab, n: nat)
    requires Quiet(py, steps, lab) && n <= |steps|
    ensures ApplyAll(py, steps[..n], lab) == lab
  {
    if n > 0 {
      QuietKeeps(py, steps, lab, n - 1);
      assert steps[..n][..n - 1] == steps[..n - 1] && steps[..n][n - 1] == steps[n - 1];
    }
  }

  /** Some step makes a change exactly when the steps together do: no later step takes an earlier one back. */
  lemma QuietIffUnchanged(py: Python, steps: seq<Step>, lab: Lab)
    requires Coherent(steps)
    ensures Quiet(py, steps, lab) <==> ApplyAll(py, steps, lab) == lab
  {
    if Quiet(py, steps, lab) {
      QuietKeeps(py, steps, lab, |steps|);
      assert steps[..|steps|] == steps;
    }
    if ApplyAll(py, steps, lab) == lab {
      forall s | s in steps ensures Apply(py, s, lab) == lab { UnchangedByEach(py, steps, lab, s); }
      forall i | 0 <= i <= |steps|
        ensures ApplyAll(py, steps[..i], lab) == lab
      {
        UnchangedByPrefix(py, steps, lab, i);
      }
    }
  }

  lemma UnchangedByEach(py: Python, steps: seq<Step>, lab: Lab, s: Step)
    requires Coherent(steps) && s in steps && ApplyAll(py, steps, lab) == lab
    ensures Apply(py, s, lab) == lab
  {
    forall target ensures Part(Apply(py, s, lab).configs, target) == Part(lab.configs, target) {
      PartApply(py, s, lab, target);
      PartAfterAll(py, steps, lab, target);
    }
    SameParts(Apply(py, s, lab).configs, lab.configs);
  }

  lemma {:induction false} UnchangedByPrefix(py: Python, steps: seq<Step>, lab: Lab, n: nat)
    requires n <= |steps| && forall s :: s in steps ==> Apply(py, s, lab) == lab
    ensures ApplyAll(py, steps[..n], lab) == lab
  {
    if n > 0 {
      UnchangedByPrefix(py, steps, lab, n - 1);
      assert steps[..n][..n - 1] == steps[..n - 1] && steps[..n][n - 1] == steps[n - 1];
      assert steps[n - 1] in steps;
    }
  }

  // ----- what the definition meant is now written down -----

  /** Wherever rancher is configured by a repository name, its URL and chart are now said, and said once they stay. */
  lemma RancherIsExplicit(py: Python, mentions: set<string>, part: Configs, p: Place)
    requires p in part && (p.Override? || p == Top("rancher"))
    ensures var now := Run(py, Rancher, mentions, part);
            var effective := (if p.Override? then Section(now, "rancher") else map[]) + now[p];
            && (Set(effective, "rancher_rel") ==>
                  Set(effective, "rancher_repo_url") && Set(effective, "rancher_helm_chart"))
            && (forall k :: Set(part[p], k) ==> k in now[p] && now[p][k] == part[p][k])
  {
    var section := WithStable(py, Section(part, "rancher"), map[]);
    StableIsExplicit(py, part[p], if p.Override? then section else map[]);
    assert Top("rancher") !in part ==> section == map[];
  }

  lemma StableIsExplicit(py: Python, cfg: Config, inherited: Config)
    ensures var now := WithStable(py, cfg, inherited);
            && (Set(inherited + now, "rancher_rel") ==>
                  Set(inherited + now, "rancher_repo_url") && Set(inherited + now, "rancher_helm_chart"))
            && (forall k :: Set(cfg, k) ==> k in now && now[k] == cfg[k])
  {
    if Set(inherited + cfg, "rancher_rel") { Slash(Str(py, (inherited + cfg)["rancher_rel"]), "/rancher"); }
  }

  /** A lab that uses the add-on names its chart's source afterwards: the one it named before, else upstream. */
  lemma SourceIsExplicit(py: Python, name: string, prefix: string, mentions: set<string>, part: Configs)
    requires Top(name) in part || name in mentions
    ensures var now, key := Run(py, DefaultSource(name, prefix), mentions, part), SourceKey(name, prefix);
            && Top(name) in now && key in now[Top(name)]
            && now[Top(name)][key] == if key in Section(part, name) then part[Top(name)][key] else Text("upstream")
  {
  }

  // ----- what a step reports -----

  /** One change: a key of a mapping that was removed or assigned. */
  datatype KeyChange = KeyChange(place: Place, key: string)

  function At(configs: Configs, c: KeyChange): Option<Value> {
    if c.place in configs && c.key in configs[c.place] then Some(configs[c.place][c.key]) else None
  }

  /** The changes are exactly the keys that differ, and no mapping comes or goes without one. */
  ghost predicate Reports(changes: seq<KeyChange>, before: Configs, after: Configs) {
    && (forall c :: c in changes <==> At(before, c) != At(after, c))
    && (changes == [] ==> before == after)
  }

  /** The keys of a mapping that an edit removed or assigned. */
  ghost predicate Edits(cfg: Config, now: Config, keys: seq<string>) {
    && (forall k :: k in keys ==> k in cfg || k in now)
    && (forall k :: k in cfg || k in now ==>
          (k in keys <==> k !in cfg || k !in now || cfg[k] != now[k]))
  }

  function ChangesAt(p: Place, keys: seq<string>): (r: seq<KeyChange>)
    ensures |r| == |keys| && forall c :: c in r <==> c.place == p && c.key in keys
  {
    if keys == [] then [] else
      assert keys == [keys[0]] + keys[1..];
      [KeyChange(p, keys[0])] + ChangesAt(p, keys[1..])
  }

  ghost predicate Lists(changes: seq<KeyChange>, before: Configs, after: Configs) {
    forall c :: c in changes <==> At(before, c) != At(after, c)
  }

  /** Editing one more mapping, still as it was, adds its changes. */
  lemma ListsMore(changes: seq<KeyChange>, before: Configs, mid: Configs, p: Place, now: Config, keys: seq<string>)
    requires Lists(changes, before, mid) && p in before && p in mid && mid[p] == before[p]
    requires Edits(before[p], now, keys)
    ensures Lists(changes + ChangesAt(p, keys), before, mid[p := now])
  {
    var after := mid[p := now];
    forall c ensures c in changes + ChangesAt(p, keys) <==> At(before, c) != At(after, c) {
      if c.place == p {
        assert At(before, c) == At(mid, c);
      } else {
        assert At(mid, c) == At(after, c);
      }
    }
  }

  lemma NothingListed(before: Configs, after: Configs)
    requires Lists([], before, after) && before.Keys == after.Keys
    ensures before == after
  {
    forall p | p in before ensures before[p] == after[p] {
      forall k
        ensures k in before[p] <==> k in after[p]
      {
        assert At(before, KeyChange(p, k)) == At(after, KeyChange(p, k));
      }
      forall k | k in before[p] ensures before[p][k] == after[p][k] {
        assert At(before, KeyChange(p, k)) == At(after, KeyChange(p, k));
      }
    }
  }

  // ----- one mapping, key by key -----

  /** _drop_keys(), for one mapping */
  method DropEach(py: Python, addon: string, cfg: Config, keys: seq<string>) returns (now: Config, gone: seq<string>)
    ensures now == Current(py, DropKeys(addon, keys), cfg) && Edits(cfg, now, gone)
  {
    now, gone := cfg, [];
    for i := 0 to |keys|
      invariant now == map k | k in cfg && k !in keys[..i] :: cfg[k]
      invariant forall k :: k in gone <==> k in cfg && k in keys[..i]
    {
      if keys[i] in now { now, gone := now - {keys[i]}, gone + [keys[i]]; }
    }
    assert keys[..|keys|] == keys;
  }

  method LinkerdKeys(py: Python, cfg: Config) returns (now: Config, gone: seq<string>)
    ensures now == Current(py, Linkerd, cfg) && Edits(cfg, now, gone)
  {
    now, gone := cfg, [];
    if Holds(Written(py, now, "linkerd_repo_url"), "helm.linkerd.io/stable") {
      now, gone := now - {"linkerd_repo_url"}, gone + ["linkerd_repo_url"];
    }
    if Is(now, "linkerd_rel", "linkerd") {
      now, gone := now - {"linkerd_rel"}, gone + ["linkerd_rel"];
    }
    if Set(now, "linkerd_version") && !EdgeVersion(Str(py, now["linkerd_version"])) {
      now, gone := now - {"linkerd_version"}, gone + ["linkerd_version"];
    }
  }

  method KeycloakKeys(py: Python, cfg: Config) returns (now: Config, gone: seq<string>)
    ensures now == Current(py, Keycloak, cfg) && Edits(cfg, now, gone)
  {
    now, gone := cfg, [];
    if Is(cfg, "keycloak_rel", "bitnami") || Holds(Written(py, cfg, "keycloak_repo_url"), "bitnami") {
      now, gone := DropEach(py, "keycloak", cfg, ["keycloak_rel", "keycloak_repo_url", "keycloak_version"]);
    }
  }

  method OperatorKeys(py: Python, cfg: Config) returns (now: Config, gone: seq<string>)
    ensures now == map k | k in cfg && !OldOperator(py, cfg, k) :: cfg[k]
    ensures forall k :: k in gone <==> k in cfg && OldOperator(py, cfg, k)
  {
    now, gone := DropEach(py, "complianceascode", cfg, ["complianceascode_ns"]);
    assert now == map k | k in cfg && k != "complianceascode_ns" :: cfg[k];
    assert forall k :: k in gone <==> k in cfg && k == "complianceascode_ns";
    if Is(now, "complianceascode_rel", "compliance-operator") {
      now, gone := now - {"complianceascode_rel"}, gone + ["complianceascode_rel"];
    }
    if Holds(Written(py, now, "complianceascode_repo_url"), "openshift.github.io") {
      now, gone := now - {"complianceascode_repo_url"}, gone + ["complianceascode_repo_url"];
    }
  }

  method ChoiceKeys(py: Python, cfg: Config) returns (now: Config, gone: seq<string>)
    ensures now == map k | k in cfg && !OldChoice(py, cfg, k) :: cfg[k]
    ensures forall k :: k in gone <==> k in cfg && OldChoice(py, cfg, k)
  {
    now, gone := cfg, [];
    if Set(now, "complianceascode_version") && !Holds(Str(py, now["complianceascode_version"]), "+up") {
      now, gone := now - {"complianceascode_version"}, gone + ["complianceascode_version"];
    }
    if Set(now, "complianceascode_profile") && !EndsWith(Str(py, now["complianceascode_profile"]), "-profile") {
      now, gone := now - {"complianceascode_profile"}, gone + ["complianceascode_profile"];
    }
  }

  lemma ChoiceApart(py: Python, cfg: Config, now: Config, key: string)
    requires now == map k | k in cfg && !OldOperator(py, cfg, k) :: cfg[k]
    ensures OldChoice(py, now, key) == OldChoice(py, cfg, key)
  {
  }

  method ComplianceKeys(py: Python, cfg: Config) returns (now: Config, gone: seq<string>)
    ensures now == Current(py, ComplianceAsCode, cfg) && Edits(cfg, now, gone)
  {
    var mid, first := OperatorKeys(py, cfg);
    var rest;
    now, rest := ChoiceKeys(py, mid);
    gone := first + rest;
    forall k ensures OldChoice(py, mid, k) == OldChoice(py, cfg, k) { ChoiceApart(py, cfg, mid, k); }
  }

  method TrentoKeys(py: Python, cfg: Config) returns (now: Config, gone: seq<string>)
    ensures now == Current(py, Trento, cfg) && Edits(cfg, now, gone)
  {
    now, gone := DropEach(py, "trento", cfg, ["trento_rel", "trento_repo_url"]);
    if Holds(Written(py, now, "trento_admin"), "@") {
      now, gone := now - {"trento_admin"}, gone + ["trento_admin"];
    }
  }

  method RancherKeys(py: Python, cfg: Config, inherited: Config) returns (now: Config, written: seq<string>)
    ensures now == WithStable(py, cfg, inherited) && Edits(cfg, now, written)
  {
    now, written := cfg, [];
    var effective := inherited + cfg;
    if !Set(effective, "rancher_rel") { return; }
    if !Set(effective, "rancher_repo_url") {
      now, written := now["rancher_repo_url" := Text(STABLE_URL)], written + ["rancher_repo_url"];
    }
    if !Set(effective, "rancher_helm_chart") {
      Slash(Str(py, effective["rancher_rel"]), "/rancher");
      now := now["rancher_helm_chart" := Text(Str(py, effective["rancher_rel"]) + "/rancher")];
      written := written + ["rancher_helm_chart"];
    }
  }

  lemma ListNext(cfg: Config, keys: seq<string>, key: string, now: Config)
    requires now == WithLists(cfg, keys)
    ensures PortText(now, key) <==> PortText(cfg, key) && key !in keys
    ensures PortText(now, key) ==> now[key] == cfg[key]
    ensures WithLists(cfg, keys + [key]) == if PortText(now, key) then now[key := Ports(now[key].s)] else now
  {
    var all := keys + [key];
    assert forall k :: k in all <==> k in keys || k == key;
  }

  lemma ListsDiffer(cfg: Config, keys: seq<string>, written: seq<string>)
    requires forall k :: k in written <==> k in keys && PortText(cfg, k)
    ensures Edits(cfg, WithLists(cfg, keys), written)
  {
  }

  method ListKeys(cfg: Config, keys: seq<string>) returns (now: Config, written: seq<string>)
    ensures now == WithLists(cfg, keys) && Edits(cfg, now, written)
  {
    now, written := cfg, [];
    for i := 0 to |keys|
      invariant now == WithLists(cfg, keys[..i])
      invariant forall k :: k in written <==> k in keys[..i] && PortText(cfg, k)
    {
      var key := keys[i];
      assert keys[..i + 1] == keys[..i] + [key];
      ListNext(cfg, keys[..i], key, now);
      if PortText(now, key) {
        now, written := now[key := Ports(now[key].s)], written + [key];
      }
    }
    assert keys[..|keys|] == keys;
    ListsDiffer(cfg, keys, written);
  }

  // ----- the steps, in place -----

  predicate DropsKeys(step: Step) {
    !step.Rancher? && !step.OpenPorts? && !step.DefaultSource?
  }

  /** The place holds a mapping of the add-on: its section or an override. */
  predicate OfAddon(p: Place, name: string) {
    (p.Top? && p.name == name) || (p.Override? && p.addon == name)
  }

  /** Part of the mappings are rewritten, the others as they were. */
  predicate HalfDone(before: Configs, now: Configs, todo: set<Place>, left: set<Place>, after: Configs)
    requires before.Keys == after.Keys
  {
    && now.Keys == before.Keys && left <= todo <= before.Keys
    && forall p :: p in before ==> now[p] == if p in todo && p !in left then after[p] else before[p]
  }

  lemma HalfDoneMore(before: Configs, now: Configs, todo: set<Place>, left: set<Place>, after: Configs, p: Place)
    requires before.Keys == after.Keys && HalfDone(before, now, todo, left, after) && p in left
    ensures now[p] == before[p]
    ensures HalfDone(before, now[p := after[p]], todo, left - {p}, after)
  {
  }

  /** Only these places are rewritten, and all are. */
  lemma AllDone(before: Configs, now: Configs, todo: set<Place>, after: Configs, changes: seq<KeyChange>)
    requires before.Keys == after.Keys && HalfDone(before, now, todo, {}, after) && Lists(changes, before, now)
    requires forall p :: p in before && p !in todo ==> after[p] == before[p]
    ensures now == after && Reports(changes, before, now)
  {
    if changes == [] { NothingListed(before, now); }
  }

  lemma RemovingAt(py: Python, step: Step, lab: Lab)
    requires DropsKeys(step)
    ensures var after := Apply(py, step, lab).configs;
            && after.Keys == lab.configs.Keys
            && forall p :: p in after ==>
                 after[p] == if OfAddon(p, Target(step)) then Current(py, step, lab.configs[p]) else lab.configs[p]
  {
  }

  lemma RancherAt(py: Python, lab: Lab, section: Config)
    requires section == WithStable(py, Section(lab.configs, "rancher"), map[])
    ensures var after := Apply(py, Rancher, lab).configs;
            && after.Keys == lab.configs.Keys
            && forall p :: p in after ==>
                 after[p] == if p == Top("rancher") then section
                             else if OfAddon(p, "rancher") then WithStable(py, lab.configs[p], section)
                             else lab.configs[p]
  {
    assert Section(Part(lab.configs, "rancher"), "rancher") == Section(lab.configs, "rancher");
    RestAndPart(lab.configs, "rancher", Run(py, Rancher, lab.mentions, Part(lab.configs, "rancher")));
  }

  /** A part rewritten key by key, beside the rest. */
  lemma RestAndPart(configs: Configs, target: string, part: Configs)
    requires part.Keys == Part(configs, target).Keys
    ensures (Rest(configs, target) + part).Keys == configs.Keys
    ensures forall p :: p in configs ==>
              (Rest(configs, target) + part)[p] == if TargetOf(p) == target then part[p] else configs[p]
  {
  }

  lemma PortsAt(py: Python, lab: Lab)
    ensures var after := Apply(py, OpenPorts, lab).configs;
            && after.Keys == lab.configs.Keys
            && forall p :: p in after ==>
                 after[p] == if p == Top("common") || p.NodeKeys? then WithPortLists(lab.configs[p]) else lab.configs[p]
  {
  }

  lemma SourceAt(py: Python, lab: Lab, name: string, prefix: string)
    ensures var section, key := Section(lab.configs, name), SourceKey(name, prefix);
            Apply(py, DefaultSource(name, prefix), lab).configs ==
            if (Top(name) in lab.configs || name in lab.mentions) && key !in section
            then lab.configs[Top(name) := section[key := Text("upstream")]]
            else lab.configs
  {
    assert Section(Part(lab.configs, name), name) == Section(lab.configs, name);
  }

  lemma OneAdded(before: Configs, p: Place, section: Config, key: string, v: Value)
    requires section == (if p in before then before[p] else map[]) && key !in section
    ensures Reports([KeyChange(p, key)], before, before[p := section[key := v]])
  {
    var after := before[p := section[key := v]];
    forall c ensures c in [KeyChange(p, key)] <==> At(before, c) != At(after, c) {
      if c.place != p { assert At(before, c) == At(after, c); }
    }
  }

  method OutdatedKeys(py: Python, step: Step, cfg: Config) returns (now: Config, gone: seq<string>)
    requires DropsKeys(step)
    ensures now == Current(py, step, cfg) && Edits(cfg, now, gone)
  {
    match step {
      case DropKeys(name, keys) => now, gone := DropEach(py, name, cfg, keys);
      case Linkerd => now, gone := LinkerdKeys(py, cfg);
      case Keycloak => now, gone := KeycloakKeys(py, cfg);
      case ComplianceAsCode => now, gone := ComplianceKeys(py, cfg);
      case Trento => now, gone := TrentoKeys(py, cfg);
    }
  }

  /** A lab definition that is being migrated. */
  class LabFile {
    const py: Python
    const mentions: set<string>
    var configs: Configs
    var versions: map<string, string>

    constructor (py: Python, lab: Lab)
      ensures this.py == py && State() == lab
    {
      this.py := py;
      mentions, configs, versions := lab.mentions, lab.configs, lab.versions;
    }

    function State(): Lab
      reads this
    {
      Lab(configs, mentions, versions)
    }

    /** Rewrites one mapping, not rewritten before, and reports it. */
    method Rewrite(ghost before: Configs, p: Place, now: Config, keys: seq<string>, changes: seq<KeyChange>)
      returns (all: seq<KeyChange>)
      requires Lists(changes, before, configs) && p in before && p in configs && configs[p] == before[p]
      requires Edits(before[p], now, keys)
      modifies this`configs
      ensures configs == old(configs)[p := now]
      ensures Lists(all, before, configs)
    {
      ListsMore(changes, before, configs, p, now, keys);
      configs, all := configs[p := now], changes + ChangesAt(p, keys);
    }

    /** The loop over the section and the overrides of the add-on. */
    method RemoveEach(step: Step, ghost after: Configs) returns (changes: seq<KeyChange>)
      requires DropsKeys(step) && after.Keys == configs.Keys
      requires forall p :: p in after ==>
                 after[p] == if OfAddon(p, Target(step)) then Current(py, step, configs[p]) else configs[p]
      modifies this`configs
      ensures configs == after && Reports(changes, old(configs), configs)
    {
      ghost var before := configs;
      var todo := set p | p in configs && OfAddon(p, Target(step));
      var left := todo;
      changes := [];
      while left != {}
        invariant HalfDone(before, configs, todo, left, after) && Lists(changes, before, configs)
        decreases left
      {
        var p :| p in left;
        HalfDoneMore(before, configs, todo, left, after, p);
        var now, gone := OutdatedKeys(py, step, configs[p]);
        changes := Rewrite(before, p, now, gone, changes);
        left := left - {p};
      }
      AllDone(before, configs, todo, after, changes);
    }

    /** rancher_2_0: the section first, then each override over the section as it is by then. */
    method WriteRancherDefaults(ghost after: Configs) returns (changes: seq<KeyChange>)
      requires after.Keys == configs.Keys
      requires var section := WithStable(py, Section(configs, "rancher"), map[]);
               forall p :: p in after ==>
                 after[p] == if p == Top("rancher") then section
                             else if OfAddon(p, "rancher") then WithStable(py, configs[p], section)
                             else configs[p]
      modifies this`configs
      ensures configs == after && Reports(changes, old(configs), configs)
    {
      ghost var before := configs;
      var todo := set p | p in configs && OfAddon(p, "rancher");
      var left := todo;
      changes := [];
      if Top("rancher") in configs {
        HalfDoneMore(before, configs, todo, left, after, Top("rancher"));
        var now, written := RancherKeys(py, configs[Top("rancher")], map[]);
        changes := Rewrite(before, Top("rancher"), now, written, changes);
        left := left - {Top("rancher")};
      }
      var section := Section(configs, "rancher");
      while left != {}
        invariant HalfDone(before, configs, todo, left, after) && Lists(changes, before, configs)
        invariant Top("rancher") !in left
        decreases left
      {
        var p :| p in left;
        HalfDoneMore(before, configs, todo, left, after, p);
        var now, written := RancherKeys(py, configs[p], section);
        changes := Rewrite(before, p, now, written, changes);
        left := left - {p};
      }
      AllDone(before, configs, todo, after, changes);
    }

    /** open_ports_2_0 */
    method ListPorts(ghost after: Configs) returns (changes: seq<KeyChange>)
      requires after.Keys == configs.Keys
      requires forall p :: p in after ==>
                 after[p] == if p == Top("common") || p.NodeKeys? then WithPortLists(configs[p]) else configs[p]
      modifies this`configs
      ensures configs == after && Reports(changes, old(configs), configs)
    {
      ghost var before := configs;
      var todo := set p | p in configs && (p == Top("common") || p.NodeKeys?);
      var left := todo;
      changes := [];
      while left != {}
        invariant HalfDone(before, configs, todo, left, after) && Lists(changes, before, configs)
        decreases left
      {
        var p :| p in left;
        HalfDoneMore(before, configs, todo, left, after, p);
        var now, written := ListKeys(configs[p], ["open_ports", "aws_open_ports"]);
        changes := Rewrite(before, p, now, written, changes);
        left := left - {p};
      }
      AllDone(before, configs, todo, after, changes);
    }

    /** The step of an add-on whose chart's source has a new default. */
    method NameSource(name: string, prefix: string) returns (changes: seq<KeyChange>)
      modifies this`configs
      ensures State() == Apply(py, DefaultSource(name, prefix), old(State())) && Reports(changes, old(configs), configs)
    {
      SourceAt(py, State(), name, prefix);
      var used := Top(name) in configs || name in mentions;
      if !used { return []; }
      var section := Section(configs, name);
      var key := SourceKey(name, prefix);
      if key in section { return []; }
      OneAdded(configs, Top(name), section, key, Text("upstream"));
      configs := configs[Top(name) := section[key := Text("upstream")]];
      changes := [KeyChange(Top(name), key)];
    }

    /** MIGRATIONS[step](data) */
    method Do(step: Step) returns (changes: seq<KeyChange>)
      modifies this`configs
      ensures State() == Apply(py, step, old(State())) && Reports(changes, old(configs), configs)
    {
      ghost var after := Apply(py, step, State()).configs;
      match step {
        case Rancher =>
          RancherAt(py, State(), WithStable(py, Section(configs, "rancher"), map[]));
          changes := WriteRancherDefaults(after);
        case OpenPorts =>
          PortsAt(py, State());
          changes := ListPorts(after);
        case DefaultSource(name, prefix) =>
          changes := NameSource(name, prefix);
        case _ =>
          RemovingAt(py, step, State());
          changes := RemoveEach(step, after);
      }
    }
  }
}
