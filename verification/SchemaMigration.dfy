/**
 Which migration steps a lab definition still needs, running them, and recording the versions it then has.

 The schemas of a definition are taken in any order that lists each once; the program sorts them.
 */
module SchemaMigration {
  import opened Decimal
  import opened Json
  import opened Migrations
  import SchemaCompatibility
  import opened SchemaValidate
  import opened SchemaVersions
  import opened Text
  import opened Wrappers

  type Record = map<string, seq<Entry>>
  type Registry = map<string, Step>

  // ----- the registered steps -----

  function LiteLlm(name: string): Step {
    DropKeys(name, [name + "_rel", name + "_repo_url"])
  }

  /** MIGRATIONS, ordered by what the steps rewrite */
  function Registered(): seq<(string, Step)> {
    [("anthropic_2_0", LiteLlm("anthropic")),
     ("appcollection_2_0", DropKeys("appcollection", ["appcollection_rel", "appcollection_repo_url"])),
     ("argocd_2_0", DefaultSource("argocd", "")),
     ("open_ports_2_0", OpenPorts),
     ("complianceascode_2_0", ComplianceAsCode),
     ("coredns_2_0", DefaultSource("coredns", "")),
     ("fluentd_2_0", DefaultSource("fluentd", "")),
     ("gemini_2_0", LiteLlm("gemini")),
     ("harbor_2_0", DefaultSource("harbor", "")),
     ("kagent_2_0", DropKeys("kagent", ["kagent_rel", "kagent_repo_url"])),
     ("keycloak_2_0", Keycloak),
     ("kimi_2_0", LiteLlm("kimi")),
     ("linkerd_2_0", Linkerd),
     ("longhorn_2_0", DefaultSource("longhorn", "lh")),
     ("milvus_2_0", DefaultSource("milvus", "")),
     ("ollama_2_0", DefaultSource("ollama", "")),
     ("openai_2_0", LiteLlm("openai")),
     ("open_webui_2_0", DefaultSource("open_webui", "")),
     ("postgresql_2_0", DropKeys("postgresql", ["postgresql_rel", "postgresql_repo_url", "postgresql_version"])),
     ("rancher_2_0", Rancher),
     ("traefik_2_0", DefaultSource("traefik", "")),
     ("trento_2_0", Trento)]
  }

  function ByStepName(entries: seq<(string, Step)>): Registry {
    if entries == [] then map[]
    else
      var (name, step) := entries[|entries| - 1];
      ByStepName(entries[..|entries| - 1])[name := step]
  }

  /** No two registered steps rewrite the same add-on. */
  predicate Distinct(registry: Registry) {
    forall a, b :: a in registry && b in registry && Target(registry[a]) == Target(registry[b]) ==>
      registry[a] == registry[b]
  }

  /** A number for a name: its first four characters and its length. */
  function Code(s: string): nat {
    if |s| < 4 then 0
    else (((s[0] as nat * 128 + s[1] as nat) * 128 + s[2] as nat) * 128 + s[3] as nat) * 32 + |s|
  }

  predicate Rising(codes: seq<nat>) {
    forall i :: 0 < i < |codes| ==> codes[i - 1] < codes[i]
  }

  function Codes(entries: seq<(string, Step)>): seq<nat> {
    seq(|entries|, i requires 0 <= i < |entries| => Code(Target(entries[i].1)))
  }

  lemma CodesAToF()
    ensures Code("anthropic") == 6567709961
    ensures Code("appcollection") == 6568741997
    ensures Code("argocd") == 6569754086
    ensures Code("common") == 6702423462
    ensures Code("complianceascode") == 6702423568
    ensures Code("coredns") == 6702443687
    ensures Code("fluentd") == 6902209703
  {
  }

  lemma CodesGToL()
    ensures Code("gemini") == 6965615910
    ensures Code("harbor") == 7030647878
    ensures Code("kagent") == 7231929510
    ensures Code("keycloak") == 7234100328
    ensures Code("kimi") == 7236148516
    ensures Code("linkerd") == 7303261543
    ensures Code("longhorn") == 7306407144
  {
  }

  lemma CodesMToT()
    ensures Code("milvus") == 7370362566
    ensures Code("ollama") == 7506152486
    ensures Code("openai") == 7508221382
    ensures Code("open_webui") == 7508221386
    ensures Code("postgresql") == 7574863498
    ensures Code("rancher") == 7701720167
    ensures Code("traefik") == 7844797607
    ensures Code("trento") == 7844814278
  {
  }

  lemma CodesRise()
    ensures Rising(Codes(Registered()))
  {
    CodesAToF();
    CodesGToL();
    CodesMToT();
  }

  lemma {:induction false} RisingOrder(codes: seq<nat>, i: nat, j: nat)
    requires Rising(codes) && i < j < |codes|
    ensures codes[i] < codes[j]
  {
    if i < j - 1 { RisingOrder(codes, i, j - 1); }
  }

  lemma {:induction false} NamedStepIsListed(entries: seq<(string, Step)>, name: string) returns (i: nat)
    requires name in ByStepName(entries)
    ensures i < |entries| && ByStepName(entries)[name] == entries[i].1
  {
    var last := |entries| - 1;
    if entries[last].0 == name { return last; }
    i := NamedStepIsListed(entries[..last], name);
  }

  /** Every registered step rewrites an add-on of its own. */
  lemma RegistryDistinct()
    ensures Distinct(ByStepName(Registered()))
  {
    CodesRise();
    RisingIsDistinct(Registered());
  }

  lemma RisingIsDistinct(entries: seq<(string, Step)>)
    requires Rising(Codes(entries))
    ensures Distinct(ByStepName(entries))
  {
    var registry := ByStepName(entries);
    forall a, b | a in registry && b in registry && Target(registry[a]) == Target(registry[b])
      ensures registry[a] == registry[b]
    {
      var i := NamedStepIsListed(entries, a);
      var j := NamedStepIsListed(entries, b);
      assert Codes(entries)[i] == Codes(entries)[j];
      if i < j { RisingOrder(Codes(entries), i, j); }
      if j < i { RisingOrder(Codes(entries), j, i); }
    }
  }

  // ----- versions -----

  /** version.split(".") */
  function SplitDots(s: string): (parts: seq<string>)
    ensures parts != []
  {
    if s == [] then [[]]
    else
      var rest := SplitDots(s[1..]);
      if s[0] == '.' then [[]] + rest else [[s[0]] + rest[0]] + rest[1..]
  }

  function ReadAll(parts: seq<string>): Option<seq<int>> {
    if parts == [] then Some([])
    else
      match ReadInt(Strip(parts[0]))
      case None => None
      case Some(n) =>
        match ReadAll(parts[1..])
        case None => None
        case Some(ns) => Some([n] + ns)
  }

  /** _version_key(), or None where it raises */
  function VersionKey(s: string): Option<seq<int>> {
    ReadAll(SplitDots(s))
  }

  /** a < b, as Python compares tuples */
  predicate Before(a: seq<int>, b: seq<int>) {
    if b == [] then false
    else if a == [] then true
    else a[0] < b[0] || (a[0] == b[0] && Before(a[1..], b[1..]))
  }

  /** a is shorter and b goes on from it, or they part at k and a has the smaller number there. */
  predicate Parts(a: seq<int>, b: seq<int>, k: nat) {
    && k <= |a| && k < |b| && a[..k] == b[..k]
    && (k == |a| || a[k] < b[k])
  }

  /** The order of tuples, by the place where they part. */
  lemma {:induction false} BeforeParts(a: seq<int>, b: seq<int>)
    ensures Before(a, b) <==> exists k: nat :: Parts(a, b, k)
  {
    if a != [] && b != [] && a[0] == b[0] {
      BeforeParts(a[1..], b[1..]);
      if k: nat :| Parts(a[1..], b[1..], k) {
        assert a[..k + 1] == [a[0]] + a[1..][..k] && b[..k + 1] == [b[0]] + b[1..][..k];
        assert Parts(a, b, k + 1);
      }
      if k: nat :| Parts(a, b, k) {
        PartsLater(a, b, k);
      }
    } else {
      PartsAtOnce(a, b);
    }
  }

  lemma {:induction false} PartsLater(a: seq<int>, b: seq<int>, k: nat)
    requires a != [] && b != [] && a[0] == b[0] && Parts(a, b, k)
    ensures k > 0 && Parts(a[1..], b[1..], k - 1)
  {
    assert a[1..][..k - 1] == a[..k][1..] && b[1..][..k - 1] == b[..k][1..];
  }

  lemma {:induction false} PartsAtOnce(a: seq<int>, b: seq<int>)
    requires a == [] || b == [] || a[0] != b[0]
    ensures Before(a, b) <==> exists k: nat :: Parts(a, b, k)
  {
    if Before(a, b) { assert Parts(a, b, 0); }
    forall k: nat { PartsHead(a, b, k); }
  }

  lemma {:induction false} PartsHead(a: seq<int>, b: seq<int>, k: nat)
    ensures k > 0 && Parts(a, b, k) ==> a != [] && b != [] && a[0] == b[0]
  {
    if k > 0 && Parts(a, b, k) { assert a[..k][0] == a[0] && b[..k][0] == b[0]; }
  }

  lemma {:induction false} SplitAtDot(a: string, b: string)
    requires AllDigits(a)
    ensures SplitDots(a + (['.'] + b)) == [a] + SplitDots(b)
  {
    var s := a + (['.'] + b);
    if a == [] {
      assert s[1..] == b;
    } else {
      assert s[1..] == a[1..] + (['.'] + b);
      SplitAtDot(a[1..], b);
      assert [a[0]] + a[1..] == a;
    }
  }

  lemma {:induction false} SplitLine(s: string, tail: string)
    requires AllDigits(s) && (tail == "" || tail == "\n")
    ensures SplitDots(s + tail) == [s + tail]
  {
    var t := s + tail;
    if s == [] {
      assert t == tail;
      if tail != "" {
        assert SplitDots(tail[1..]) == [[]];
        assert [tail[0]] + [] == tail;
      }
    } else {
      assert t[1..] == s[1..] + tail;
      SplitLine(s[1..], tail);
      assert [t[0]] + t[1..] == t;
    }
  }

  lemma ReadMore(parts: seq<string>, first: int, rest: seq<int>)
    requires parts != [] && ReadInt(Strip(parts[0])) == Some(first) && ReadAll(parts[1..]) == Some(rest)
    ensures ReadAll(parts) == Some([first] + rest)
  {
  }

  lemma ReadTwo(p: string, q: string, a: int, b: int)
    requires ReadInt(Strip(p)) == Some(a) && ReadInt(Strip(q)) == Some(b)
    ensures ReadAll([p] + [q]) == Some([a, b])
  {
    assert [q][1..] == [] && ([p] + [q])[1..] == [q];
    ReadMore([q], b, []);
    assert [b] + [] == [b] && [a] + [b] == [a, b];
    ReadMore([p] + [q], a, [b]);
  }

  lemma KeyOfParts(a: string, b: string, tail: string)
    requires AllDigits(a) && AllDigits(b) && a != [] && b != [] && (tail == "" || tail == "\n")
    ensures VersionKey(a + (['.'] + (b + tail))) == Some([Read(a), Read(b)])
  {
    SplitAtDot(a, b + tail);
    SplitLine(b, tail);
    assert a + "" == a;
    StripDigits(a, "");
    StripDigits(b, tail);
    ReadIntDigits(a);
    ReadIntDigits(b);
    ReadTwo(a, b + tail, Read(a), Read(b));
  }

  lemma DotBetween(t: string, n: nat, tail: string)
    requires n < |t| && t[n] == '.'
    ensures t + tail == t[..n] + (['.'] + (t[n + 1..] + tail))
  {
    assert t == t[..n] + ['.'] + t[n + 1..];
  }

  /** The two ways the program reads a version agree. */
  lemma KeyOfVersion(s: string)
    requires ParseVersion(s).Some?
    ensures VersionKey(s) == Some([ParseVersion(s).value.0, ParseVersion(s).value.1])
  {
    var tail := if s != [] && s[|s| - 1] == '\n' then "\n" else "";
    var t := s[..|s| - |tail|];
    var n := LeadingDigits(t);
    assert t == if s != [] && s[|s| - 1] == '\n' then s[..|s| - 1] else s;
    DotBetween(t, n, tail);
    assert s == t + tail;
    KeyOfParts(t[..n], t[n + 1..], tail);
  }

  // ----- what is pending -----

  const BASE_SECTIONS: set<string> := {"common", "nodes", "disabled_nodes", "kclusters", "cluster", "pxe"}

  function TopNames(configs: Configs): set<string> {
    set p | p in configs && p.Top? :: p.name
  }

  /** schemas_of(), as a set */
  function SchemasOf(lab: Lab): set<string> {
    {"lab"} + set n | n in (lab.mentions + TopNames(lab.configs)) - BASE_SECTIONS - {"schema_versions"} :: "addon:" + n
  }

  /** The schemas in some order, each once. */
  predicate InOrder(order: seq<string>, schemas: set<string>) {
    && (forall s :: s in order ==> s in schemas) && (forall s :: s in schemas ==> s in order)
    && NoRepeats(order)
  }

  /** A migration that a file still needs. */
  datatype Due = Due(schema: string, version: string, step: string)

  /** A definition without a recorded version counts as written for 1.0. */
  function Have(lab: Lab, schema: string): Option<seq<int>> {
    VersionKey(if schema in lab.versions then lab.versions[schema] else "1.0")
  }

  predicate Readable(entry: Entry) {
    entry.HasStep() ==> VersionKey(entry.version).Some?
  }

  predicate IsDue(entry: Entry, have: seq<int>)
    requires Readable(entry)
  {
    entry.HasStep() && Before(have, VersionKey(entry.version).value)
  }

  /** The entries of a schema that are newer than what the file has; None where a version cannot be read. */
  function DueOf(schema: string, entries: seq<Entry>, have: seq<int>): Option<seq<Due>> {
    if entries == [] then Some([])
    else
      var last := entries[|entries| - 1];
      match DueOf(schema, entries[..|entries| - 1], have)
      case None => None
      case Some(dues) =>
        if !Readable(last) then None
        else if IsDue(last, have) then Some(dues + [Due(schema, last.version, last.migration.value)])
        else Some(dues)
  }

  /** pending(), over the schemas listed */
  function Pending(lab: Lab, record: Record, order: seq<string>): Option<seq<Due>> {
    if order == [] then Some([])
    else
      var schema := order[|order| - 1];
      match Pending(lab, record, order[..|order| - 1])
      case None => None
      case Some(dues) =>
        match Have(lab, schema)
        case None => None
        case Some(have) =>
          match DueOf(schema, EntriesOf(record, schema), have)
          case None => None
          case Some(more) => Some(dues + more)
  }

  lemma DueNext(schema: string, entries: seq<Entry>, have: seq<int>, k: nat)
    requires k < |entries| && DueOf(schema, entries[..k], have).Some?
    ensures DueOf(schema, entries[..k + 1], have) ==
            var (dues, entry) := (DueOf(schema, entries[..k], have).value, entries[k]);
            if !Readable(entry) then None
            else if IsDue(entry, have) then Some(dues + [Due(schema, entry.version, entry.migration.value)])
            else Some(dues)
  {
    assert entries[..k + 1][..k] == entries[..k];
  }

  method DueSteps(schema: string, entries: seq<Entry>, have: seq<int>) returns (out: Option<seq<Due>>)
    ensures out == DueOf(schema, entries, have)
  {
    var dues := [];
    for k := 0 to |entries|
      invariant DueOf(schema, entries[..k], have) == Some(dues)
    {
      DueNext(schema, entries, have, k);
      if !Readable(entries[k]) {
        UnreadableEntry(schema, entries, have, k + 1);
        return None;
      }
      if IsDue(entries[k], have) {
        dues := dues + [Due(schema, entries[k].version, entries[k].migration.value)];
      }
    }
    assert entries[..|entries|] == entries;
    out := Some(dues);
  }

  method PendingSteps(lab: Lab, record: Record, order: seq<string>) returns (out: Option<seq<Due>>)
    ensures out == Pending(lab, record, order)
  {
    var dues := [];
    for i := 0 to |order|
      invariant Pending(lab, record, order[..i]) == Some(dues)
    {
      assert order[..i + 1][..i] == order[..i];
      var have := Have(lab, order[i]);
      if have == None {
        UnreadableStays(lab, record, order, i + 1);
        return None;
      }
      var more := DueSteps(order[i], EntriesOf(record, order[i]), have.value);
      if more == None {
        UnreadableStays(lab, record, order, i + 1);
        return None;
      }
      dues := dues + more.value;
    }
    assert order[..|order|] == order;
    out := Some(dues);
  }

  lemma {:induction false} UnreadableEntry(schema: string, entries: seq<Entry>, have: seq<int>, n: nat)
    requires n <= |entries| && DueOf(schema, entries[..n], have) == None
    ensures DueOf(schema, entries, have) == None
    decreases |entries|
  {
    if n < |entries| {
      assert entries[..|entries| - 1][..n] == entries[..n];
      UnreadableEntry(schema, entries[..|entries| - 1], have, n);
    } else {
      assert entries[..n] == entries;
    }
  }

  lemma {:induction false} UnreadableStays(lab: Lab, record: Record, order: seq<string>, n: nat)
    requires n <= |order| && Pending(lab, record, order[..n]) == None
    ensures Pending(lab, record, order) == None
    decreases |order|
  {
    if n < |order| {
      assert order[..|order| - 1][..n] == order[..n];
      UnreadableStays(lab, record, order[..|order| - 1], n);
    } else {
      assert order[..n] == order;
    }
  }

  // ----- migrating and stamping -----

  predicate Known(dues: seq<Due>, registry: Registry) {
    forall i :: 0 <= i < |dues| ==> dues[i].step in registry
  }

  function StepsOf(dues: seq<Due>, registry: Registry): (steps: seq<Step>)
    requires Known(dues, registry)
    ensures |steps| == |dues| && forall i :: 0 <= i < |dues| ==> steps[i] == registry[dues[i].step]
  {
    seq(|dues|, i requires 0 <= i < |dues| => registry[dues[i].step])
  }

  /** What migrate() makes of a definition, when it does not raise. */
  function Migrated(py: Python, lab: Lab, dues: seq<Due>, registry: Registry): Lab
    requires Known(dues, registry)
  {
    ApplyAll(py, StepsOf(dues, registry), lab)
  }

  /** stamp() */
  function Stamped(lab: Lab, record: Record): Lab {
    lab.(versions := map s | s in SchemasOf(lab) && EntriesOf(record, s) != [] ::
                       EntriesOf(record, s)[|EntriesOf(record, s)| - 1].version)
  }

  /** The first i steps that are due were run, and whether none of them changed anything. */
  ghost predicate Ran(py: Python, before: Lab, now: Lab, dues: seq<Due>, i: nat, registry: Registry, quiet: bool) {
    && i <= |dues| && Known(dues[..i], registry)
    && now == Migrated(py, before, dues[..i], registry)
    && (quiet <==> Quiet(py, StepsOf(dues[..i], registry), before))
  }

  /** Runs one due step and adds its changes to those made before. */
  method RunDue(file: LabFile, ghost before: Lab, dues: seq<Due>, i: nat, registry: Registry,
                made: seq<(Due, KeyChange)>)
    returns (more: seq<(Due, KeyChange)>)
    requires i < |dues| && dues[i].step in registry &&
             Ran(file.py, before, file.State(), dues, i, registry, |made| == 0)
    modifies file`configs
    ensures Ran(file.py, before, file.State(), dues, i + 1, registry, |more| == 0)
  {
    DueMore(file.py, before, dues, i, registry);
    var changes := file.Do(registry[dues[i].step]);
    if changes != [] { assert changes[0] in changes; }
    NoneOfBoth(made, Labelled(dues[i], changes));
    more := made + Labelled(dues[i], changes);
  }

  /** Runs the steps that are due, up to the first that is not registered. */
  method RunDues(file: LabFile, ghost before: Lab, dues: seq<Due>, registry: Registry)
    returns (changes: Option<seq<(Due, KeyChange)>>)
    requires Ran(file.py, before, file.State(), dues, 0, registry, true)
    modifies file`configs
    ensures changes.Some? ==> Ran(file.py, before, file.State(), dues, |dues|, registry, |changes.value| == 0)
    ensures changes == None ==> exists i :: 0 <= i < |dues| && dues[i].step !in registry
  {
    var made := [];
    for i := 0 to |dues|
      invariant Ran(file.py, before, file.State(), dues, i, registry, |made| == 0)
    {
      if dues[i].step !in registry { return None; }
      made := RunDue(file, before, dues, i, registry, made);
    }
    changes := Some(made);
  }

  lemma AllRan(py: Python, before: Lab, now: Lab, dues: seq<Due>, registry: Registry, quiet: bool)
    requires Ran(py, before, now, dues, |dues|, registry, quiet)
    ensures Known(dues, registry) && now == Migrated(py, before, dues, registry)
    ensures quiet <==> Quiet(py, StepsOf(dues, registry), before)
  {
    assert dues[..|dues|] == dues;
  }

  lemma NothingDone(py: Python, lab: Lab, dues: seq<Due>, registry: Registry)
    ensures Ran(py, lab, lab, dues, 0, registry, true)
  {
  }

  lemma NoneOfBoth<T>(a: seq<T>, b: seq<T>)
    ensures |a + b| == 0 <==> |a| == 0 && |b| == 0
  {
  }

  function Labelled(due: Due, changes: seq<KeyChange>): (r: seq<(Due, KeyChange)>)
    ensures |r| == |changes|
  {
    seq(|changes|, k requires 0 <= k < |changes| => (due, changes[k]))
  }

  lemma DueMore(py: Python, lab: Lab, dues: seq<Due>, i: nat, registry: Registry)
    requires i < |dues| && Known(dues[..i], registry) && dues[i].step in registry
    ensures Known(dues[..i + 1], registry)
    ensures var now, step := Migrated(py, lab, dues[..i], registry), registry[dues[i].step];
            && Migrated(py, lab, dues[..i + 1], registry) == Apply(py, step, now)
            && (Quiet(py, StepsOf(dues[..i + 1], registry), lab) <==>
                Quiet(py, StepsOf(dues[..i], registry), lab) && Apply(py, step, now) == now)
  {
    var steps, step := StepsOf(dues[..i], registry), registry[dues[i].step];
    assert Known(dues[..i + 1], registry) by {
      assert dues[..i + 1] == dues[..i] + [dues[i]];
    }
    StepsMore(dues, i, registry);
    QuietMore(py, steps, step, lab);
  }

  lemma StepsMore(dues: seq<Due>, i: nat, registry: Registry)
    requires i < |dues| && Known(dues[..i], registry) && Known(dues[..i + 1], registry)
    ensures dues[i].step in registry
    ensures StepsOf(dues[..i + 1], registry) == StepsOf(dues[..i], registry) + [registry[dues[i].step]]
  {
    assert dues[..i + 1][i] == dues[i];
    forall k | 0 <= k < i ensures dues[..i + 1][k] == dues[..i][k] {}
  }

  /** migrate(): the changes made, or None where it raises */
  method Migrate(file: LabFile, record: Record, registry: Registry, order: seq<string>)
    returns (changes: Option<seq<(Due, KeyChange)>>)
    requires Distinct(registry)
    modifies file`configs
    ensures changes.Some? <==>
            Pending(old(file.State()), record, order).Some? &&
              Known(Pending(old(file.State()), record, order).value, registry)
    ensures changes.Some? ==>
              && file.State() ==
                 Migrated(file.py, old(file.State()), Pending(old(file.State()), record, order).value, registry)
              && (changes.value == [] <==> file.State() == old(file.State()))
  {
    var dues := PendingSteps(file.State(), record, order);
    if dues == None { return None; }
    ghost var before := file.State();
    NothingDone(file.py, before, dues.value, registry);
    changes := RunDues(file, before, dues.value, registry);
    if changes.Some? {
      AllRan(file.py, before, file.State(), dues.value, registry, |changes.value| == 0);
      QuietDues(file.py, before, dues.value, registry);
    }
  }

  lemma QuietDues(py: Python, lab: Lab, dues: seq<Due>, registry: Registry)
    requires Distinct(registry) && Known(dues, registry)
    ensures Quiet(py, StepsOf(dues, registry), lab) <==> Migrated(py, lab, dues, registry) == lab
  {
    RegisteredCoherent(dues, registry);
    QuietIffUnchanged(py, StepsOf(dues, registry), lab);
  }

  /** stamp() */
  method Stamp(file: LabFile, record: Record)
    modifies file`versions
    ensures file.State() == Stamped(old(file.State()), record)
  {
    var schemas := SchemasOf(file.State());
    file.versions := map s | s in schemas && EntriesOf(record, s) != [] ::
      EntriesOf(record, s)[|EntriesOf(record, s)| - 1].version;
  }

  lemma QuietMore(py: Python, steps: seq<Step>, step: Step, lab: Lab)
    ensures var now := ApplyAll(py, steps, lab);
            && ApplyAll(py, steps + [step], lab) == Apply(py, step, now)
            && (Quiet(py, steps + [step], lab) <==> Quiet(py, steps, lab) && Apply(py, step, now) == now)
  {
    var more := steps + [step];
    assert more[..|steps|] == steps;
    forall i | 0 <= i < |steps| ensures more[..i] == steps[..i] && more[i] == steps[i] {}
    if Quiet(py, more, lab) {
      forall i | 0 <= i < |steps|
        ensures Apply(py, steps[i], ApplyAll(py, steps[..i], lab)) == ApplyAll(py, steps[..i], lab)
      {
        assert Apply(py, more[i], ApplyAll(py, more[..i], lab)) == ApplyAll(py, more[..i], lab);
      }
    }
  }

  lemma RegisteredCoherent(dues: seq<Due>, registry: Registry)
    requires Distinct(registry) && Known(dues, registry)
    ensures Coherent(StepsOf(dues, registry))
  {
  }

  /** needed_changes(): what migrate() does to a copy */
  method NeededChanges(py: Python, lab: Lab, record: Record, registry: Registry, order: seq<string>)
    returns (changes: Option<seq<(Due, KeyChange)>>)
    requires Distinct(registry)
    ensures changes.Some? <==> Pending(lab, record, order).Some? && Known(Pending(lab, record, order).value, registry)
    ensures changes.Some? ==>
              (changes.value == [] <==> Migrated(py, lab, Pending(lab, record, order).value, registry) == lab)
  {
    var copy := new LabFile(py, lab);
    changes := Migrate(copy, record, registry, order);
  }

  // ----- what a sound record guarantees of a run -----

  /** Both texts are versions, the first the older one. */
  predicate OlderText(a: string, b: string) {
    ParseVersion(a).Some? && ParseVersion(b).Some? && Older(ParseVersion(a).value, ParseVersion(b).value)
  }

  /** The versions of a schema are in strictly rising order, and their steps are registered. */
  predicate Orderly(entries: seq<Entry>, steps: Steps) {
    && (forall i :: 0 <= i < |entries| ==> ParseVersion(entries[i].version).Some?)
    && (forall i, j :: 0 <= i < j < |entries| ==> OlderText(entries[i].version, entries[j].version))
    && (forall i :: 0 <= i < |entries| && entries[i].HasStep() ==> entries[i].migration.value in steps)
  }

  predicate OrderlyRecord(record: Record, steps: Steps) {
    forall schema :: schema in record ==> Orderly(record[schema], steps)
  }

  lemma SoundIsOrderly(store: Store, name: string, entries: seq<Entry>, steps: Steps)
    requires EntriesSound(store, name, entries, steps)
    ensures Orderly(entries, steps)
  {
    forall i | 0 <= i < |entries|
      ensures ParseVersion(entries[i].version).Some? && (entries[i].HasStep() ==> entries[i].migration.value in steps)
    {
      assert SoundAt(store, name, entries, steps, i);
    }
    forall i, j | 0 <= i < j < |entries| ensures OlderText(entries[i].version, entries[j].version) {
      SchemaCompatibility.VersionsIncrease(store, name, entries, steps, i, j);
    }
  }

  lemma CheckedIsOrderly(store: Store, current: map<string, Snapshot>, record: Record, steps: Steps)
    requires RecordSound(store, current, record, steps)
    ensures OrderlyRecord(record, steps)
  {
    forall schema | schema in record ensures Orderly(record[schema], steps) {
      assert SchemaSound(store, schema, current[schema], EntriesOf(record, schema), steps);
      SoundIsOrderly(store, schema, record[schema], steps);
    }
  }

  lemma BeforeTwo(p: Version, q: Version)
    ensures Before([p.0, p.1], [q.0, q.1]) <==> Older(p, q)
  {
    assert [p.0, p.1][1..] == [p.1] && [q.0, q.1][1..] == [q.1];
    assert [p.1][1..] == [] && [q.1][1..] == [];
    assert !Before([], []);
    assert Before([p.1], [q.1]) <==> p.1 < q.1;
  }

  lemma BeforeIsOlder(a: string, b: string)
    requires ParseVersion(a).Some? && ParseVersion(b).Some?
    ensures VersionKey(a).Some? && VersionKey(b).Some?
    ensures Before(VersionKey(a).value, VersionKey(b).value) <==> OlderText(a, b)
  {
    KeyOfVersion(a);
    KeyOfVersion(b);
    BeforeTwo(ParseVersion(a).value, ParseVersion(b).value);
  }

  /** The due step comes from an entry of its schema that is newer than what the file has. */
  predicate ComesFrom(due: Due, schema: string, entries: seq<Entry>, have: seq<int>) {
    && due.schema == schema
    && exists i :: 0 <= i < |entries| && entries[i].HasStep()
                   && entries[i].version == due.version && entries[i].migration == Some(due.step)
                   && VersionKey(due.version).Some? && Before(have, VersionKey(due.version).value)
  }

  predicate RisingDues(dues: seq<Due>) {
    forall i, j :: 0 <= i < j < |dues| && dues[i].schema == dues[j].schema ==>
      OlderText(dues[i].version, dues[j].version)
  }

  lemma StillComesFrom(d: Due, schema: string, entries: seq<Entry>, have: seq<int>, steps: Steps)
    requires entries != [] && Orderly(entries, steps) && ComesFrom(d, schema, entries[..|entries| - 1], have)
    ensures ComesFrom(d, schema, entries, have) && OlderText(d.version, entries[|entries| - 1].version)
  {
    var init := entries[..|entries| - 1];
    var i :| 0 <= i < |init| && init[i].HasStep() && init[i].version == d.version && init[i].migration == Some(d.step);
    assert entries[i] == init[i];
  }

  lemma LastComesFrom(schema: string, entries: seq<Entry>, have: seq<int>, steps: Steps)
    requires entries != [] && Orderly(entries, steps)
    ensures var last := entries[|entries| - 1];
            && Readable(last)
            && (IsDue(last, have) ==>
                ComesFrom(Due(schema, last.version, last.migration.value), schema, entries, have) &&
                  last.migration.value in steps)
  {
    var last := entries[|entries| - 1];
    KeyOfVersion(last.version);
  }

  lemma OrderlyInit(entries: seq<Entry>, steps: Steps)
    requires entries != [] && Orderly(entries, steps)
    ensures Orderly(entries[..|entries| - 1], steps)
  {
  }

  lemma RisingMore(dues: seq<Due>, d: Due)
    requires RisingDues(dues) && forall x :: x in dues ==> OlderText(x.version, d.version)
    ensures RisingDues(dues + [d])
  {
  }

  lemma {:induction false} DuesOfSchema(schema: string, entries: seq<Entry>, have: seq<int>, steps: Steps)
    requires Orderly(entries, steps)
    ensures DueOf(schema, entries, have).Some?
    ensures forall d :: d in DueOf(schema, entries, have).value ==>
            ComesFrom(d, schema, entries, have) && d.step in steps
    ensures RisingDues(DueOf(schema, entries, have).value)
  {
    if entries != [] {
      var init, last := entries[..|entries| - 1], entries[|entries| - 1];
      OrderlyInit(entries, steps);
      DuesOfSchema(schema, init, have, steps);
      LastComesFrom(schema, entries, have, steps);
      var dues := DueOf(schema, init, have).value;
      forall d | d in dues ensures ComesFrom(d, schema, entries, have) && OlderText(d.version, last.version) {
        StillComesFrom(d, schema, entries, have, steps);
      }
      if IsDue(last, have) { RisingMore(dues, Due(schema, last.version, last.migration.value)); }
    }
  }

  lemma OrderlyEntries(record: Record, steps: Steps, schema: string)
    requires OrderlyRecord(record, steps)
    ensures Orderly(EntriesOf(record, schema), steps)
  {
  }

  /** Every schema that the definition is written against has a version that can be read. */
  predicate VersionsReadable(lab: Lab, order: seq<string>) {
    forall i :: 0 <= i < |order| ==> Have(lab, order[i]).Some?
  }

  lemma RisingTogether(a: seq<Due>, b: seq<Due>, schema: string)
    requires RisingDues(a) && RisingDues(b)
    requires (forall d :: d in a ==> d.schema != schema) && (forall d :: d in b ==> d.schema == schema)
    ensures RisingDues(a + b)
  {
    var all := a + b;
    forall i, j | 0 <= i < j < |all| && all[i].schema == all[j].schema
      ensures OlderText(all[i].version, all[j].version)
    {
      assert i < |a| ==> all[i] == a[i];
      assert j < |a| ==> all[j] == a[j];
      assert i >= |a| ==> all[i] == b[i - |a|];
      assert j >= |a| ==> all[j] == b[j - |a|];
    }
  }

  /**
   pending() lists the steps of a schema in strictly rising version order, so none twice, and only registered ones.
   */
  lemma {:induction false} PendingRises(lab: Lab, record: Record, order: seq<string>, steps: Steps)
    requires OrderlyRecord(record, steps) && VersionsReadable(lab, order) && NoRepeats(order)
    ensures Pending(lab, record, order).Some?
    ensures RisingDues(Pending(lab, record, order).value)
    ensures forall d :: d in Pending(lab, record, order).value ==>
              d.schema in order && d.step in steps && Have(lab, d.schema).Some?
              && ComesFrom(d, d.schema, EntriesOf(record, d.schema), Have(lab, d.schema).value)
  {
    if order != [] {
      var init, schema := order[..|order| - 1], order[|order| - 1];
      PendingRises(lab, record, init, steps);
      OrderlyEntries(record, steps, schema);
      var have := Have(lab, schema).value;
      DuesOfSchema(schema, EntriesOf(record, schema), have, steps);
      assert schema !in init;
      RisingTogether(Pending(lab, record, init).value, DueOf(schema, EntriesOf(record, schema), have).value, schema);
    }
  }

  // ----- exactly which steps are pending -----

  /** The version a definition counts as written for: the recorded one, else 1.0. */
  function RecordedVersion(lab: Lab, schema: string): string {
    if schema in lab.versions then lab.versions[schema] else "1.0"
  }

  /** The second version can be read as a key, and is the newer one. */
  predicate NewerKey(have: string, version: string) {
    VersionKey(have).Some? && VersionKey(version).Some? && Before(VersionKey(have).value, VersionKey(version).value)
  }

  /** Some entry of the schema, newer than what the definition has, names this migration. */
  predicate Needs(lab: Lab, record: Record, d: Due) {
    && d.schema in record && d.step != ""
    && exists i :: 0 <= i < |record[d.schema]|
                   && record[d.schema][i].migration == Some(d.step) && record[d.schema][i].version == d.version
                   && NewerKey(RecordedVersion(lab, d.schema), d.version)
  }

  predicate Names(entry: Entry, d: Due) {
    entry.migration == Some(d.step) && d.step != "" && entry.version == d.version
  }

  /** One entry: it is due exactly when it names a migration and its version is newer. */
  lemma {:induction false} DueEntry(entry: Entry, have: seq<int>, d: Due)
    requires Readable(entry)
    ensures IsDue(entry, have) && entry.migration.value == d.step && entry.version == d.version <==>
            Names(entry, d) && VersionKey(d.version).Some? && Before(have, VersionKey(d.version).value)
  {
  }

  lemma {:induction false} DueExactly(schema: string, entries: seq<Entry>, have: seq<int>, d: Due)
    requires DueOf(schema, entries, have).Some?
    ensures d in DueOf(schema, entries, have).value <==>
            d.schema == schema && VersionKey(d.version).Some? && Before(have, VersionKey(d.version).value)
            && exists i :: 0 <= i < |entries| && Names(entries[i], d)
  {
    if entries != [] {
      var init, last := entries[..|entries| - 1], entries[|entries| - 1];
      DueExactly(schema, init, have, d);
      if i :| 0 <= i < |init| && Names(init[i], d) { assert Names(entries[i], d); }
      if i :| 0 <= i < |entries| && Names(entries[i], d) { assert i < |init| ==> init[i] == entries[i]; }
      DueEntry(last, have, d);
    }
  }

  /** An entry that names a migration and whose version cannot be read as a key. */
  predicate Illegible(entry: Entry) {
    entry.migration.Some? && entry.migration.value != "" && VersionKey(entry.version) == None
  }

  lemma {:induction false} DueUnreadableIff(schema: string, entries: seq<Entry>, have: seq<int>)
    ensures DueOf(schema, entries, have) == None <==> exists i :: 0 <= i < |entries| && Illegible(entries[i])
  {
    if entries != [] {
      var init, last := entries[..|entries| - 1], entries[|entries| - 1];
      DueUnreadableIff(schema, init, have);
      assert Readable(last) <==> !Illegible(last);
      if i :| 0 <= i < |init| && Illegible(init[i]) { assert Illegible(entries[i]); }
      if i :| 0 <= i < |entries| && Illegible(entries[i]) { assert i < |init| ==> Illegible(init[i]); }
    }
  }

  /**
   When it does not raise, pending() lists exactly the migrations named by entries, of the schemas taken, whose version
   is newer than the one the definition has.
   */
  lemma PendingExactly(lab: Lab, record: Record, order: seq<string>, d: Due)
    requires Pending(lab, record, order).Some?
    ensures d in Pending(lab, record, order).value <==> d.schema in order && Needs(lab, record, d)
  {
    InPending(lab, record, order, d);
    if d.schema in order {
      PendingReads(lab, record, order, d.schema);
      DueExactly(d.schema, EntriesOf(record, d.schema), Have(lab, d.schema).value, d);
    }
    if d.schema in order && Needs(lab, record, d) {
      var i :| 0 <= i < |record[d.schema]| && record[d.schema][i].migration == Some(d.step)
               && record[d.schema][i].version == d.version;
      assert Names(EntriesOf(record, d.schema)[i], d);
    }
  }

  /** A version that pending() cannot read: the definition's own, or that of an entry with a migration. */
  predicate Unreadable(lab: Lab, record: Record, schema: string) {
    || VersionKey(RecordedVersion(lab, schema)) == None
    || (schema in record && exists i :: 0 <= i < |record[schema]| && Illegible(record[schema][i]))
  }

  lemma {:induction false} PendingReads(lab: Lab, record: Record, order: seq<string>, schema: string)
    requires Pending(lab, record, order).Some? && schema in order
    ensures Have(lab, schema).Some? && DueOf(schema, EntriesOf(record, schema), Have(lab, schema).value).Some?
  {
    var init, last := order[..|order| - 1], order[|order| - 1];
    if schema != last {
      assert schema in init;
      PendingReads(lab, record, init, schema);
    }
  }

  /** It raises exactly for such a version of one of the schemas taken. */
  lemma {:induction false} PendingRaisesIff(lab: Lab, record: Record, order: seq<string>)
    ensures Pending(lab, record, order) == None <==> exists schema :: schema in order && Unreadable(lab, record, schema)
  {
    if order != [] {
      var init, last := order[..|order| - 1], order[|order| - 1];
      PendingRaisesIff(lab, record, init);
      assert order == init + [last];
      if Have(lab, last).Some? { DueUnreadableIff(last, EntriesOf(record, last), Have(lab, last).value); }
      assert Unreadable(lab, record, last) <==>
             Have(lab, last) == None || DueOf(last, EntriesOf(record, last), Have(lab, last).value) == None;
    }
  }

  /** The schemas of a definition: its own, and those of the add-ons it mentions or has a section for. */
  lemma SchemasSay(lab: Lab, schema: string)
    ensures schema in SchemasOf(lab) <==>
            || schema == "lab"
            || exists name :: schema == "addon:" + name && (name in lab.mentions || Top(name) in lab.configs)
                 && name !in ["common", "nodes", "disabled_nodes", "kclusters", "cluster", "pxe", "schema_versions"]
  {
    forall name | Top(name) in lab.configs ensures name in TopNames(lab.configs) { assert Top(name).name == name; }
  }

  /** A record that passes the check leaves nothing unreadable but what the definition itself records. */
  lemma CheckedIsReadable(record: Record, steps: Steps, lab: Lab, schema: string)
    requires OrderlyRecord(record, steps) && VersionKey(RecordedVersion(lab, schema)).Some?
    ensures !Unreadable(lab, record, schema)
  {
    if schema in record {
      forall i | 0 <= i < |record[schema]| ensures VersionKey(record[schema][i].version).Some? {
        KeyOfVersion(record[schema][i].version);
      }
    }
  }

  /**
   Under a record that passes the check: of a schema of the definition every entry that names a migration, and whose
   version is newer than the one the definition records, or than 1.0 if it records none, is pending with its step.
   */
  lemma NothingMissed(store: Store, current: map<string, Snapshot>, record: Record, steps: Steps, lab: Lab,
                      order: seq<string>, schema: string, i: nat)
    requires RecordSound(store, current, record, steps) && InOrder(order, SchemasOf(lab)) &&
             VersionsReadable(lab, order)
    requires schema in SchemasOf(lab) && schema in record && i < |record[schema]|
    requires record[schema][i].migration.Some? && record[schema][i].migration.value != ""
    requires ParseVersion(RecordedVersion(lab, schema)).Some?
    ensures Pending(lab, record, order).Some?
    ensures var entry := record[schema][i];
            Due(schema, entry.version, entry.migration.value) in Pending(lab, record, order).value <==>
            OlderText(RecordedVersion(lab, schema), entry.version)
  {
    CheckedIsOrderly(store, current, record, steps);
    PendingRises(lab, record, order, steps);
    EntryIsPending(record, steps, lab, order, schema, i);
  }

  lemma EntryIsPending(record: Record, steps: Steps, lab: Lab, order: seq<string>, schema: string, i: nat)
    requires Pending(lab, record, order).Some? && schema in order && schema in record && i < |record[schema]|
    requires record[schema][i].migration.Some? && record[schema][i].migration.value != ""
    requires Orderly(record[schema], steps) && ParseVersion(RecordedVersion(lab, schema)).Some?
    ensures var entry := record[schema][i];
            Due(schema, entry.version, entry.migration.value) in Pending(lab, record, order).value <==>
            OlderText(RecordedVersion(lab, schema), entry.version)
  {
    var entry := record[schema][i];
    PendingExactly(lab, record, order, Due(schema, entry.version, entry.migration.value));
    BeforeIsOlder(RecordedVersion(lab, schema), entry.version);
  }

  /** What the due steps make of each add-on's mappings is what its own step makes of them. */
  lemma DueIsApplied(py: Python, lab: Lab, dues: seq<Due>, registry: Registry, d: Due, p: Place)
    requires Distinct(registry) && Known(dues, registry) && d in dues && TargetOf(p) == Target(registry[d.step])
    ensures var migrated, one := Migrated(py, lab, dues, registry).configs, Apply(py, registry[d.step], lab).configs;
            (p in migrated <==> p in one) && (p in one ==> migrated[p] == one[p])
  {
    var step := registry[d.step];
    var steps := StepsOf(dues, registry);
    var i :| 0 <= i < |dues| && dues[i] == d;
    assert steps[i] == step && step in steps;
    RegisteredCoherent(dues, registry);
    PartAfterAll(py, steps, lab, Target(step));
    PartApply(py, step, lab, Target(step));
    var migrated, one := Migrated(py, lab, dues, registry).configs, Apply(py, step, lab).configs;
    assert Part(migrated, Target(step)) == Part(one, Target(step));
    assert p in migrated <==> p in Part(migrated, Target(step));
    assert p in one <==> p in Part(one, Target(step));
  }

  /** So no mapping of the add-on holds a key in its old form afterwards, and all its other keys are as they were. */
  lemma DueDropsOutdated(py: Python, lab: Lab, dues: seq<Due>, registry: Registry, d: Due, p: Place, key: string)
    requires Distinct(registry) && Known(dues, registry) && d in dues && DropsKeys(registry[d.step])
    requires p in lab.configs && OfAddon(p, Target(registry[d.step]))
    ensures var now := Migrated(py, lab, dues, registry).configs;
            && p in now
            && (key in now[p] <==> key in lab.configs[p] && !Outdated(py, registry[d.step], lab.configs[p], key))
            && (key in now[p] ==> now[p][key] == lab.configs[p][key])
  {
    DueIsApplied(py, lab, dues, registry, d, p);
    RemovingAt(py, registry[d.step], lab);
  }

  // ----- migrate, then stamp -----

  lemma TopNamesStay(py: Python, step: Step, lab: Lab)
    ensures lab.mentions + TopNames(Apply(py, step, lab).configs) == lab.mentions + TopNames(lab.configs)
  {
    var after := Apply(py, step, lab).configs;
    forall p | p in lab.configs ensures p in after {}
    forall p | p in after && p.Top? && p !in lab.configs ensures p.name in lab.mentions {
      assert step.DefaultSource? && p == Top(step.addon);
    }
  }

  /** The steps leave the definition written against the same schemas. */
  lemma {:induction false} SchemasStay(py: Python, steps: seq<Step>, lab: Lab)
    ensures SchemasOf(ApplyAll(py, steps, lab)) == SchemasOf(lab)
  {
    if steps != [] {
      var before := ApplyAll(py, steps[..|steps| - 1], lab);
      SchemasStay(py, steps[..|steps| - 1], lab);
      TopNamesStay(py, steps[|steps| - 1], before);
    }
  }

  lemma {:induction false} NothingNewer(schema: string, entries: seq<Entry>, have: seq<int>, steps: Steps, n: nat)
    requires Orderly(entries, steps) && n <= |entries| && entries != []
    requires VersionKey(entries[|entries| - 1].version) == Some(have)
    ensures DueOf(schema, entries[..n], have) == Some([])
  {
    if n > 0 {
      NothingNewer(schema, entries, have, steps, n - 1);
      DueNext(schema, entries, have, n - 1);
      NotNewer(entries, have, steps, n - 1);
    }
  }

  lemma NotBefore(a: string, b: string)
    requires ParseVersion(a).Some? && ParseVersion(b).Some? && (a == b || OlderText(b, a))
    ensures VersionKey(a).Some? && VersionKey(b).Some? && !Before(VersionKey(a).value, VersionKey(b).value)
  {
    BeforeIsOlder(a, b);
  }

  lemma NotNewer(entries: seq<Entry>, have: seq<int>, steps: Steps, k: nat)
    requires Orderly(entries, steps) && k < |entries|
    requires VersionKey(entries[|entries| - 1].version) == Some(have)
    ensures Readable(entries[k]) && !IsDue(entries[k], have)
  {
    OrderlyPair(entries, steps, k);
    NotDue(entries[k], have, entries[|entries| - 1].version);
  }

  lemma OrderlyPair(entries: seq<Entry>, steps: Steps, k: nat)
    requires Orderly(entries, steps) && k < |entries|
    ensures var last := entries[|entries| - 1].version;
            && ParseVersion(last).Some? && ParseVersion(entries[k].version).Some?
            && (last == entries[k].version || OlderText(entries[k].version, last))
  {
  }

  lemma NotDue(entry: Entry, have: seq<int>, last: string)
    requires ParseVersion(last).Some? && ParseVersion(entry.version).Some?
    requires last == entry.version || OlderText(entry.version, last)
    requires VersionKey(last) == Some(have)
    ensures Readable(entry) && !IsDue(entry, have)
  {
    NotBefore(last, entry.version);
  }

  lemma LastIsLatest(schema: string, entries: seq<Entry>, steps: Steps)
    requires Orderly(entries, steps) && entries != []
    ensures var have := VersionKey(entries[|entries| - 1].version);
            have.Some? && DueOf(schema, entries, have.value) == Some([])
  {
    KeyOfVersion(entries[|entries| - 1].version);
    assert entries[..|entries|] == entries;
    NothingNewer(schema, entries, VersionKey(entries[|entries| - 1].version).value, steps, |entries|);
  }

  lemma StampedHave(lab: Lab, record: Record, schema: string)
    requires schema in SchemasOf(lab)
    ensures var entries := EntriesOf(record, schema);
            entries != [] ==> Have(Stamped(lab, record), schema) == VersionKey(entries[|entries| - 1].version)
    ensures EntriesOf(record, schema) == [] ==> Have(Stamped(lab, record), schema) == VersionKey("1.0")
  {
  }

  lemma NothingDueOf(lab: Lab, record: Record, steps: Steps, schema: string)
    requires OrderlyRecord(record, steps) && schema in SchemasOf(lab)
    ensures Have(Stamped(lab, record), schema).Some?
    ensures DueOf(schema, EntriesOf(record, schema), Have(Stamped(lab, record), schema).value) == Some([])
  {
    var entries := EntriesOf(record, schema);
    OrderlyEntries(record, steps, schema);
    StampedHave(lab, record, schema);
    if entries == [] {
      FirstVersion();
    } else {
      LastIsLatest(schema, entries, steps);
    }
  }

  lemma FirstVersion()
    ensures VersionKey("1.0").Some?
  {
    assert "1.0" == "1" + (['.'] + ("0" + ""));
    KeyOfParts("1", "0", "");
  }

  /** A stamped definition needs nothing. */
  lemma {:induction false} NothingPending(lab: Lab, record: Record, order: seq<string>, steps: Steps)
    requires OrderlyRecord(record, steps) && forall s :: s in order ==> s in SchemasOf(lab)
    ensures Pending(Stamped(lab, record), record, order) == Some([])
  {
    if order != [] {
      NothingPending(lab, record, order[..|order| - 1], steps);
      assert order[|order| - 1] in order;
      var none: seq<Due> := [];
      assert none + none == none;
      NothingDueOf(lab, record, steps, order[|order| - 1]);
    }
  }

  /**
   migrate() followed by stamp(), for a record that passes the check and a definition whose versions can be read:
   nothing is pending afterwards, in whatever order the schemas are taken, and the schemas are the same as before.
   */
  lemma MigrateThenStamp(py: Python, store: Store, current: map<string, Snapshot>, record: Record, registry: Registry,
                         lab: Lab, order: seq<string>, again: seq<string>)
    requires RecordSound(store, current, record, registry.Keys)
    requires InOrder(order, SchemasOf(lab)) && VersionsReadable(lab, order)
    ensures Pending(lab, record, order).Some? && Known(Pending(lab, record, order).value, registry)
    ensures var migrated := Migrated(py, lab, Pending(lab, record, order).value, registry);
            && SchemasOf(Stamped(migrated, record)) == SchemasOf(lab)
            && (InOrder(again, SchemasOf(lab)) ==> Pending(Stamped(migrated, record), record, again) == Some([]))
  {
    CheckedIsOrderly(store, current, record, registry.Keys);
    PendingRises(lab, record, order, registry.Keys);
    var dues := Pending(lab, record, order).value;
    var migrated := Migrated(py, lab, dues, registry);
    SchemasStay(py, StepsOf(dues, registry), lab);
    assert SchemasOf(Stamped(migrated, record)) == SchemasOf(migrated);
    if InOrder(again, SchemasOf(lab)) { NothingPending(migrated, record, again, registry.Keys); }
  }

  lemma {:induction false} PendingDepends(a: Lab, b: Lab, record: Record, order: seq<string>)
    requires a.versions == b.versions
    ensures Pending(a, record, order) == Pending(b, record, order)
  {
    if order != [] { PendingDepends(a, b, record, order[..|order| - 1]); }
  }

  /** A second run of migrate(), without a stamp in between, takes the same steps and changes nothing. */
  lemma SecondRunChangesNothing(py: Python, lab: Lab, record: Record, registry: Registry, order: seq<string>)
    requires Distinct(registry)
    requires Pending(lab, record, order).Some? && Known(Pending(lab, record, order).value, registry)
    ensures var dues := Pending(lab, record, order).value;
            var migrated := Migrated(py, lab, dues, registry);
            Pending(migrated, record, order) == Some(dues) && Migrated(py, migrated, dues, registry) == migrated
  {
    var dues := Pending(lab, record, order).value;
    PendingDepends(lab, Migrated(py, lab, dues, registry), record, order);
    RegisteredCoherent(dues, registry);
    AllIdempotent(py, StepsOf(dues, registry), lab);
  }

  lemma {:induction false} DueNames(schema: string, entries: seq<Entry>, have: seq<int>)
    ensures DueOf(schema, entries, have).Some? ==>
              forall d :: d in DueOf(schema, entries, have).value ==> d.schema == schema
  {
    if entries != [] { DueNames(schema, entries[..|entries| - 1], have); }
  }

  /** A step is pending for its own schema, wherever that stands in the order. */
  lemma {:induction false} InPending(lab: Lab, record: Record, order: seq<string>, d: Due)
    requires Pending(lab, record, order).Some?
    ensures d in Pending(lab, record, order).value <==>
            d.schema in order && Have(lab, d.schema).Some? &&
              DueOf(d.schema, EntriesOf(record, d.schema), Have(lab, d.schema).value).Some?
            && d in DueOf(d.schema, EntriesOf(record, d.schema), Have(lab, d.schema).value).value
  {
    if order != [] {
      var init, schema := order[..|order| - 1], order[|order| - 1];
      InPending(lab, record, init, d);
      DueNames(schema, EntriesOf(record, schema), Have(lab, schema).value);
      assert order == init + [schema];
    }
  }

  /** The order in which the schemas are taken does not matter for what becomes of the definition. */
  lemma SchemaOrderIrrelevant(py: Python, lab: Lab, record: Record, registry: Registry, order: seq<string>,
                              other: seq<string>)
    requires Distinct(registry) && InOrder(order, SchemasOf(lab)) && InOrder(other, SchemasOf(lab))
    requires Pending(lab, record, order).Some? && Known(Pending(lab, record, order).value, registry)
    requires Pending(lab, record, other).Some? && Known(Pending(lab, record, other).value, registry)
    ensures Migrated(py, lab, Pending(lab, record, order).value, registry) ==
            Migrated(py, lab, Pending(lab, record, other).value, registry)
  {
    var a, b := Pending(lab, record, order).value, Pending(lab, record, other).value;
    forall d ensures d in a <==> d in b {
      InPending(lab, record, order, d);
      InPending(lab, record, other, d);
    }
    SameSteps(a, b, registry);
    RegisteredCoherent(a, registry);
    RegisteredCoherent(b, registry);
    OrderIrrelevant(py, StepsOf(a, registry), StepsOf(b, registry), lab);
  }

  lemma SameSteps(a: seq<Due>, b: seq<Due>, registry: Registry)
    requires Known(a, registry) && Known(b, registry) && forall d :: d in a <==> d in b
    ensures forall s :: s in StepsOf(a, registry) <==> s in StepsOf(b, registry)
  {
    forall s | s in StepsOf(a, registry) ensures s in StepsOf(b, registry) { StepAlsoIn(a, b, registry, s); }
    forall s | s in StepsOf(b, registry) ensures s in StepsOf(a, registry) { StepAlsoIn(b, a, registry, s); }
  }

  lemma StepAlsoIn(a: seq<Due>, b: seq<Due>, registry: Registry, s: Step)
    requires Known(a, registry) && Known(b, registry) && (forall d :: d in a ==> d in b) && s in StepsOf(a, registry)
    ensures s in StepsOf(b, registry)
  {
    var i :| 0 <= i < |a| && StepsOf(a, registry)[i] == s;
    assert a[i] in b;
    var j :| 0 <= j < |b| && b[j] == a[i];
    assert StepsOf(b, registry)[j] == s;
  }
}
