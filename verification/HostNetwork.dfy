/**
 Turning a NIC into a bridge with a way back: the configuration is backed up, a timer that runs a restore script is
 armed, the change is applied, and the timer is stopped only once the gateway was reached through the bridge.

 The file system is a map from absolute paths to directories and files. Reloading a network service and reaching the
 gateway are outside it.
 */
module HostNetwork {
  import opened Wrappers

  type Path = string
  datatype Entry = Dir | File(content: string)
  type FileSystem = map<Path, Entry>

  function At(fs: FileSystem, p: Path): Option<Entry> {
    if p in fs then Some(fs[p]) else None
  }

  /** The path is the root or lies below it. */
  predicate Under(root: Path, p: Path) {
    p == root || (root + "/") <= p
  }

  /** A path that starts like the root is under it exactly when it ends there or goes on with a slash. */
  lemma {:induction false} UnderMeans(root: Path, rest: string)
    ensures Under(root, root + rest) <==> rest == "" || rest[0] == '/'
  {
    var p := root + rest;
    if rest != "" {
      assert p[|root|] == rest[0];
      if rest[0] == '/' { assert p[..|root| + 1] == root + "/"; }
    } else {
      assert p == root;
    }
  }

  lemma SameEverywhere(a: FileSystem, b: FileSystem)
    requires forall p :: At(a, p) == At(b, p)
    ensures a == b
  {
    forall p ensures p in a <==> p in b { assert At(a, p) == At(b, p); }
    forall p | p in a ensures a[p] == b[p] { assert At(a, p) == At(b, p); }
  }

  // ----- the restore script -----

  /** A line of the restore script. A saved tree or file is the copy in the backup directory. */
  datatype Line =
    | PutTree(root: Path, saved: FileSystem)      // rm -rf root && cp -a copy root
    | PutFile(path: Path, entry: Entry)           // cp -a copy path
    | RemoveFile(path: Path)                      // rm -f path
    | RemoveTree(root: Path)                      // rm -rf root
    | Reload                                      // restart the network service

  predicate Touches(line: Line, p: Path) {
    match line
    case PutTree(root, _) => Under(root, p)
    case PutFile(path, _) => p == path
    case RemoveFile(path) => p == path
    case RemoveTree(root) => Under(root, p)
    case Reload => false
  }

  /** What a touched path holds afterwards. */
  function Leaves(line: Line, p: Path): Option<Entry> {
    match line
    case PutTree(_, saved) => At(saved, p)
    case PutFile(_, entry) => Some(entry)
    case _ => None
  }

  function Exec(line: Line, fs: FileSystem): FileSystem {
    var kept := map p | p in fs && !Touches(line, p) :: fs[p];
    match line
    case PutTree(root, saved) => kept + (map p | p in saved && Under(root, p) :: saved[p])
    case PutFile(path, entry) => kept[path := entry]
    case _ => kept
  }

  function Execute(lines: seq<Line>, fs: FileSystem): FileSystem {
    if lines == [] then fs else Exec(lines[|lines| - 1], Execute(lines[..|lines| - 1], fs))
  }

  predicate TouchedBy(lines: seq<Line>, p: Path) {
    exists i :: 0 <= i < |lines| && Touches(lines[i], p)
  }

  /** What the last line that touches the path leaves there. */
  function Final(lines: seq<Line>, p: Path): Option<Entry>
    requires TouchedBy(lines, p)
  {
    var last := lines[|lines| - 1];
    if Touches(last, p) then Leaves(last, p)
    else
      assert TouchedBy(lines[..|lines| - 1], p) by {
        var i :| 0 <= i < |lines| && Touches(lines[i], p);
        assert lines[..|lines| - 1][i] == lines[i];
      }
      Final(lines[..|lines| - 1], p)
  }

  lemma {:induction false} ExecuteAt(lines: seq<Line>, fs: FileSystem, p: Path)
    ensures At(Execute(lines, fs), p) == if TouchedBy(lines, p) then Final(lines, p) else At(fs, p)
  {
    if lines != [] {
      var init, last := lines[..|lines| - 1], lines[|lines| - 1];
      ExecuteAt(init, fs, p);
      if Touches(last, p) {
        assert lines[|lines| - 1] == last;
      } else {
        if TouchedBy(lines, p) {
          var i :| 0 <= i < |lines| && Touches(lines[i], p);
          assert init[i] == lines[i];
        }
        if TouchedBy(init, p) {
          var i :| 0 <= i < |init| && Touches(init[i], p);
          assert lines[i] == init[i];
        }
      }
    }
  }

  /** Whatever state it starts from, running a restore script a second time changes nothing. */
  lemma RestoreIdempotent(lines: seq<Line>, fs: FileSystem)
    ensures Execute(lines, Execute(lines, fs)) == Execute(lines, fs)
  {
    var once := Execute(lines, fs);
    forall p ensures At(Execute(lines, once), p) == At(once, p) {
      ExecuteAt(lines, fs, p);
      ExecuteAt(lines, once, p);
    }
    SameEverywhere(Execute(lines, once), once);
  }

  // ----- the stacks -----

  datatype Stack = Netplan | Wicked | Networkd | Ifupdown

  const NETPLAN_DIR := "/etc/netplan"
  const WICKED_DIR := "/etc/sysconfig/network"
  const NETWORKD_DIR := "/etc/systemd/network"
  const INTERFACES := "/etc/network/interfaces"
  const INTERFACES_DIR := "/etc/network/interfaces.d"
  const CLOUD_DIR := "/etc/cloud/cloud.cfg.d"
  const CLOUD_INIT_NET_OFF := "/etc/cloud/cloud.cfg.d/99-lab-in-a-box-network.cfg"

  function StackPaths(stack: Stack): seq<Path> {
    match stack
    case Netplan => [NETPLAN_DIR]
    case Wicked => [WICKED_DIR]
    case Networkd => [NETWORKD_DIR]
    case Ifupdown => [INTERFACES, INTERFACES_DIR]
  }

  /** _backup(), one path: a present tree or file is copied, an absent one leaves no line. */
  function BackupLine(fs: FileSystem, src: Path): seq<Line> {
    match At(fs, src)
    case None => []
    case Some(Dir) => [PutTree(src, map p | p in fs && Under(src, p) :: fs[p])]
    case Some(File(content)) => [PutFile(src, File(content))]
  }

  function BackupLines(fs: FileSystem, sources: seq<Path>): seq<Line> {
    if sources == [] then []
    else BackupLines(fs, sources[..|sources| - 1]) + BackupLine(fs, sources[|sources| - 1])
  }

  /** _backup() and the lines make_bridge() adds; dropins are the directories of netplan's drop-in files. */
  function Script(fs: FileSystem, stack: Stack, dropins: seq<Path>): seq<Line> {
    BackupLines(fs, StackPaths(stack)) + [RemoveFile(CLOUD_INIT_NET_OFF), Reload]
    + seq(|dropins|, i requires 0 <= i < |dropins| => RemoveTree(dropins[i]))
  }

  /** _backup(): the loop over the stack's paths. */
  method Backup(fs: FileSystem, stack: Stack) returns (restore: seq<Line>)
    ensures restore == BackupLines(fs, StackPaths(stack)) + [RemoveFile(CLOUD_INIT_NET_OFF)]
  {
    restore := [];
    var sources := StackPaths(stack);
    for i := 0 to |sources|
      invariant restore == BackupLines(fs, sources[..i])
    {
      assert sources[..i + 1][..i] == sources[..i];
      var src := sources[i];
      if src in fs {
        match fs[src] {
          case Dir => restore := restore + [PutTree(src, map p | p in fs && Under(src, p) :: fs[p])];
          case File(content) => restore := restore + [PutFile(src, File(content))];
        }
      } else {
        assert restore + [] == restore;
      }
    }
    assert sources[..|sources|] == sources;
    restore := restore + [RemoveFile(CLOUD_INIT_NET_OFF)];
  }

  // ----- the changes of a run -----

  datatype Change =
    | Write(path: Path, content: string, parents: seq<Path>)   // parent.mkdir(parents=True), write_text
    | Unlink(path: Path)
    | Edit(root: Path, tree: FileSystem)                       // a command that rewrites files below root
    | Command                                                  // a command that changes no configuration file

  function MakeDirs(fs: FileSystem, parents: seq<Path>): FileSystem {
    fs + map p | p in parents && p !in fs :: Dir
  }

  function Apply(fs: FileSystem, c: Change): FileSystem {
    match c
    case Write(path, content, parents) => MakeDirs(fs, parents)[path := File(content)]
    case Unlink(path) => fs - {path}
    case Edit(root, tree) =>
      (map p | p in fs && !Under(root, p) :: fs[p]) + (map p | p in tree && Under(root, p) :: tree[p])
    case Command => fs
  }

  function ApplyAll(fs: FileSystem, changes: seq<Change>): FileSystem {
    if changes == [] then fs else Apply(ApplyAll(fs, changes[..|changes| - 1]), changes[|changes| - 1])
  }

  /** What make_bridge() is about to write, by stack. File texts and the effect of `netplan set` are arbitrary. */
  datatype Plan =
    | NetplanPlan(bridge: string, yamls: seq<Path>, merged: string, edits: seq<FileSystem>, iaid: Option<string>)
    | WickedPlan(nic: string, bridge: string, nicText: string, bridgeText: string, routes: Option<string>)
    | NetworkdPlan(bridge: string, netdev: string, port: string, network: string)
    | IfupdownPlan(target: Path, text: string)

  function StackOf(plan: Plan): Stack {
    match plan
    case NetplanPlan(_, _, _, _, _) => Netplan
    case WickedPlan(_, _, _, _, _) => Wicked
    case NetworkdPlan(_, _, _, _) => Networkd
    case IfupdownPlan(_, _) => Ifupdown
  }

  function DropinDir(bridge: string): Path {
    NETWORKD_DIR + ("/10-netplan-" + bridge + ".network.d")
  }

  function Dropins(plan: Plan): seq<Path> {
    if plan.NetplanPlan? && plan.iaid.Some? then [DropinDir(plan.bridge)] else []
  }

  /** Globbing /etc/netplan and looking for the NIC's interfaces file only find such paths. */
  predicate ValidPlan(fs: FileSystem, plan: Plan) {
    match plan
    case NetplanPlan(_, yamls, _, _, _) =>
      NETPLAN_DIR in fs && forall i :: 0 <= i < |yamls| ==> Under(NETPLAN_DIR, yamls[i])
    case IfupdownPlan(target, _) => target in fs && (target == INTERFACES || Under(INTERFACES_DIR, target))
    case _ => true
  }

  function CloudChanges(fs: FileSystem): seq<Change> {
    if CLOUD_DIR in fs then [Write(CLOUD_INIT_NET_OFF, "network: {config: disabled}\n", [])] else []
  }

  function StackChanges(plan: Plan): seq<Change> {
    match plan
    case NetplanPlan(bridge, yamls, merged, edits, iaid) =>
      seq(|yamls|, i requires 0 <= i < |yamls| => Unlink(yamls[i]))
      + [Write(NETPLAN_DIR + "/90-lab-in-a-box.yaml", merged, [])]
      + seq(|edits|, i requires 0 <= i < |edits| => Edit(NETPLAN_DIR, edits[i]))
      + (match iaid
         case None => []
         case Some(text) =>
           [Write(DropinDir(bridge) + "/50-lab-in-a-box-iaid.conf", text, [NETWORKD_DIR, DropinDir(bridge)])])
      + [Command]
    case WickedPlan(nic, bridge, nicText, bridgeText, routes) =>
      [Write(WICKED_DIR + ("/ifcfg-" + nic), nicText, [WICKED_DIR]),
       Write(WICKED_DIR + ("/ifcfg-" + bridge), bridgeText, [WICKED_DIR])]
      + (match routes case None => [] case Some(text) => [Write(WICKED_DIR + "/routes", text, [WICKED_DIR])])
      + [Command]
    case NetworkdPlan(bridge, netdev, port, network) =>
      var d := "/05-lab-in-a-box-" + bridge;
      [Write(NETWORKD_DIR + (d + ".netdev"), netdev, [NETWORKD_DIR]),
       Write(NETWORKD_DIR + (d + "-port.network"), port, [NETWORKD_DIR]),
       Write(NETWORKD_DIR + (d + ".network"), network, [NETWORKD_DIR]), Command, Command]
    case IfupdownPlan(target, text) =>
      [Write(target, text, []), Command, Command]
  }

  function Changes(fs: FileSystem, plan: Plan): seq<Change> {
    CloudChanges(fs) + StackChanges(plan)
  }

  // ----- what the changes leave at every path -----

  /** What a file written with these parents makes of a path. */
  lemma WriteAt(fs: FileSystem, path: Path, content: string, parents: seq<Path>, p: Path)
    ensures At(Apply(fs, Write(path, content, parents)), p) ==
            if p == path then Some(File(content)) else if p in parents &&
              At(fs, p) == None then Some(Dir) else At(fs, p)
  {
  }

  lemma {:induction false} ApplyTogether(fs: FileSystem, a: seq<Change>, b: seq<Change>)
    ensures ApplyAll(fs, a + b) == ApplyAll(ApplyAll(fs, a), b)
    decreases |b|
  {
    if b == [] {
      assert a + b == a;
    } else {
      assert (a + b)[..|a + b| - 1] == a + b[..|b| - 1];
      ApplyTogether(fs, a, b[..|b| - 1]);
    }
  }

  lemma ApplyOne(fs: FileSystem, c: Change)
    ensures ApplyAll(fs, [c]) == Apply(fs, c)
  {
    assert [c][..0] == [];
  }

  /** The file that keeps cloud-init from configuring the network, where its directory is. */
  function CloudExpected(fs: FileSystem, p: Path): Option<Entry> {
    if p == "/etc/cloud/cloud.cfg.d/99-lab-in-a-box-network.cfg" && "/etc/cloud/cloud.cfg.d" in fs
    then Some(File("network: {config: disabled}\n"))
    else At(fs, p)
  }

  /** What a path holds once the stack is configured, from what it held before. */
  function StackExpected(plan: Plan, p: Path, before: Option<Entry>): Option<Entry> {
    match plan
    case WickedPlan(nic, bridge, nicText, bridgeText, routes) =>
      if p == "/etc/sysconfig/network/ifcfg-" + bridge then Some(File(bridgeText))
      else if p == "/etc/sysconfig/network/ifcfg-" + nic then Some(File(nicText))
      else if p == "/etc/sysconfig/network/routes" && routes.Some? then Some(File(routes.value))
      else if p == "/etc/sysconfig/network" && before == None then Some(Dir)
      else before
    case NetworkdPlan(bridge, netdev, port, network) =>
      var path := "/etc/systemd/network/05-lab-in-a-box-" + bridge;
      if p == path + ".netdev" then Some(File(netdev))
      else if p == path + "-port.network" then Some(File(port))
      else if p == path + ".network" then Some(File(network))
      else if p == "/etc/systemd/network" && before == None then Some(Dir)
      else before
    case IfupdownPlan(target, text) => if p == target then Some(File(text)) else before
    case NetplanPlan(bridge, yamls, merged, edits, iaid) =>
      DropinExpected(bridge, iaid, p, YamlsExpected(yamls, merged, edits, p, before))
  }

  /** The last edit decides what is below /etc/netplan. */
  function YamlsExpected(yamls: seq<Path>, merged: string, edits: seq<FileSystem>, p: Path,
                         before: Option<Entry>): Option<Entry> {
    if edits != [] && Under("/etc/netplan", p) then At(edits[|edits| - 1], p)
      else NetplanExpected(yamls, merged, p, before)
  }

  function DropinExpected(bridge: string, iaid: Option<string>, p: Path, before: Option<Entry>): Option<Entry> {
    var dir := "/etc/systemd/network/10-netplan-" + bridge + ".network.d";
    if iaid.Some? && p == dir + "/50-lab-in-a-box-iaid.conf" then Some(File(iaid.value))
    else if iaid.Some? && p in ["/etc/systemd/network", dir] && before == None then Some(Dir)
    else before
  }

  /** The merged file is the only one before the bridge is set in it. */
  function NetplanExpected(yamls: seq<Path>, merged: string, p: Path, before: Option<Entry>): Option<Entry> {
    if p == "/etc/netplan/90-lab-in-a-box.yaml" then Some(File(merged)) else if p in yamls then None else before
  }

  lemma CloudAt(fs: FileSystem, p: Path)
    ensures At(ApplyAll(fs, CloudChanges(fs)), p) == CloudExpected(fs, p)
  {
    if CLOUD_DIR in fs { ApplyOne(fs, CloudChanges(fs)[0]); }
  }

  lemma WickedAt(fs: FileSystem, plan: Plan, p: Path)
    requires plan.WickedPlan?
    ensures At(ApplyAll(fs, StackChanges(plan)), p) == StackExpected(plan, p, At(fs, p))
  {
    var own := WICKED_DIR + ("/ifcfg-" + plan.nic);
    var other := WICKED_DIR + ("/ifcfg-" + plan.bridge);
    var first, second := Write(own, plan.nicText, [WICKED_DIR]), Write(other, plan.bridgeText, [WICKED_DIR]);
    var rest := match plan.routes case None => [] case Some(text) => [Write(WICKED_DIR + "/routes", text,
                [WICKED_DIR])];
    var fs1 := Apply(fs, first);
    var fs2 := Apply(fs1, second);
    WriteAt(fs, own, plan.nicText, [WICKED_DIR], p);
    WriteAt(fs1, other, plan.bridgeText, [WICKED_DIR], p);
    if plan.routes.Some? { WriteAt(fs2, WICKED_DIR + "/routes", plan.routes.value, [WICKED_DIR], p); }
    WickedNames(plan.nic, plan.bridge);
    FourParts(fs, first, second, rest, Command);
  }

  lemma WickedNames(nic: string, bridge: string)
    ensures WICKED_DIR + ("/ifcfg-" + nic) == "/etc/sysconfig/network/ifcfg-" + nic
    ensures WICKED_DIR + ("/ifcfg-" + bridge) == "/etc/sysconfig/network/ifcfg-" + bridge
    ensures WICKED_DIR + "/routes" == "/etc/sysconfig/network/routes"
    ensures WICKED_DIR + "/routes" != WICKED_DIR + ("/ifcfg-" + nic) &&
            WICKED_DIR + "/routes" != WICKED_DIR + ("/ifcfg-" + bridge)
    ensures |WICKED_DIR| < |WICKED_DIR + "/routes"|
  {
    assert (WICKED_DIR + "/routes")[|WICKED_DIR| + 1] == 'r';
    assert (WICKED_DIR + ("/ifcfg-" + nic))[|WICKED_DIR| + 1] == 'i';
    assert (WICKED_DIR + ("/ifcfg-" + bridge))[|WICKED_DIR| + 1] == 'i';
  }

  /** Two changes, at most one more, and a command. */
  lemma {:induction false} FourParts(fs: FileSystem, a: Change, b: Change, rest: seq<Change>, last: Change)
    requires |rest| <= 1 && last == Command
    ensures var fs2 := Apply(Apply(fs, a), b);
            ApplyAll(fs, [a, b] + rest + [last]) == if rest == [] then fs2 else Apply(fs2, rest[0])
  {
    ApplyTogether(fs, [a, b] + rest, [last]);
    ApplyTogether(fs, [a, b], rest);
    ApplyTogether(fs, [a], [b]);
    assert [a, b] == [a] + [b];
    ApplyOne(fs, a);
    ApplyOne(Apply(fs, a), b);
    ApplyOne(ApplyAll(fs, [a, b] + rest), last);
    if rest != [] {
      assert rest == [rest[0]];
      ApplyOne(Apply(Apply(fs, a), b), rest[0]);
    }
  }

  lemma Reordered<T>(a: seq<T>, b: seq<T>, c: seq<T>, d: seq<T>)
    ensures a + ((b + c) + d) == ((a + b) + c) + d
  {
  }

  lemma NetworkdPrefix()
    ensures NETWORKD_DIR + "/05-lab-in-a-box-" == "/etc/systemd/network/05-lab-in-a-box-"
    ensures |NETWORKD_DIR| == 20
  {
  }

  lemma NetworkdNames(bridge: string)
    ensures var d := "/05-lab-in-a-box-" + bridge; var path := "/etc/systemd/network/05-lab-in-a-box-" + bridge;
            && NETWORKD_DIR + (d + ".netdev") == path + ".netdev"
            && NETWORKD_DIR + (d + "-port.network") == path + "-port.network"
            && NETWORKD_DIR + (d + ".network") == path + ".network"
            && |NETWORKD_DIR| < |path + ".netdev"| < |path + ".network"| < |path + "-port.network"|
  {
    NetworkdPrefix();
    Reordered(NETWORKD_DIR, "/05-lab-in-a-box-", bridge, ".netdev");
    Reordered(NETWORKD_DIR, "/05-lab-in-a-box-", bridge, "-port.network");
    Reordered(NETWORKD_DIR, "/05-lab-in-a-box-", bridge, ".network");
  }

  lemma NetworkdAt(fs: FileSystem, plan: Plan, p: Path)
    requires plan.NetworkdPlan?
    ensures At(ApplyAll(fs, StackChanges(plan)), p) == StackExpected(plan, p, At(fs, p))
  {
    var path := "/etc/systemd/network/05-lab-in-a-box-" + plan.bridge;
    NetworkdNames(plan.bridge);
    var first := Write(path + ".netdev", plan.netdev, [NETWORKD_DIR]);
    var second := Write(path + "-port.network", plan.port, [NETWORKD_DIR]);
    var third := Write(path + ".network", plan.network, [NETWORKD_DIR]);
    var fs1 := Apply(fs, first);
    var fs2 := Apply(fs1, second);
    WriteAt(fs, path + ".netdev", plan.netdev, [NETWORKD_DIR], p);
    WriteAt(fs1, path + "-port.network", plan.port, [NETWORKD_DIR], p);
    WriteAt(fs2, path + ".network", plan.network, [NETWORKD_DIR], p);
    FourParts(fs, first, second, [third], Command);
    assert [first, second] + [third] + [Command] == [first, second, third] + [Command];
    CommandsLast(fs, [first, second, third], StackChanges(plan));
  }

  lemma CommandsLast(fs: FileSystem, writes: seq<Change>, all: seq<Change>)
    requires all == writes + [Command, Command]
    ensures ApplyAll(fs, all) == ApplyAll(fs, writes + [Command]) == ApplyAll(fs, writes)
  {
    ApplyTogether(fs, writes, [Command]);
    ApplyTogether(fs, writes + [Command], [Command]);
    assert all == writes + [Command] + [Command];
    ApplyOne(ApplyAll(fs, writes), Command);
  }

  lemma IfupdownAt(fs: FileSystem, plan: Plan, p: Path)
    requires plan.IfupdownPlan?
    ensures At(ApplyAll(fs, StackChanges(plan)), p) == StackExpected(plan, p, At(fs, p))
  {
    var write := Write(plan.target, plan.text, []);
    CommandsLast(fs, [write], StackChanges(plan));
    ApplyOne(fs, write);
    WriteAt(fs, plan.target, plan.text, [], p);
  }

  lemma {:induction false} UnlinksAt(fs: FileSystem, yamls: seq<Path>, changes: seq<Change>, p: Path)
    requires |changes| == |yamls| && forall i :: 0 <= i < |yamls| ==> changes[i] == Unlink(yamls[i])
    ensures At(ApplyAll(fs, changes), p) == if p in yamls then None else At(fs, p)
  {
    if yamls != [] {
      var n := |yamls| - 1;
      UnlinksAt(fs, yamls[..n], changes[..n], p);
      assert yamls == yamls[..n] + [yamls[n]];
    }
  }

  lemma {:induction false} EditsAt(fs: FileSystem, edits: seq<FileSystem>, changes: seq<Change>, root: Path, p: Path)
    requires |changes| == |edits| && forall i :: 0 <= i < |edits| ==> changes[i] == Edit(root, edits[i])
    ensures At(ApplyAll(fs, changes), p) == if edits != [] &&
            Under(root, p) then At(edits[|edits| - 1], p) else At(fs, p)
  {
    if edits != [] {
      var n := |edits| - 1;
      EditsAt(fs, edits[..n], changes[..n], root, p);
    }
  }

  lemma MergedName()
    ensures NETPLAN_DIR + "/90-lab-in-a-box.yaml" == "/etc/netplan/90-lab-in-a-box.yaml"
  {
  }

  lemma DropinPrefix()
    ensures NETWORKD_DIR + "/10-netplan-" == "/etc/systemd/network/10-netplan-"
    ensures |NETWORKD_DIR| == 20
  {
  }

  /** A path that starts like /etc/systemd is not below /etc/netplan. */
  lemma NotNetplan(p: Path)
    requires |p| > 5 && p[5] == 's'
    ensures !Under(NETPLAN_DIR, p)
  {
    assert NETPLAN_DIR[5] == 'n' && (NETPLAN_DIR + "/")[5] == 'n';
  }

  lemma NetplanNames(bridge: string)
    ensures NETPLAN_DIR + "/90-lab-in-a-box.yaml" == "/etc/netplan/90-lab-in-a-box.yaml"
    ensures var dir := "/etc/systemd/network/10-netplan-" + bridge + ".network.d";
            && DropinDir(bridge) == dir
            && |NETWORKD_DIR| < |dir| < |dir + "/50-lab-in-a-box-iaid.conf"|
            && !Under(NETPLAN_DIR, dir) && !Under(NETPLAN_DIR, NETWORKD_DIR)
            && !Under(NETPLAN_DIR, dir + "/50-lab-in-a-box-iaid.conf")
  {
    MergedName();
    DropinPrefix();
    Reordered(NETWORKD_DIR, "/10-netplan-", bridge, ".network.d");
    var dir := "/etc/systemd/network/10-netplan-" + bridge + ".network.d";
    NotNetplan(dir);
    NotNetplan(NETWORKD_DIR);
    NotNetplan(dir + "/50-lab-in-a-box-iaid.conf");
  }

  function DropinChange(bridge: string, iaid: Option<string>): seq<Change> {
    match iaid
    case None => []
    case Some(text) =>
      [Write(DropinDir(bridge) + "/50-lab-in-a-box-iaid.conf", text, [NETWORKD_DIR, DropinDir(bridge)])]
  }

  lemma DropinAt(fs: FileSystem, bridge: string, iaid: Option<string>, p: Path)
    ensures At(ApplyAll(fs, DropinChange(bridge, iaid)), p) == DropinExpected(bridge, iaid, p, At(fs, p))
  {
    NetplanNames(bridge);
    if iaid.Some? {
      var write := DropinChange(bridge, iaid)[0];
      ApplyOne(fs, write);
      WriteAt(fs, write.path, iaid.value, write.parents, p);
    }
  }

  lemma {:induction false} YamlsAt(fs: FileSystem, plan: Plan, unlinks: seq<Change>, write: Change, edits: seq<Change>,
                                   p: Path)
    requires plan.NetplanPlan?
    requires |unlinks| == |plan.yamls| && forall i :: 0 <= i < |plan.yamls| ==> unlinks[i] == Unlink(plan.yamls[i])
    requires write == Write(NETPLAN_DIR + "/90-lab-in-a-box.yaml", plan.merged, [])
    requires |edits| == |plan.edits| && forall i :: 0 <= i < |plan.edits| ==>
             edits[i] == Edit(NETPLAN_DIR, plan.edits[i])
    ensures At(ApplyAll(ApplyAll(ApplyAll(fs, unlinks), [write]), edits), p) ==
            YamlsExpected(plan.yamls, plan.merged, plan.edits, p, At(fs, p))
  {
    var fs1 := ApplyAll(fs, unlinks);
    MergedName();
    UnlinksAt(fs, plan.yamls, unlinks, p);
    ApplyOne(fs1, write);
    WriteAt(fs1, write.path, plan.merged, [], p);
    EditsAt(ApplyAll(fs1, [write]), plan.edits, edits, NETPLAN_DIR, p);
  }

  lemma {:induction false} NetplanAt(fs: FileSystem, plan: Plan, p: Path)
    requires plan.NetplanPlan? && forall i :: 0 <= i < |plan.yamls| ==> Under(NETPLAN_DIR, plan.yamls[i])
    ensures At(ApplyAll(fs, StackChanges(plan)), p) == StackExpected(plan, p, At(fs, p))
  {
    var unlinks := seq(|plan.yamls|, i requires 0 <= i < |plan.yamls| => Unlink(plan.yamls[i]));
    var write := Write(NETPLAN_DIR + "/90-lab-in-a-box.yaml", plan.merged, []);
    var edits := seq(|plan.edits|, i requires 0 <= i < |plan.edits| => Edit(NETPLAN_DIR, plan.edits[i]));
    var drop := DropinChange(plan.bridge, plan.iaid);
    assert StackChanges(plan) == unlinks + [write] + edits + drop + [Command];
    FiveParts(fs, unlinks, [write], edits, drop);
    var fs3 := ApplyAll(ApplyAll(ApplyAll(fs, unlinks), [write]), edits);
    YamlsAt(fs, plan, unlinks, write, edits, p);
    DropinAt(fs3, plan.bridge, plan.iaid, p);
  }

  lemma {:induction false} FiveParts(fs: FileSystem, a: seq<Change>, b: seq<Change>, c: seq<Change>, d: seq<Change>)
    ensures ApplyAll(fs, a + b + c + d + [Command]) == ApplyAll(ApplyAll(ApplyAll(ApplyAll(fs, a), b), c), d)
  {
    ApplyTogether(fs, a, b);
    ApplyTogether(fs, a + b, c);
    ApplyTogether(fs, a + b + c, d);
    ApplyTogether(fs, a + b + c + d, [Command]);
    ApplyOne(ApplyAll(fs, a + b + c + d), Command);
  }

  /** Every path, once all changes are made: the files of the stack as planned, and everything else as it was. */
  predicate Configured(fs: FileSystem, plan: Plan, p: Path, now: FileSystem) {
    At(now, p) == StackExpected(plan, p, CloudExpected(fs, p))
  }

  lemma ChangesConfigure(fs: FileSystem, plan: Plan, p: Path)
    requires ValidPlan(fs, plan)
    ensures Configured(fs, plan, p, ApplyAll(fs, Changes(fs, plan)))
  {
    var mid := ApplyAll(fs, CloudChanges(fs));
    ApplyTogether(fs, CloudChanges(fs), StackChanges(plan));
    CloudAt(fs, p);
    match plan {
      case WickedPlan(_, _, _, _, _) => WickedAt(mid, plan, p);
      case NetworkdPlan(_, _, _, _) => NetworkdAt(mid, plan, p);
      case IfupdownPlan(_, _) => IfupdownAt(mid, plan, p);
      case NetplanPlan(_, _, _, _, _) => NetplanAt(mid, plan, p);
    }
  }

  /** Before the bridge is set in it, the merged file holds what the files together said, and those are gone. */
  lemma MergedFirst(fs: FileSystem, plan: Plan, p: Path)
    requires plan.NetplanPlan?
    ensures At(ApplyAll(fs, StackChanges(plan)[..|plan.yamls| + 1]), p) ==
            NetplanExpected(plan.yamls, plan.merged, p, At(fs, p))
  {
    var unlinks := seq(|plan.yamls|, i requires 0 <= i < |plan.yamls| => Unlink(plan.yamls[i]));
    var write := Write(NETPLAN_DIR + "/90-lab-in-a-box.yaml", plan.merged, []);
    assert StackChanges(plan)[..|plan.yamls| + 1] == unlinks + [write];
    ApplyTogether(fs, unlinks, [write]);
    UnlinksAt(fs, plan.yamls, unlinks, p);
    ApplyOne(ApplyAll(fs, unlinks), write);
    NetplanNames(plan.bridge);
    WriteAt(ApplyAll(fs, unlinks), write.path, plan.merged, [], p);
  }

  // ----- undoing any prefix -----

  /** The removals of the restore script remove nothing that was there before the run. */
  predicate RemovesNothing(fs: FileSystem, plan: Plan) {
    && CLOUD_INIT_NET_OFF !in fs
    && forall d, p :: d in Dropins(plan) && p in fs ==> !Under(d, p)
  }

  /** The removals are those of the cloud-init file and, on netplan with an IAID, of the bridge's drop-in directory. */
  lemma RemovesNothingMeans(fs: FileSystem, plan: Plan)
    ensures RemovesNothing(fs, plan) <==>
            && CLOUD_INIT_NET_OFF !in fs
            && (plan.NetplanPlan? && plan.iaid.Some? ==>
                  forall p :: p in fs ==>
                    !Under(DropinDir(plan.bridge), p))
  {
  }

  /** The directories the run writes to are there before it, so that they are backed up or need not be created. */
  predicate Ready(fs: FileSystem, plan: Plan) {
    match plan
    case NetplanPlan(_, _, _, _, iaid) => iaid.Some? ==> NETWORKD_DIR in fs
    case WickedPlan(_, _, _, _, _) => WICKED_DIR in fs
    case NetworkdPlan(_, _, _, _) => NETWORKD_DIR in fs
    case IfupdownPlan(_, _) => true
  }

  /** A path below one of these roots is only there when the root is, and then the root is a directory. */
  predicate Rooted(fs: FileSystem) {
    && forall p, root ::
         root in {NETPLAN_DIR, WICKED_DIR, NETWORKD_DIR, INTERFACES_DIR} && p in fs && Under(root, p) ==>
         root in fs && fs[root] == Dir
  }

  function ScriptOf(fs: FileSystem, plan: Plan): seq<Line> {
    Script(fs, StackOf(plan), Dropins(plan))
  }

  /** The restore script decides what the path holds. */
  predicate Covered(fs: FileSystem, plan: Plan, p: Path) {
    TouchedBy(ScriptOf(fs, plan), p)
  }

  /** The last lines that touch a path decide it. */
  lemma {:induction false} FinalValue(before: seq<Line>, lines: seq<Line>, p: Path, value: Option<Entry>)
    requires TouchedBy(lines, p)
    requires forall line :: line in lines && Touches(line, p) ==> Leaves(line, p) == value
    ensures TouchedBy(before + lines, p) && Final(before + lines, p) == value
  {
    var all, init := before + lines, lines[..|lines| - 1];
    var i :| 0 <= i < |lines| && Touches(lines[i], p);
    assert all[|before| + i] == lines[i];
    assert all[..|all| - 1] == before + init;
    if !Touches(lines[|lines| - 1], p) {
      assert init[i] == lines[i];
      FinalValue(before, init, p, value);
    }
  }

  lemma {:induction false} BackupFaithful(fs: FileSystem, sources: seq<Path>, line: Line, p: Path)
    requires line in BackupLines(fs, sources) && Touches(line, p)
    ensures Leaves(line, p) == At(fs, p)
  {
    var init := sources[..|sources| - 1];
    if line in BackupLines(fs, init) { BackupFaithful(fs, init, line, p); }
  }

  lemma CoveredIsOriginal(fs: FileSystem, plan: Plan, p: Path)
    requires RemovesNothing(fs, plan) && Covered(fs, plan, p)
    ensures Final(ScriptOf(fs, plan), p) == At(fs, p)
  {
    var lines := ScriptOf(fs, plan);
    forall line | line in lines && Touches(line, p) ensures Leaves(line, p) == At(fs, p) {
      if line in BackupLines(fs, StackPaths(StackOf(plan))) {
        BackupFaithful(fs, StackPaths(StackOf(plan)), line, p);
      }
    }
    FinalValue([], lines, p, At(fs, p));
    assert [] + lines == lines;
  }

  /** Restoring is exact from every state that differs only where the script decides. */
  lemma RestoreExact(fs: FileSystem, plan: Plan, now: FileSystem)
    requires RemovesNothing(fs, plan)
    requires forall p :: At(now, p) != At(fs, p) ==> Covered(fs, plan, p)
    ensures Execute(ScriptOf(fs, plan), now) == fs
  {
    var lines := ScriptOf(fs, plan);
    forall p ensures At(Execute(lines, now), p) == At(fs, p) {
      ExecuteAt(lines, now, p);
      if Covered(fs, plan, p) { CoveredIsOriginal(fs, plan, p); }
    }
    SameEverywhere(Execute(lines, now), fs);
  }

  lemma UnderChild(root: Path, rest: string)
    requires rest != [] && rest[0] == '/'
    ensures Under(root, root + rest)
  {
    assert root + rest == (root + "/") + rest[1..];
  }

  /** The backup of src says what p held. */
  predicate BacksUp(fs: FileSystem, src: Path, p: Path) {
    src in fs && if fs[src] == Dir then Under(src, p) else p == src
  }

  lemma {:induction false} BackupHas(fs: FileSystem, sources: seq<Path>, src: Path, p: Path)
    requires src in sources && BacksUp(fs, src, p)
    ensures TouchedBy(BackupLines(fs, sources), p)
  {
    var init, last := sources[..|sources| - 1], sources[|sources| - 1];
    var lines := BackupLines(fs, sources);
    if src == last {
      assert lines[|lines| - 1] == BackupLine(fs, src)[0];
    } else {
      BackupHas(fs, init, src, p);
      var i :| 0 <= i < |BackupLines(fs, init)| && Touches(BackupLines(fs, init)[i], p);
      assert lines[i] == BackupLines(fs, init)[i];
    }
  }

  lemma CoveredPaths(fs: FileSystem, plan: Plan, p: Path)
    ensures forall src :: src in StackPaths(StackOf(plan)) && BacksUp(fs, src, p) ==> Covered(fs, plan, p)
    ensures p == CLOUD_INIT_NET_OFF ==> Covered(fs, plan, p)
    ensures forall d :: d in Dropins(plan) && Under(d, p) ==> Covered(fs, plan, p)
  {
    var backup := BackupLines(fs, StackPaths(StackOf(plan)));
    var lines := ScriptOf(fs, plan);
    forall src | src in StackPaths(StackOf(plan)) && BacksUp(fs, src, p)
      ensures Covered(fs, plan, p)
    {
      BackupHas(fs, StackPaths(StackOf(plan)), src, p);
      var i :| 0 <= i < |backup| && Touches(backup[i], p);
      assert lines[i] == backup[i];
    }
    assert lines[|backup|] == RemoveFile(CLOUD_INIT_NET_OFF);
    forall d | d in Dropins(plan) && Under(d, p) ensures Covered(fs, plan, p) {
      var i :| 0 <= i < |Dropins(plan)| && Dropins(plan)[i] == d;
      assert lines[|backup| + 2 + i] == RemoveTree(d);
    }
  }

  /** The only paths a change can alter: its target, and parents that were missing. */
  predicate MayAlter(c: Change, now: FileSystem, p: Path) {
    match c
    case Write(path, _, parents) => p == path || (p in parents && p !in now)
    case Unlink(path) => p == path
    case Edit(root, _) => Under(root, p)
    case Command => false
  }

  lemma ApplyAlters(c: Change, now: FileSystem, p: Path)
    ensures At(Apply(now, c), p) != At(now, p) ==> MayAlter(c, now, p)
  {
  }

  lemma CloudCovered(fs: FileSystem, plan: Plan, c: Change, now: FileSystem, p: Path)
    requires c in CloudChanges(fs) && MayAlter(c, now, p)
    ensures Covered(fs, plan, p)
  {
    CoveredPaths(fs, plan, p);
  }

  lemma WickedCovered(fs: FileSystem, plan: Plan, c: Change, now: FileSystem, p: Path)
    requires plan.WickedPlan? && Rooted(fs) && Ready(fs, plan)
    requires c in StackChanges(plan) && MayAlter(c, now, p)
    ensures Covered(fs, plan, p)
  {
    CoveredPaths(fs, plan, p);
    UnderChild(WICKED_DIR, "/ifcfg-" + plan.nic);
    UnderChild(WICKED_DIR, "/ifcfg-" + plan.bridge);
    UnderChild(WICKED_DIR, "/routes");
    assert Under(WICKED_DIR, p);
    assert StackPaths(Wicked)[0] == WICKED_DIR && BacksUp(fs, WICKED_DIR, p);
  }

  lemma NetworkdPaths(plan: Plan, c: Change, now: FileSystem, p: Path)
    requires plan.NetworkdPlan? && c in StackChanges(plan) && MayAlter(c, now, p)
    ensures Under(NETWORKD_DIR, p)
  {
    var d := "/05-lab-in-a-box-" + plan.bridge;
    UnderChild(NETWORKD_DIR, d + ".netdev");
    UnderChild(NETWORKD_DIR, d + "-port.network");
    UnderChild(NETWORKD_DIR, d + ".network");
  }

  lemma NetworkdCovered(fs: FileSystem, plan: Plan, c: Change, now: FileSystem, p: Path)
    requires plan.NetworkdPlan? && Rooted(fs) && Ready(fs, plan)
    requires c in StackChanges(plan) && MayAlter(c, now, p)
    ensures Covered(fs, plan, p)
  {
    CoveredPaths(fs, plan, p);
    NetworkdPaths(plan, c, now, p);
    assert StackOf(plan) == Networkd && StackPaths(Networkd)[0] == NETWORKD_DIR;
    assert NETWORKD_DIR in StackPaths(StackOf(plan));
    assert BacksUp(fs, NETWORKD_DIR, p);
  }

  lemma IfupdownCovered(fs: FileSystem, plan: Plan, c: Change, now: FileSystem, p: Path)
    requires plan.IfupdownPlan? && Rooted(fs) && ValidPlan(fs, plan)
    requires c in StackChanges(plan) && MayAlter(c, now, p)
    ensures Covered(fs, plan, p)
  {
    CoveredPaths(fs, plan, p);
    assert p == plan.target;
    assert StackPaths(Ifupdown)[0] == INTERFACES && StackPaths(Ifupdown)[1] == INTERFACES_DIR;
    assert BacksUp(fs, INTERFACES, p) || BacksUp(fs, INTERFACES_DIR, p);
  }

  lemma DropinCovered(fs: FileSystem, plan: Plan, c: Change, now: FileSystem, p: Path)
    requires plan.NetplanPlan? && plan.iaid.Some? && MayAlter(c, now, p)
    requires c == Write(DropinDir(plan.bridge) + "/50-lab-in-a-box-iaid.conf", plan.iaid.value,
                        [NETWORKD_DIR, DropinDir(plan.bridge)])
    ensures Covered(fs, plan, p) || (p == NETWORKD_DIR && p !in now)
  {
    var d := DropinDir(plan.bridge);
    CoveredPaths(fs, plan, p);
    UnderChild(d, "/50-lab-in-a-box-iaid.conf");
    assert Dropins(plan)[0] == d && d in Dropins(plan);
    assert Under(d, p) || (p == NETWORKD_DIR && p !in now) by {
      assert p == c.path || (p in c.parents && p !in now);
      assert p in c.parents ==> p == NETWORKD_DIR || p == d;
    }
  }

  lemma NetplanCovered(fs: FileSystem, plan: Plan, c: Change, now: FileSystem, p: Path)
    requires plan.NetplanPlan? && Rooted(fs) && ValidPlan(fs, plan)
    requires c in StackChanges(plan) && MayAlter(c, now, p)
    ensures Covered(fs, plan, p) || (plan.iaid.Some? && p == NETWORKD_DIR && p !in now)
  {
    CoveredPaths(fs, plan, p);
    UnderChild(NETPLAN_DIR, "/90-lab-in-a-box.yaml");
    assert StackPaths(Netplan)[0] == NETPLAN_DIR;
    if Under(NETPLAN_DIR, p) {
      assert BacksUp(fs, NETPLAN_DIR, p);
    } else if plan.iaid.Some? && c in StackChanges(plan) {
      DropinCovered(fs, plan, c, now, p);
    }
  }

  /** Changes of the run, however many and in whatever order, stay where the script decides. */
  lemma {:induction false} ChangesCovered(fs: FileSystem, plan: Plan, changes: seq<Change>, p: Path)
    requires Rooted(fs) && ValidPlan(fs, plan) && Ready(fs, plan)
    requires forall c :: c in changes ==> c in Changes(fs, plan)
    ensures At(ApplyAll(fs, changes), p) != At(fs, p) ==> Covered(fs, plan, p)
  {
    if changes != [] {
      var init, c := changes[..|changes| - 1], changes[|changes| - 1];
      ChangesCovered(fs, plan, init, p);
      LastCovered(fs, plan, c, ApplyAll(fs, init), p);
    }
  }

  lemma LastCovered(fs: FileSystem, plan: Plan, c: Change, now: FileSystem, p: Path)
    requires Rooted(fs) && ValidPlan(fs, plan) && Ready(fs, plan)
    requires c in Changes(fs, plan) && (At(now, p) != At(fs, p) ==> Covered(fs, plan, p))
    ensures At(Apply(now, c), p) != At(fs, p) ==> Covered(fs, plan, p)
  {
    ApplyAlters(c, now, p);
    if MayAlter(c, now, p) { ChangeCovered(fs, plan, c, now, p); }
  }

  lemma ChangeCovered(fs: FileSystem, plan: Plan, c: Change, now: FileSystem, p: Path)
    requires Rooted(fs) && ValidPlan(fs, plan) && Ready(fs, plan)
    requires c in Changes(fs, plan) && MayAlter(c, now, p) && (At(now, p) == At(fs, p) || Covered(fs, plan, p))
    ensures Covered(fs, plan, p)
  {
    if c in CloudChanges(fs) {
      CloudCovered(fs, plan, c, now, p);
    } else {
      assert c in StackChanges(plan);
      match plan {
        case WickedPlan(_, _, _, _, _) => WickedCovered(fs, plan, c, now, p);
        case NetworkdPlan(_, _, _, _) => NetworkdCovered(fs, plan, c, now, p);
        case IfupdownPlan(_, _) => IfupdownCovered(fs, plan, c, now, p);
        case NetplanPlan(_, _, _, _, _) => NetplanCovered(fs, plan, c, now, p);
      }
    }
  }

  lemma LastOfStretch(fs: FileSystem, changes: seq<Change>, a: nat, k: nat)
    requires a < k <= |changes|
    ensures ApplyAll(fs, changes[a..k]) == Apply(ApplyAll(fs, changes[a..k - 1]), changes[k - 1])
  {
    assert changes[a..k][..k - a - 1] == changes[a..k - 1];
  }

  /**
   The script takes every stretch of the changes back to the origin: those from the start, and those that follow a
   restore in between.
   */
  predicate Undoes(origin: FileSystem, changes: seq<Change>, script: seq<Line>) {
    forall a, k :: 0 <= a <= k <= |changes| ==> Execute(script, ApplyAll(origin, changes[a..k])) == origin
  }

  /** The restore script undoes the run wherever it stopped. */
  predicate AlwaysUndone(fs: FileSystem, plan: Plan) {
    Undoes(fs, Changes(fs, plan), ScriptOf(fs, plan))
  }

  lemma RemovalsShow(fs: FileSystem, plan: Plan)
    requires !RemovesNothing(fs, plan)
    ensures Execute(ScriptOf(fs, plan), fs) != fs
  {
    var backup := BackupLines(fs, StackPaths(StackOf(plan)));
    var tail := [RemoveFile(CLOUD_INIT_NET_OFF), Reload]
      + seq(|Dropins(plan)|, i requires 0 <= i < |Dropins(plan)| => RemoveTree(Dropins(plan)[i]));
    var p: Path;
    if CLOUD_INIT_NET_OFF in fs {
      p := CLOUD_INIT_NET_OFF;
      assert Touches(tail[0], p);
    } else {
      var d, q :| d in Dropins(plan) && q in fs && Under(d, q);
      p := q;
      assert tail[2] == RemoveTree(d);
      assert Touches(tail[2], p);
    }
    FinalValue(backup, tail, p, None);
    assert ScriptOf(fs, plan) == backup + tail;
    ExecuteAt(ScriptOf(fs, plan), fs, p);
  }

  lemma StaysBehind(fs: FileSystem, changes: seq<Change>, lines: seq<Line>, k: nat, root: Path)
    requires k < |changes| && changes[k].Write? && root in changes[k].parents
    requires root !in fs && !TouchedBy(lines, root)
    ensures !Undoes(fs, changes, lines)
  {
    LastOfStretch(fs, changes, 0, k + 1);
    var now := ApplyAll(fs, changes[0..k + 1]);
    assert root in now;
    ExecuteAt(lines, now, root);
    assert Execute(lines, now) != fs;
  }

  /** A directory the run had to create stays behind. */
  lemma UncoveredDirectory(fs: FileSystem, plan: Plan, k: nat, root: Path)
    requires k < |Changes(fs, plan)| && Changes(fs, plan)[k].Write? && root in Changes(fs, plan)[k].parents
    requires root !in fs && !Covered(fs, plan, root)
    ensures !AlwaysUndone(fs, plan)
  {
    StaysBehind(fs, Changes(fs, plan), ScriptOf(fs, plan), k, root);
  }

  lemma {:induction false} AbsentNotBackedUp(fs: FileSystem, sources: seq<Path>, p: Path)
    requires forall src :: src in sources ==> src !in fs || !Under(src, p)
    ensures !TouchedBy(BackupLines(fs, sources), p)
  {
    if sources != [] {
      AbsentNotBackedUp(fs, sources[..|sources| - 1], p);
    }
  }

  lemma NotCovered(fs: FileSystem, plan: Plan, p: Path)
    requires forall src :: src in StackPaths(StackOf(plan)) ==> src !in fs || !Under(src, p)
    requires p != CLOUD_INIT_NET_OFF && forall d :: d in Dropins(plan) ==> !Under(d, p)
    ensures !Covered(fs, plan, p)
  {
    AbsentNotBackedUp(fs, StackPaths(StackOf(plan)), p);
    var backup, lines := BackupLines(fs, StackPaths(StackOf(plan))), ScriptOf(fs, plan);
    forall i | 0 <= i < |lines| ensures !Touches(lines[i], p) {
      if i < |backup| {
        assert lines[i] == backup[i];
      } else if i >= |backup| + 2 {
        assert lines[i] == RemoveTree(Dropins(plan)[i - |backup| - 2]);
      }
    }
  }

  /**
   The restore script returns the file system to its state before the run from every stretch of the changes exactly when
   its removals remove nothing that was there, and no directory had to be created outside the backed-up ones.
   */
  lemma UndoesEveryPrefix(fs: FileSystem, plan: Plan)
    requires Rooted(fs) && ValidPlan(fs, plan)
    ensures AlwaysUndone(fs, plan) <==> RemovesNothing(fs, plan) && Ready(fs, plan)
  {
    var changes := Changes(fs, plan);
    if !RemovesNothing(fs, plan) {
      RemovalsShow(fs, plan);
      assert ApplyAll(fs, changes[0..0]) == fs;
    } else if !Ready(fs, plan) {
      var n := |CloudChanges(fs)|;
      match plan {
        case WickedPlan(_, _, _, _, _) =>
          assert StackPaths(Wicked) == [WICKED_DIR];
          NotCovered(fs, plan, WICKED_DIR);
          assert changes[n] == StackChanges(plan)[0];
          UncoveredDirectory(fs, plan, n, WICKED_DIR);
        case NetworkdPlan(_, _, _, _) =>
          assert StackPaths(Networkd) == [NETWORKD_DIR];
          NotCovered(fs, plan, NETWORKD_DIR);
          assert changes[n] == StackChanges(plan)[0];
          UncoveredDirectory(fs, plan, n, NETWORKD_DIR);
        case NetplanPlan(bridge, _, _, _, iaid) =>
          assert (NETPLAN_DIR + "/")[5] != NETWORKD_DIR[5];
          assert |DropinDir(bridge)| > |NETWORKD_DIR|;
          NotCovered(fs, plan, NETWORKD_DIR);
          var k := |changes| - 2;
          assert changes[k] == StackChanges(plan)[|StackChanges(plan)| - 2];
          UncoveredDirectory(fs, plan, k, NETWORKD_DIR);
      }
    } else {
      forall a, k | 0 <= a <= k <= |changes|
        ensures Execute(ScriptOf(fs, plan), ApplyAll(fs, changes[a..k])) == fs
      {
        forall p ensures At(ApplyAll(fs, changes[a..k]), p) != At(fs, p) ==> Covered(fs, plan, p) {
          ChangesCovered(fs, plan, changes[a..k], p);
        }
        RestoreExact(fs, plan, ApplyAll(fs, changes[a..k]));
      }
    }
  }

  // ----- the protocol -----

  datatype Phase = Fresh | Changing(done: nat) | Reached | Stopped

  /**
   One run: the files, the armed timer, whether the restore script ran, whether the gateway was reached, and how many
   changes were made when the timer fired, if it did before the run ended.
   */
  datatype Run = Run(fs: FileSystem, armed: bool, restored: bool, reached: bool, fired: Option<nat>, phase: Phase)

  function Start(fs: FileSystem): Run {
    Run(fs, false, false, false, None, Fresh)
  }

  function Restored(script: seq<Line>, s: Run): Run {
    s.(fs := Execute(script, s.fs), restored := true, phase := Stopped)
  }

  /** The timer fires between two changes, or before the gateway was reached; the run does not notice. */
  function Overtaken(script: seq<Line>, s: Run, done: nat): Run {
    s.(fs := Execute(script, s.fs), restored := true, armed := false, fired := Some(done))
  }

  /** One step of a run, or of the timer it arms. */
  predicate Next(changes: seq<Change>, script: seq<Line>, s: Run, t: Run) {
    match s.phase
    case Fresh =>
      t == s.(armed := true, phase := Changing(0)) || t == s.(phase := Stopped)
    case Changing(done) =>
      || (done < |changes| && t == s.(fs := Apply(s.fs, changes[done]), phase := Changing(done + 1)))
      || t == s.(phase := Stopped)                                                    // a change failed
      || (done == |changes| && t == s.(reached := true, phase := Reached))
      || (done == |changes| && t == Restored(script, s))                              // the gateway was not reached
      || (s.armed && t == Overtaken(script, s, done))
    case Reached =>
      || t == s.(armed := false, phase := Stopped)
      || t == s.(phase := Stopped)                                                    // stopping the timer failed
      || (s.armed && t == Overtaken(script, s, |changes|))
    case Stopped =>
      s.armed && t == Restored(script, s).(armed := false)                            // the timer fires
  }

  predicate Behavior(origin: FileSystem, changes: seq<Change>, script: seq<Line>, runs: seq<Run>) {
    && runs != [] && runs[0] == Start(origin)
    && forall i :: 0 < i < |runs| ==> Next(changes, script, runs[i - 1], runs[i])
  }

  /** The changes from number a up to number k were made since the files were the origin. */
  predicate Stretch(origin: FileSystem, changes: seq<Change>, fs: FileSystem, a: nat, k: nat) {
    a <= k <= |changes| && fs == ApplyAll(origin, changes[a..k])
  }

  ghost predicate SomeStretch(origin: FileSystem, changes: seq<Change>, fs: FileSystem, a: nat) {
    exists k: nat :: Stretch(origin, changes, fs, a, k)
  }

  /** The first change since the start, or since the timer fired. */
  function Since(s: Run): nat {
    if s.fired.Some? then s.fired.value else 0
  }

  /** The timer is armed until it fires. */
  predicate Timed(s: Run) {
    (s.armed <==> s.fired == None) && (s.restored <==> s.fired.Some?)
  }

  ghost predicate Invariant(origin: FileSystem, changes: seq<Change>, s: Run) {
    match s.phase
    case Fresh => s == Start(origin)
    case Changing(done) => Stretch(origin, changes, s.fs, Since(s), done) && Timed(s) && !s.reached
    case Reached => Stretch(origin, changes, s.fs, Since(s), |changes|) && Timed(s) && s.reached
    case Stopped =>
      && (s.restored && s.fired == None ==> s.fs == origin)
      && (s.fs == origin || SomeStretch(origin, changes, s.fs, Since(s)))
      && (s.fs != origin ==> s.armed || s.reached || s.fired.Some?)
  }

  lemma StretchStep(origin: FileSystem, changes: seq<Change>, fs: FileSystem, a: nat, done: nat)
    requires Stretch(origin, changes, fs, a, done) && done < |changes|
    ensures Stretch(origin, changes, Apply(fs, changes[done]), a, done + 1)
  {
    LastOfStretch(origin, changes, a, done + 1);
  }

  lemma NoChangeYet(origin: FileSystem, changes: seq<Change>, a: nat)
    requires a <= |changes|
    ensures Stretch(origin, changes, origin, a, a)
  {
    assert changes[a..a] == [];
  }

  lemma RestoreUndoes(origin: FileSystem, changes: seq<Change>, script: seq<Line>, s: Run, a: nat)
    requires Undoes(origin, changes, script)
    requires s.fs == origin || SomeStretch(origin, changes, s.fs, a)
    ensures Execute(script, s.fs) == origin
  {
    NoChangeYet(origin, changes, 0);
    assert Execute(script, ApplyAll(origin, changes[0..0])) == origin;
    if k: nat :| Stretch(origin, changes, s.fs, a, k) {
      assert Execute(script, ApplyAll(origin, changes[a..k])) == origin;
    }
  }

  lemma {:induction false} InvariantKept(origin: FileSystem, changes: seq<Change>, script: seq<Line>, s: Run, t: Run)
    requires Undoes(origin, changes, script)
    requires Invariant(origin, changes, s) && Next(changes, script, s, t)
    ensures Invariant(origin, changes, t)
  {
    match s.phase {
      case Fresh => NoChangeYet(origin, changes, 0);
      case Changing(done) =>
        RestoreUndoes(origin, changes, script, s, Since(s));
        ChangingKept(origin, changes, script, s, t, done);
      case Reached =>
        NoChangeYet(origin, changes, |changes|);
        RestoreUndoes(origin, changes, script, s, Since(s));
      case Stopped =>
        RestoreUndoes(origin, changes, script, s, Since(s));
    }
  }

  lemma {:induction false} ChangingKept(origin: FileSystem, changes: seq<Change>, script: seq<Line>, s: Run, t: Run,
                                        done: nat)
    requires s.phase == Changing(done) && Invariant(origin, changes, s)
    requires Next(changes, script, s, t) && Execute(script, s.fs) == origin
    ensures Invariant(origin, changes, t)
  {
    match t.phase {
      case Changing(now) =>
        if now == done {
          NoChangeYet(origin, changes, done); } else { StretchStep(origin, changes, s.fs, Since(s), done);
        }
      case Stopped => assert t.fs == origin || Stretch(origin, changes, t.fs, Since(t), done);
      case _ =>
    }
  }

  lemma {:induction false} InvariantHolds(origin: FileSystem, changes: seq<Change>, script: seq<Line>, runs: seq<Run>)
    requires Undoes(origin, changes, script) && Behavior(origin, changes, script, runs)
    ensures Invariant(origin, changes, runs[|runs| - 1])
  {
    if |runs| > 1 {
      var init := runs[..|runs| - 1];
      forall i | 0 < i < |init| ensures Next(changes, script, init[i - 1], init[i]) {
        assert Next(changes, script, runs[i - 1], runs[i]);
      }
      InvariantHolds(origin, changes, script, init);
      InvariantKept(origin, changes, script, runs[|runs| - 2], runs[|runs| - 1]);
    }
  }

  /**
   In every reachable state: a changed configuration is still guarded by the timer, or was reached through the bridge,
   or the timer fired too early; and once the restore script ran, unless it was then, the files are those from before
   the run. A timer that fires after some of the changes leaves exactly the later ones unguarded.
   */
  lemma AlwaysGuarded(origin: FileSystem, plan: Plan, runs: seq<Run>)
    requires Rooted(origin) && ValidPlan(origin, plan) && RemovesNothing(origin, plan) && Ready(origin, plan)
    requires Behavior(origin, Changes(origin, plan), ScriptOf(origin, plan), runs)
    ensures var s := runs[|runs| - 1];
            && (s.fs != origin ==> s.armed || s.reached || s.fired.Some?)
            && (s.restored && s.fired == None ==> s.fs == origin)
            && (s.fs != origin ==> SomeStretch(origin, Changes(origin, plan), s.fs, Since(s)))
  {
    UndoesEveryPrefix(origin, plan);
    InvariantHolds(origin, Changes(origin, plan), ScriptOf(origin, plan), runs);
    NoChangeYet(origin, Changes(origin, plan), 0);
  }

  lemma BehaviorStep(origin: FileSystem, changes: seq<Change>, script: seq<Line>, runs: seq<Run>, s: Run)
    requires Behavior(origin, changes, script, runs) && Next(changes, script, runs[|runs| - 1], s)
    ensures Behavior(origin, changes, script, runs + [s])
  {
    var more := runs + [s];
    forall i | 0 < i < |more| ensures Next(changes, script, more[i - 1], more[i]) {
      if i < |runs| { assert Next(changes, script, runs[i - 1], runs[i]); }
    }
  }

  /** A run that armed the timer. */
  lemma Armed(origin: FileSystem, changes: seq<Change>, script: seq<Line>) returns (runs: seq<Run>)
    ensures Behavior(origin, changes, script, runs)
    ensures runs[|runs| - 1] == Run(origin, true, false, false, None, Changing(0))
  {
    var s := Run(origin, true, false, false, None, Changing(0));
    BehaviorStep(origin, changes, script, [Start(origin)], s);
    runs := [Start(origin)] + [s];
  }

  /** From a state of a run where the files are the origin, the changes up to number k are made. */
  lemma {:induction false} Continued(origin: FileSystem, changes: seq<Change>, script: seq<Line>, runs: seq<Run>,
                                     a: nat, k: nat)
    returns (more: seq<Run>)
    requires Behavior(origin, changes, script, runs) && a <= k <= |changes|
    requires runs[|runs| - 1].phase == Changing(a) && runs[|runs| - 1].fs == origin
    ensures Behavior(origin, changes, script, more)
    ensures more[|more| - 1] == runs[|runs| - 1].(fs := ApplyAll(origin, changes[a..k]), phase := Changing(k))
    decreases k
  {
    if k == a {
      NoChangeYet(origin, changes, a);
      more := runs;
    } else {
      more := Continued(origin, changes, script, runs, a, k - 1);
      LastOfStretch(origin, changes, a, k);
      var s := runs[|runs| - 1].(fs := ApplyAll(origin, changes[a..k]), phase := Changing(k));
      BehaviorStep(origin, changes, script, more, s);
      more := more + [s];
    }
  }

  /**
   A run in which the gateway was reached through the bridge, and all the same rolled back: stopping the timer failed.
   */
  lemma ReachedButRolledBack(origin: FileSystem, changes: seq<Change>, script: seq<Line>) returns (runs: seq<Run>)
    requires Undoes(origin, changes, script)
    ensures Behavior(origin, changes, script, runs) && |runs| >= 2
    ensures var kept, end := runs[|runs| - 2], runs[|runs| - 1];
            && kept.reached && kept.fs == ApplyAll(origin, changes)
            && end.reached && end.restored && end.fs == origin
  {
    runs := Armed(origin, changes, script);
    runs := Continued(origin, changes, script, runs, 0, |changes|);
    assert changes[0..|changes|] == changes;
    var after := ApplyAll(origin, changes);
    var s, t := Run(after, true, false, true, None, Reached), Run(after, true, false, true, None, Stopped);
    BehaviorStep(origin, changes, script, runs, s);
    BehaviorStep(origin, changes, script, runs + [s], t);
    assert Stretch(origin, changes, after, 0, |changes|);
    RestoreUndoes(origin, changes, script, t, 0);
    var end := Restored(script, t).(armed := false);
    BehaviorStep(origin, changes, script, runs + [s] + [t], end);
    runs := runs + [s] + [t] + [end];
  }

  /**
   For any two numbers of changes, a run whose timer fired after the one and which ended after the other, unguarded.
   */
  lemma OvertakenIsUnguarded(origin: FileSystem, changes: seq<Change>, script: seq<Line>, a: nat, k: nat)
    returns (runs: seq<Run>)
    requires Undoes(origin, changes, script) && a <= k <= |changes|
    ensures Behavior(origin, changes, script, runs)
    ensures runs[|runs| - 1] == Run(ApplyAll(origin, changes[a..k]), false, true, false, Some(a), Stopped)
  {
    runs := Armed(origin, changes, script);
    runs := Continued(origin, changes, script, runs, 0, a);
    var s := runs[|runs| - 1];
    assert Stretch(origin, changes, s.fs, 0, a);
    RestoreUndoes(origin, changes, script, s, 0);
    BehaviorStep(origin, changes, script, runs, Overtaken(script, s, a));
    runs := Continued(origin, changes, script, runs + [Overtaken(script, s, a)], a, k);
    var end := runs[|runs| - 1].(phase := Stopped);
    BehaviorStep(origin, changes, script, runs, end);
    runs := runs + [end];
  }

  datatype Outcome = Bridged | NotArmed | ChangeFailed | GatewayUnreachable

  class Machine {
    var fs: FileSystem
    var armed: bool
    var restored: bool
    var reached: bool
    var fired: Option<nat>

    ghost function State(phase: Phase): Run
      reads this
    {
      Run(fs, armed, restored, reached, fired, phase)
    }

    constructor (fs: FileSystem)
      ensures State(Fresh) == Start(fs)
    {
      this.fs := fs;
      armed, restored, reached, fired := false, false, false, None;
    }

    /** The restore script, as make_bridge() puts it together. */
    method WriteScript(plan: Plan) returns (script: seq<Line>)
      ensures script == ScriptOf(fs, plan)
    {
      script := Backup(fs, StackOf(plan));
      var dropins := Dropins(plan);
      script := script + [Reload] + seq(|dropins|, i requires 0 <= i < |dropins| => RemoveTree(dropins[i]));
    }

    /**
     make_bridge() from the backup on. Arming, every change, the gateway check and both timer commands may fail, and the
     timer may fire at any time; the run is a behavior of the protocol up to its last state.
     */
    method MakeBridge(plan: Plan) returns (outcome: Outcome, ghost runs: seq<Run>)
      requires State(Fresh) == Start(fs)
      modifies this
      ensures Behavior(old(fs), Changes(old(fs), plan), ScriptOf(old(fs), plan), runs)
      ensures runs[|runs| - 1] == State(Stopped)
      ensures outcome == Bridged <==> reached
      ensures outcome == Bridged && fired == None ==> fs == ApplyAll(old(fs), Changes(old(fs), plan))
      ensures outcome == Bridged && fired == None && ValidPlan(old(fs), plan) ==>
                forall p :: Configured(old(fs), plan, p, fs)
      ensures outcome in {NotArmed, ChangeFailed} && fired == None ==> !restored
    {
      var script := WriteScript(plan);
      var changes := Changes(fs, plan);
      if ValidPlan(fs, plan) {
        forall p ensures Configured(fs, plan, p, ApplyAll(fs, changes)) { ChangesConfigure(fs, plan, p); }
      }
      outcome, runs := ChangeGuarded(changes, script);
    }

    /** The timer fires while the run goes on, or not. */
    method Wait(script: seq<Line>, ghost origin: FileSystem, ghost changes: seq<Change>, ghost runs: seq<Run>,
                done: nat, ghost phase: Phase)
      returns (ghost more: seq<Run>)
      requires Behavior(origin, changes, script, runs) && runs[|runs| - 1] == State(phase)
      requires phase == Changing(done) || (phase == Reached && done == |changes|)
      modifies this
      ensures Behavior(origin, changes, script, more) && more[|more| - 1] == State(phase)
      ensures reached == old(reached)
      ensures (fired == old(fired) && fs == old(fs) && restored == old(restored)) || fired.Some?
    {
      var fires: bool := *;
      more := runs;
      if fires && armed {
        fs := Execute(script, fs);
        restored, armed, fired := true, false, Some(done);
        BehaviorStep(origin, changes, script, runs, State(phase));
        more := runs + [State(phase)];
      }
    }

    method ChangeGuarded(changes: seq<Change>, script: seq<Line>) returns (outcome: Outcome, ghost runs: seq<Run>)
      requires State(Fresh) == Start(fs)
      modifies this
      ensures Behavior(old(fs), changes, script, runs) && runs[|runs| - 1] == State(Stopped)
      ensures outcome == Bridged <==> reached
      ensures outcome == Bridged && fired == None ==> fs == ApplyAll(old(fs), changes)
      ensures outcome in {NotArmed, ChangeFailed} && fired == None ==> !restored
    {
      ghost var origin := fs;
      runs := [State(Fresh)];
      var ok: bool := *;
      if !ok {
        BehaviorStep(origin, changes, script, runs, State(Stopped));
        runs := runs + [State(Stopped)];
        return NotArmed, runs;
      }
      armed := true;
      BehaviorStep(origin, changes, script, runs, State(Changing(0)));
      runs := runs + [State(Changing(0))];
      NoChangeYet(origin, changes, 0);
      for i := 0 to |changes|
        invariant Behavior(origin, changes, script, runs) && runs[|runs| - 1] == State(Changing(i))
        invariant fired == None ==> Stretch(origin, changes, fs, 0, i) && !restored
        invariant !reached
      {
        runs := Wait(script, origin, changes, runs, i, Changing(i));
        ok := *;
        if !ok {
          BehaviorStep(origin, changes, script, runs, State(Stopped));
          runs := runs + [State(Stopped)];
          return ChangeFailed, runs;
        }
        if fired == None { StretchStep(origin, changes, fs, 0, i); }
        fs := Apply(fs, changes[i]);
        BehaviorStep(origin, changes, script, runs, State(Changing(i + 1)));
        runs := runs + [State(Changing(i + 1))];
      }
      assert changes[0..|changes|] == changes;
      outcome, runs := Finish(script, origin, changes, runs);
    }

    /** The gateway check, and what follows it. */
    method Finish(script: seq<Line>, ghost origin: FileSystem, changes: seq<Change>, ghost before: seq<Run>)
      returns (outcome: Outcome, ghost runs: seq<Run>)
      requires Behavior(origin, changes, script, before) && !reached
      requires before[|before| - 1] == State(Changing(|changes|))
      modifies this
      ensures Behavior(origin, changes, script, runs) && runs[|runs| - 1] == State(Stopped)
      ensures outcome in {Bridged, GatewayUnreachable} && (outcome == Bridged <==> reached)
      ensures outcome == Bridged && fired == None ==> fs == old(fs) && old(fired) == None
    {
      runs := Wait(script, origin, changes, before, |changes|, Changing(|changes|));
      var gateway: bool := *;
      if !gateway {
        var ok: bool := *;
        if ok {
          fs := Execute(script, fs);
          restored := true;
        }
        BehaviorStep(origin, changes, script, runs, State(Stopped));
        runs := runs + [State(Stopped)];
        return GatewayUnreachable, runs;
      }
      reached := true;
      BehaviorStep(origin, changes, script, runs, State(Reached));
      runs := Wait(script, origin, changes, runs + [State(Reached)], |changes|, Reached);
      var ok: bool := *;
      if ok { armed := false; }
      BehaviorStep(origin, changes, script, runs, State(Stopped));
      runs := runs + [State(Stopped)];
      outcome := Bridged;
    }
  }
}
