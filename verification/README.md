# lab-in-a-box: a verified model

A Dafny model of the parts of lab-in-a-box that keep state, with proofs of what they keep. `dafny verify dfyconfig.toml`
checks all of it.

Two shapes recur: registries of lines that are edited in place, and ledgers of versions or addresses that must stay
consistent over every run. Code that works by changing things step by step is a class or a method with its loops, proved
against functions on values; the theorems are about these functions.

| files | what they model |
|---|---|
| `WgConf`, `LivePeers`, `OverlayHub`, `OverlayRetire`, `OverlayLive`, `OverlayNames`, `OverlayRuns`, `OverlayRoutes`, `Overlay`, `Plans`, `Bre` | the WireGuard overlay: four registries on the hub, `wg0.conf` as text edited by line number, the live peers and kernel routes, the route scripts of the nodes |
| `Json`, `SchemaValidate`, `AcceptedValues`, `SchemaVersions`, `SchemaCompatibility` | the validator, which values it accepts, the compatibility checker, and that the two agree |
| `Migrations`, `NewForms`, `SchemaMigration` | the 22 migration steps, what they leave, what is pending, migrating and stamping |
| `Ipv4`, `IpAlloc`, `IpSharing`, `IpPreview` | address allocation from the definition and the DNS zone, when two nodes can share an address, and the preview of a run |
| `HostNetwork`, `Ifupdown` | bridging a NIC with a timed rollback, and the rewriting of `/etc/network/interfaces` |
| `ImageCache` | the script that fetches and verifies a base image |
| `PortForward`, `DnsZone` | the rebuilt iptables chains and what they do to packets; the normal form and the matching pattern of zone lines |
| `Text`, `Decimal`, `Wrappers` | words, numbers and optional values |

A remote command takes effect as a whole or not at all. A failed command that is checked ends its function; a failed one
that is not checked does not. What SHA-256, the resolver, `ping`, Python's regular expressions and the texts of floats and
containers give are arbitrary functions or parameters.

## What does not always hold

Where a promise turned out to have an exception, a lemma gives the case and another one the exact condition:

- Retiring an overlay site deletes registry lines with the site's name as a regular expression. A dot or a star in the name
  deletes the lines of other sites and strands their peers, and with a star the site's own lines stay
  (`OverlayRuns.DottedNameStrands`, `OverlayRuns.StarredNameStrands`; exactly: `OverlayRetire.RetireKeepsIff`,
  `OverlayRetire.DeletesOwnLines`).
- The commands of a retirement are not checked: a peer whose removal failed stays on a hub whose registries forget its site
  (`OverlayRetire.PreciseRetireKeepsIff`).
- A site name is made from the name of an account's file. With a blank in it the site is not found again, its address is
  given to the next site as well, and its line is appended again at each registration (`OverlayNames.NameFoundIff`,
  `OverlayNames.AddressSharedIff`, `OverlayNames.RegisterTwiceIff`).
- The query for a peer's marker is not checked either: when it does not get through, a second block of the same name is
  appended (`WgConf.AppendAdds`). A site that joins again with another key keeps its old block, and one that joins again
  takes a network it shares with a later site back until the next restart (`OverlayLive.StoppedJoinAgreesIff`). Retiring
  the site that holds a shared network leaves the other without it until then (`OverlayLive.RetireAgreesIff`).
- A change that is not reported as breaking can still refuse old values: narrowed bounds, a new enum or form, or an enum
  value replaced by an equal one that is written otherwise (`SchemaCompatibility.EqualButSpeltOtherwise`; exactly:
  `SchemaCompatibility.UnreportedButHarmless`). An enum dropped and re-added narrower breaks within a major
  (`SchemaCompatibility.DroppedAndReadded`; exactly: `SchemaCompatibility.EndsCompatible`).
- A fetch that stops between moving an image into place and checking it can make a stale marker vouch for it
  (`ImageCache.InterruptedRun`).
- The restore script of a host network change removes its cloud-init and drop-in files even if they were there before, and
  leaves directories the run had to create (`HostNetwork.UndoesEveryPrefix`). A timer that fires while the run goes on
  leaves the later changes without a way back (`HostNetwork.OvertakenIsUnguarded`; exactly: `HostNetwork.AlwaysGuarded`).
- A stale record of a node's name in the zone moves the node on a later run (`IpAlloc.StaleRecordMoves`; exactly:
  `IpAlloc.RegisteredIsHeld`). An address that only the resolver knows can be given twice
  (`IpSharing.ResolverOnlyAddressIsShared`). Nodes are registered under the first label of their name, so two nodes whose
  names differ only behind it come to share an address (`IpSharing.SameLabelIsShared`; exactly, with the former:
  `IpSharing.NeverSharedIff`), and set up one by one they are not given what the preview announces
  (`IpPreview.SameLabelIsMispredicted`; exactly: `IpPreview.PreviewPredictsOneByOneIff`).
- A node provisioned with another gateway has the wrong routes until the next refresh, when the run stops before it
  registers the node (`OverlayRoutes.OtherGatewayIsWrong`; exactly: `OverlayRoutes.ProvisionRightIff`).
- Retiring a site deletes the hub's only route to its network even if another site shares it
  (`OverlayLive.SharedRouteLost`; exactly: `OverlayLive.RetireRoutesIff`).
- A record that stands in front of a comment survives its deletion, and so does one with special characters, such as a
  wildcard (`DnsZone.WildcardHasNoPattern`; exactly: `DnsZone.PatternMeansRecordIff`, `DnsZone.DeleteRemovesRecord`).

## Model

| member | source | states |
|---|---|---|
| WgConf.AppendAdds | libs/overlay.py:276-282 | Appending a block makes the file say exactly one peer more and leaves the interface header as it is, whatever blank lines earlier removals left; the file keeps its shape if and only if it had no peer of that name |
| WgConf.AppendedText | libs/overlay.py:276-282 | What a peer adds to the file, line by line |
| WgConf.RemoveDrops | libs/overlay.py:300-310 | Deleting from the marker's line to the next blank line, or the end, removes exactly that peer's block, leaves the interface header as it is and keeps the file well-formed |
| WgConf.MarkerFinds | libs/overlay.py:300-305 | grep finds the marker exactly for the peers the file has; the third word two lines below it is that peer's key; names are distinct |
| WgConf.EditsTrackPeers | libs/overlay.py:262-312 | Over any sequence of additions and removals the file is the same interface header and says what the same edits on a list of peers say |
| WgConf.RemoveRendered | libs/overlay.py:306-309 | The line arithmetic of the removal, on the header-less text: the block and the blank line after it go, nothing else |
| WgConf.KeyInRendered | libs/overlay.py:302-305 | The same for looking the key up |
| WgConf.HubHeaderPlain | libs/overlay.py:163-170 | The header the hub writes holds no blank line and no marker |
| WgConf.HubHeaderSays | libs/overlay.py:163-170 | What its four lines say, word by word |
| WgConf.HeaderOnly | libs/overlay.py:512-516 | A freshly written file is well-formed and has no peers |
| OverlayHub.AllocationGives | libs/overlay.py:190-222 | A name gets the address on its line, else a host of the network that is neither on a line nor the hub's own; none exactly when the name has no line and all hosts are taken |
| OverlayHub.UnknownGetsLowest | libs/overlay.py:205-222 | In terms of the network's first address and size: a name without a line gets the lowest address after the hub's own, and before the last one of a network of more than two, that is on no allocation line; none exactly when all of these are on lines |
| Ipv4.HostsAreUsable | libs/overlay.py:213 | The hosts of a network are exactly its addresses without the first and the last, or all of them when there are no more than two |
| OverlayHub.AllocationKeeps | libs/overlay.py:214-218 | The new line keeps the allocations injective in name and address |
| OverlayHub.UpsertReplaces | libs/overlay.py:234-240 | After an upsert there is one line of the key, the new one, and the other keys' lines stay |
| OverlayHub.JoinSteady | libs/overlay.py:607-660 | A gateway's join keeps the hub's invariant after every one of its commands, so wherever it stops; the unchecked marker query must have got through unless the site has no block |
| OverlayHub.JoinDone | libs/overlay.py:629-657 | What the whole hub is like when every command of a join took effect: one allocation, one site line, one block, the live peer and two routes |
| OverlayHub.PeerSteady | libs/overlay.py:275-286 | add_peer_to_hub() keeps the invariant at every prefix of its commands |
| OverlayHub.SiteSteady | libs/overlay.py:225-240 | _register_site() keeps every peer's site registered |
| OverlayHub.NodeSteady | libs/overlay.py:314-331 | register_node() keeps one line per host |
| OverlayHub.NodeDone | libs/overlay.py:314-331 | Registering a node leaves the line of its site, its name and its gateway, and of the other lines exactly those of other hosts |
| OverlayHub.DnsSteady | libs/overlay.py:357-377 | register_dns_server() keeps one line per site |
| OverlayHub.DnsLineSays | libs/overlay.py:374 | A DNS line is the site, the address and the domain, in this order, without what is empty |
| OverlayHub.DnsDone | libs/overlay.py:357-377 | Registering a DNS server leaves its line and of the other lines exactly those of other sites |
| OverlayHub.ForgetKeeps | libs/overlay.py:349-353 | forget_node() keeps the invariant |
| OverlayHub.ForgetsOneNode | libs/overlay.py:349-353 | The line of the forgotten host goes, and every other line stays, in order |
| OverlayHub.ForgetsNoNode | libs/overlay.py:349-353 | A host without a line changes nothing |
| OverlayHub.ReadySteady | libs/overlay.py:507-537 | Making the hub ready keeps the invariant wherever it stops, also when the test for wg0.conf failed and it is written over, with the hub's own site or without |
| OverlayHub.ReadyDone | libs/overlay.py:507-537 | When all of it took effect the hub has its file, the old one or the header, and its own site's line, with the lines of the other sites and nothing else changed |
| OverlayHub.ReadyWithoutSite | libs/overlay.py:534-535 | Without a name or a network no site is registered |
| OverlayRetire.RetireKeepsIff | libs/overlay.py:477-482 | A retirement keeps the invariant if and only if no remaining peer loses the line of its site or of its address, whichever unchecked commands failed and whatever other lines the pattern matched |
| OverlayRetire.PreciseRetireKeepsIff | libs/overlay.py:477-482 | When the pattern matches the site's own lines only: if and only if the peer was removed, or there was none, or both registries kept their lines; a run that merely stops half-way always keeps it |
| OverlayRetire.PlainIsPrecise | libs/overlay.py:477-482 | That is so for every name without a character that is special in a basic regular expression |
| OverlayRetire.DeletesOwnLines | libs/overlay.py:479-482 | sed removes the site's own lines and no others if and only if the pattern built from the name matches those and no others |
| OverlayRetire.PlainNameMatches | libs/overlay.py:479-482 | The pattern of a name without . * [ \ / matches exactly the lines whose first field is the name |
| OverlayRetire.DottedNameMatches | libs/overlay.py:479-482 | A dot in the name matches any character |
| OverlayRetire.StarredNameMatches | libs/overlay.py:479-482 | The pattern of a name that ends in a star misses the name's own line and matches the names that repeat the character before it, or leave it out |
| Bre.SimpleMeans | libs/overlay.py:479-482 | Parsed as a basic regular expression (IEEE Std 1003.1, XBD section 9.3), a pattern whose only special characters are dots matches the texts that fit it character by character |
| Bre.BracketMeans | libs/overlay.py:479-482 | A bracket expression of characters and spans matches one of them, or after a circumflex any other character |
| OverlayRetire.RetireRemoves | libs/overlay.py:458-486 | When every command takes effect and the pattern matches the site's own lines only, the registries lose exactly these, the routes exactly its network, the live peers exactly its key |
| OverlayRetire.RetireRemovesPeer | libs/overlay.py:293-312 | and wg0.conf exactly its peer, which is live no more, with the header as it was and the invariant kept |
| OverlayLive.StoppedJoinAgreesIff | libs/overlay.py:607-660 | With an interface that runs what a restart from wg0.conf would give, a join that stops after any of its commands leaves it so if and only if its key has exactly these addresses already, or a site whose block was seen was not set live yet, or the stop was not between writing a block and setting it live. Networks and keys may be shared, and a block may have been overlooked and written twice |
| OverlayLive.JoinAgreesIff | libs/overlay.py:276-284 | So a completed one does if and only if the site had no block, or its key has exactly these addresses already: a block is never rewritten |
| OverlayLive.RetireAgreesIff | libs/overlay.py:293-312 | A retirement keeps it so if and only if its removal failed, or the site had no block, or no other block has its key and no other peer would get an address back that only the removed one had |
| OverlayLive.LiveIsLastBlock | libs/overlay.py:283-284 | In such a hub a key has the addresses of its last block that no later block has |
| OverlayLive.StoppedJoinRoutesIff | libs/overlay.py:285-286 | With every address of a block routed by the kernel, a join that stops after any of its commands leaves it so if and only if it wrote no block, or the addresses of the one it wrote are routed by then |
| OverlayLive.RetireRoutesIff | libs/overlay.py:477-478 | A retirement leaves it so if and only if the route of its network stayed, or no block that is left has that network |
| OverlayLive.SharedRouteLost | libs/overlay.py:478 | Retiring a site whose network another site shares takes the only kernel route to that network away |
| LivePeers.RestartDisjoint | libs/overlay.py:283-284 | After a restart no address is routed to two peers, whatever the blocks say |
| LivePeers.NewPeerAgrees | libs/overlay.py:283-284 | Setting a new peer live as it is written gives what a restart with its block gives, though wg set takes its addresses from every other peer |
| LivePeers.KnownPeerAgreesIff | libs/overlay.py:276-284 | Setting a peer without writing a block leaves what a restart gives if and only if its key has exactly these addresses |
| LivePeers.RestartWithout | libs/overlay.py:303-309 | Without a block the other peers have what they have with it, and what it had taken from them |
| LivePeers.RemovedPeerAgreesIff | libs/overlay.py:303-309 | Removing a peer and its block leaves what a restart gives if and only if nothing comes back to another peer |
| OverlayRuns.CallKeeps | libs/overlay.py:190-660 | Every call with words for its fields keeps the invariant, wherever it stops |
| OverlayRuns.EveryRunKeeps | libs/overlay.py:190-660 | In every run of calls, each stopping where it may: one line per key in every registry, all fields words; allocations injective, among the network's hosts, never the hub's own; wg0.conf well-formed; every peer's site registered and its first address the one allocated to it. Fields written are words, an overlooked marker and a stranding retirement are excluded; what these do is stated by other rows |
| OverlayRuns.JoinFinishes | libs/overlay.py:607-660 | In such a run a join that gets through all its commands leaves the gateway joined, as JoinDone has it |
| OverlayRuns.ForgetFinishes | libs/overlay.py:349-353 | a forgotten node is registered no more and all others are |
| OverlayRuns.RetireFinishes | libs/overlay.py:458-486 | and a site whose name is precise has no site line, no address and no route once its retirement took effect |
| OverlayNames.NameFoundIff | libs/overlay.py:204-218 | A name that was just given an address is found again if and only if it is a word |
| OverlayNames.AddressSharedIff | libs/overlay.py:204-218 | The next unknown name is given the same address again if and only if the name before was not one word: its line is not counted then |
| OverlayNames.RegisterTwiceIff | libs/overlay.py:234-240 | Registering a site again leaves the registry as it is if and only if its name is a word; otherwise a second line is appended |
| OverlayRuns.EmptyHub | libs/overlay.py:495-516 | A hub without files, where every run starts, satisfies the invariant |
| OverlayRuns.StoppedRetirementIsFair | libs/overlay.py:458-486 | A retirement that stops half-way, of a name whose pattern matches its own lines only, is a fair call of such a run |
| OverlayRuns.DottedNameStrands | libs/overlay.py:479-482 | Retiring a name with a dot strands the peer of another site whose name it matches, though every command took effect |
| OverlayRuns.StarredNameStrands | libs/overlay.py:479-482 | Retiring a name that ends in a star leaves its own line in the registry, and strands the peer of every name that repeats the character before the star |
| OverlayRoutes.WantedSays | libs/overlay.py:663-686 | The script a node should have routes exactly the networks of the other sites, all of them by way of the given gateway; there is none exactly when there is no other site |
| OverlayRoutes.RefreshGives | libs/overlay.py:437-454 | After a refresh a node that was reached has exactly the other sites' networks in its script, via its own gateway; none when there is no other site, unless that removal failed |
| OverlayRoutes.OthersUntouched | libs/overlay.py:439-443 | A node that was not reached, or is not listed, keeps its script |
| OverlayRoutes.RefreshIdempotent | libs/overlay.py:424-455 | A repeated refresh changes nothing |
| OverlayRoutes.RoutesConverge | libs/overlay.py:424-486 | After any interleaving of changes to the hub, provisionings and refreshes with arbitrary nodes out of reach, a node has the right script when a refresh of all nodes or of its site reached it by its line, or it was provisioned as its line says, and since then the other sites' networks stayed the same, no refresh reached it by another line, and every provisioning of it pushed the same routes or none |
| OverlayRoutes.HubIsLastChange | libs/overlay.py:424-486 | In such a run the hub is that of the last change to it |
| OverlayRoutes.ProvisionRightIff | scripts/setup_vm.py:357-366 | Provisioning a node makes its script right if and only if it pushes the networks and the gateway of its line; with none to push the script stays |
| OverlayRoutes.OtherGatewayIsWrong | scripts/setup_vm.py:357-366 | Provisioned with another gateway than its line's, as a run leaves it that stops before it registers the node anew, a node has the wrong script |
| OverlayRoutes.PrefixIsRefresh | libs/overlay.py:437-454 | A refresh that was broken off after some of the nodes is one that reached those of the others that it had visited |
| Overlay.BrokenOffIsAct | libs/overlay.py:437-454 | So what a refresh that a failed command broke off leaves on the nodes is an act of the runs that converge |
| OverlayRoutes.RefreshForgets | libs/overlay.py:429-433 | A reached node keeps no route to a network that no registered site has |
| OverlayRoutes.RetiredNetworkForgotten | libs/overlay.py:458-486 | After a retirement whose pattern matched the site's own lines only, and a refresh, no remaining node that was reached routes to the site's network, when no other site shares it |
| Overlay.Remote.AllocateIp | libs/overlay.py:190-222 | The file is read and searched line by line; the address is the specified one, and nothing is written unless it is handed out |
| Overlay.ReadAllocations | libs/overlay.py:204-211 | The loop over the lines: the addresses in use and the name's own |
| Overlay.FirstUnused | libs/overlay.py:214-218 | The loop over the hosts finds the first free one |
| Overlay.Remote.RegisterSite | libs/overlay.py:225-240 | The registry is rewritten with the upsert, or left alone when a command failed |
| Overlay.Remote.ListOtherSites | libs/overlay.py:243-259 | The two-field lines of the other sites |
| Overlay.Remote.AddPeer | libs/overlay.py:262-288 | The commands sent are a prefix of the plan, all of it when done |
| Overlay.Remote.Join | libs/overlay.py:607-660 | The same for a whole join; the address returned is the allocated one; without a free address nothing is sent |
| Overlay.SentKeeps | libs/overlay.py:607-660 | Wherever that join stopped, the hub's invariant holds |
| Overlay.Remote.HubReady | libs/overlay.py:507-537 | wg0.conf is written only when the test for it says that it is missing, then the hub's own site is registered when it is given: a prefix of the plan is sent, all of it when it succeeds |
| Overlay.Remote.RegisterNode | libs/overlay.py:314-331 | The node's line replaces any other of its host |
| Overlay.Remote.RegisterDns | libs/overlay.py:357-377 | The site's line replaces any other of the site |
| Overlay.Remote.ForgetNode | libs/overlay.py:349-353 | The lines with the host between two blanks go, or nothing changes |
| Overlay.Remote.ListNodes | libs/overlay.py:333-347 | The three-field lines, of one site when asked for it |
| Overlay.PickNodes | libs/overlay.py:342-346 | The loop of list_nodes() |
| Overlay.Remote.EnsureRoute | libs/overlay.py:663-707 | The script is written whole or not at all; nothing happens without remote networks |
| Overlay.Remote.RefreshNode | libs/overlay.py:440-454 | One node: out of reach, refreshed, or stopped by a checked command |
| Overlay.Remote.RefreshEach | libs/overlay.py:438-455 | The loop refreshes a prefix of the nodes, all of them unless a checked command fails; refreshed and unreachable add up to the number of nodes |
| Overlay.Remote.RefreshRoutes | libs/overlay.py:424-455 | The same from the registries on |
| Overlay.Remote.RetireOnHub | libs/overlay.py:477-482 | The six unchecked commands, by which of them took effect |
| Overlay.Remote.RetireSite | libs/overlay.py:458-486 | The site's network is returned, the hub is as specified, and the nodes are refreshed; nothing happens when the hub has no such site |
| Plans.SteadyMeans | libs/overlay.py:190-288 | A plan whose every command keeps an invariant keeps it wherever a run stops |
| SchemaValidate.ValueFinding | libs/schema_validate.py:123-154 | An error is found exactly for the values that are present, no placeholder and not what the field takes; a warning only for a quoted boolean |
| SchemaValidate.NumberAccepted | libs/schema_validate.py:92-103 | A number is accepted exactly within the declared bounds; a port's bounds are 1 and 65535 where none are declared |
| SchemaValidate.NumberTextAccepted | libs/schema_validate.py:58-69 | The text of a number is accepted like the number |
| AcceptedValues.LiteralIsRead | libs/schema_validate.py:58-69 | int() reads a sign or none and groups of digits with single underscores between them, to the number these digits write, |
| AcceptedValues.ReadIsLiteral | libs/schema_validate.py:58-69 | and no other text |
| AcceptedValues.NumberTexts | libs/schema_validate.py:58-69 | Blanks around a number are ignored |
| AcceptedValues.AbsentMeans | libs/schema_validate.py:42-50 | Null, blank texts, empty lists and empty mappings, and nothing else, are no values |
| AcceptedValues.PlaceholderMeans | libs/schema_validate.py:53-55 | A text is a placeholder exactly when it starts, after blanks, with two question marks |
| AcceptedValues.NumberFindings | libs/schema_validate.py:92-103 | The finding about a number field: not a number, below or above which bound, or none |
| AcceptedValues.BooleanFindings | libs/schema_validate.py:106-120 | About a boolean field: none for a boolean, a warning for one of six words in any case, an error for anything else |
| AcceptedValues.ContainerFindings | libs/schema_validate.py:123-154 | About a list or a mapping |
| AcceptedValues.TextFindings | libs/schema_validate.py:72-89 | About any other field: whether the value is one of the declared ones or written like one, and then whether it fits the form |
| SchemaValidate.SectionFindings | libs/schema_validate.py:157-171 | The findings are exactly those of the declared, present and not skipped fields, the last declaration of a name counting; there is no error exactly when all these values are accepted |
| SchemaVersions.BreakingChanges | libs/schema_versions.py:162-179 | The changes reported are exactly the breaking ones, and none is reported exactly for compatible versions |
| SchemaVersions.EntryProblems | libs/schema_versions.py:202-230 | No problem exactly for an entry that may follow the one before it: the first, the next minor with compatible changes, or the next major with a registered migration |
| SchemaVersions.EntriesProblems | libs/schema_versions.py:240-247 | The loop that carries the version and the snapshot before |
| SchemaVersions.SchemaProblems | libs/schema_versions.py:233-254 | No problem exactly when all entries are sound and the last one is the current version with its fields |
| SchemaVersions.Check | libs/schema_versions.py:257-270 | No problem exactly when every schema is sound, every recorded one exists and every registered step is named |
| SchemaCompatibility.FieldKeeps | libs/schema_validate.py:83-154 | What the older version of a field accepts, a compatible newer one accepts after a harmless change |
| SchemaCompatibility.CompatibleKeepsValid | libs/schema_versions.py:162-179 | Between compatible versions: every configuration of old fields that is complete and without error under the older one is so under the newer one if and only if the change of every field is harmless |
| SchemaCompatibility.UnreportedButHarmless | libs/schema_versions.py:182-199 | A field of any kind whose change is not reported as breaking: everything it accepted is still accepted if and only if its bounds were not narrowed (or admitted nothing) and, for texts, every text its enum and its form admitted still fits both |
| SchemaCompatibility.EnumHarmlessIff | libs/schema_versions.py:175-177 | With the form unchanged or dropped that comes down to the entries: the text of each that is checked and fits the form is the text of an entry still, or there is no enum any more; without a form a new enum is never harmless |
| SchemaCompatibility.TextEntriesKept | libs/schema_versions.py:175-177 | An unreported change of an enum of texts keeps them all |
| SchemaCompatibility.EqualButSpeltOtherwise | libs/schema_versions.py:175-177 | The case: 1 in place of True is no breaking change, yet the text True is refused afterwards |
| SchemaCompatibility.OnlyEnumsBreak | libs/schema_versions.py:162-179 | Along a chain of compatible versions nothing but a dropped enum entry can break between the ends |
| SchemaCompatibility.KeptEnumGrows | libs/schema_versions.py:175-177 | A field that keeps its enum along the chain keeps every entry |
| SchemaCompatibility.EndsCompatible | libs/schema_versions.py:162-179 | The ends of a chain are compatible if and only if no field dropped an entry by losing its enum and regaining a narrower one |
| SchemaCompatibility.DroppedAndReadded | libs/schema_versions.py:175-177 | The counterexample: each step compatible, the two together not |
| SchemaCompatibility.VersionsIncrease | libs/schema_versions.py:202-230 | A record that passes the check orders the versions of a schema strictly |
| SchemaCompatibility.MajorLineIsChain | libs/schema_versions.py:202-254 | Its versions of one major are a chain of compatible ones |
| SchemaCompatibility.ValidAcrossMajor | libs/schema_versions.py:202-254 | Two versions of one major, between which no field dropped an entry by losing its enum and regaining a narrower one: every configuration valid under the earlier one is valid under the later one if and only if the change of every field is harmless |
| Json.EqualTransitive | libs/schema_versions.py:175-177 | Python's equality of parsed JSON, by which enum entries are compared, is transitive |
| Migrations.RunIdempotent | libs/migrations.py:34-233 | Every migration step is idempotent, the rancher step included, whose overrides inherit from the section it has just rewritten |
| Migrations.ApplyIdempotent | libs/migrations.py:12-13 | So is its effect on the whole definition |
| Migrations.StepsCommute | libs/migrations.py:34-233 | Steps for different add-ons commute |
| Migrations.PartAfterAll | libs/migrations.py:324-329 | What a sequence of steps makes of one add-on's mappings is what the one step for it makes of them |
| Migrations.OrderIrrelevant | libs/migrations.py:324-329 | Neither the order nor the repetition of steps matters |
| Migrations.AllIdempotent | libs/migrations.py:12-13 | Running the same steps again changes nothing |
| Migrations.QuietIffUnchanged | libs/migrations.py:324-334 | Some step makes a change exactly when all steps together do: no step takes another's change back |
| Migrations.RancherIsExplicit | libs/migrations.py:71-88 | Afterwards every rancher configuration with a repository name also says its URL and chart; values that were set stay |
| Migrations.SourceIsExplicit | libs/migrations.py:204-233 | A lab that uses the add-on names its chart's source afterwards: the one it named, else upstream |
| Migrations.DropEach | libs/migrations.py:101-109 | The listed keys are removed from a mapping and reported |
| Migrations.LinkerdKeys | libs/migrations.py:45-61 | The keys of the stable channel, and only they, are removed and reported |
| Migrations.KeycloakKeys | libs/migrations.py:119-131 | The keys that name Bitnami, and only they, are removed and reported |
| Migrations.ComplianceKeys | libs/migrations.py:134-154 | The former operator's keys, and a version or profile of its, are removed and reported |
| Migrations.TrentoKeys | libs/migrations.py:171-180 | The repository keys and an e-mail address as admin name are removed and reported |
| Migrations.RancherKeys | libs/migrations.py:71-88 | The old defaults are written where they were relied on, and reported |
| Migrations.ListKeys | libs/migrations.py:183-201 | Texts of ports become lists, and are reported |
| Migrations.LabFile.RemoveEach | libs/migrations.py:91-109 | Every mapping of the add-on is rewritten in place, no other; the report lists exactly the keys that changed |
| Migrations.LabFile.WriteRancherDefaults | libs/migrations.py:34-42 | The section first, then each override over the section as it is by then; the report lists exactly the keys that changed |
| Migrations.LabFile.ListPorts | libs/migrations.py:183-201 | The same for common and the nodes |
| Migrations.LabFile.NameSource | libs/migrations.py:204-233 | The section is created when the lab only mentions the add-on |
| Migrations.LabFile.Do | libs/migrations.py:236-259 | Any registered step in place: its effect, and a report of exactly the keys that changed, empty only if nothing did |
| NewForms.NewFormStays | libs/migrations.py:45-180 | The steps that remove keys, in a whole definition: in the section and the overrides of the add-on a key stays, with its value, exactly when the value is not of the old form, said here on the texts themselves; no other mapping changes |
| NewForms.RancherSpelt | libs/migrations.py:71-88 | Rancher's URL and chart are written, with the old defaults, exactly where a repository name is said or inherited and they are not; everything else stays |
| NewForms.SourceNamed | libs/migrations.py:204-233 | In a whole definition only the section of the add-on changes: its source key says upstream if the lab uses the add-on and it said nothing |
| NewForms.PortsListed | libs/migrations.py:183-201 | In common and the nodes a text of ports that is not blank becomes the list of its maximal pieces without commas and whitespace, all of them in order; everything else stays |
| NewForms.StepsWellNamed | libs/migrations.py:236-259 | Each of the 22 registered names is that of the add-on its step rewrites, with the keys and the prefix that belong to it |
| SchemaMigration.RegistryDistinct | libs/migrations.py:236-259 | The 22 registered steps rewrite 22 different parts of a definition |
| SchemaMigration.KeyOfVersion | libs/migrations.py:269-270 | The two ways the program reads a version agree |
| SchemaMigration.BeforeParts | libs/migrations.py:269-270 | Versions are ordered by the first place where they differ, and one that goes on is the newer |
| SchemaMigration.PendingSteps | libs/migrations.py:296-305 | The loops of pending(), and where they raise |
| SchemaMigration.PendingExactly | libs/migrations.py:296-305 | Listed are exactly the steps named by entries of the schemas taken whose version is newer than the recorded one, or than 1.0 when none is recorded |
| SchemaMigration.PendingRaisesIff | libs/migrations.py:299-304 | pending() raises exactly when such a schema's recorded version, or the version of an entry with a migration, cannot be read |
| SchemaMigration.SchemasSay | libs/migrations.py:278-283 | The schemas of a definition are its own and those of the add-ons it mentions or has a section for, without the base sections |
| SchemaMigration.NothingMissed | libs/migrations.py:296-305 | Under a record that passes the check, an entry of a schema of the definition that names a migration is pending if and only if its version is newer than the recorded one |
| SchemaMigration.PendingRises | libs/migrations.py:296-305 | pending() lists the steps of a schema in strictly rising version order, none twice, all registered, each newer than what the file has |
| SchemaMigration.SchemasStay | libs/migrations.py:278-283 | The steps leave the schemas a definition is written against as they are |
| SchemaMigration.NothingPending | libs/migrations.py:308-321 | After stamp() nothing is pending |
| SchemaMigration.MigrateThenStamp | libs/migrations.py:324-334 | For every record that passes the check and every definition with readable versions: migrate() then stamp() leaves nothing pending, so nothing needed, in whatever order the schemas are taken |
| SchemaMigration.DueIsApplied | libs/migrations.py:324-329 | After migrate() the mappings of an add-on with a pending step are what that step alone makes of them |
| SchemaMigration.DueDropsOutdated | libs/migrations.py:324-329 | so no key that such a step removes is left in them |
| SchemaMigration.SecondRunChangesNothing | libs/migrations.py:324-329 | A second migrate() without a stamp takes the same steps and changes nothing |
| SchemaMigration.SchemaOrderIrrelevant | libs/migrations.py:299-305 | The order of the schemas does not matter for the result |
| SchemaMigration.Migrate | libs/migrations.py:324-329 | The loop over the pending steps: the definition they make, and no change reported exactly when it is unchanged |
| SchemaMigration.NeededChanges | libs/migrations.py:332-334 | No change is needed exactly when migrate() would leave the definition unchanged |
| SchemaMigration.Stamp | libs/migrations.py:308-321 | The latest version of every schema of the definition is recorded |
| IpAlloc.DefinitionIps | libs/ipalloc.py:56-67 | The addresses among the gateway, DNS and node fields, exactly |
| IpAlloc.DnsIps | libs/ipalloc.py:70-86 | The addresses among the fields of the zone's A records, exactly |
| IpAlloc.CandidatesAreHosts | libs/ipalloc.py:137-147 | Whatever the name, the rotated list holds every usable host and nothing else |
| IpAlloc.CandidateAt | libs/ipalloc.py:137-147 | The i-th candidate is the i-th usable address after the one the name starts at, counted around, in terms of the network's first address and size |
| IpAlloc.AllocateIp | libs/ipalloc.py:150-182 | The scan with early exits computes the specified allocation |
| IpAlloc.AllocateGives | libs/ipalloc.py:150-182 | The registered address within the network, else a usable host nobody has; nothing exactly when there is no network or every host is taken or answers |
| IpAlloc.ZoneAnswers | libs/ipalloc.py:102-119 | The look-up answers with the address on the zone's first A record of the name's first label, |
| IpAlloc.ResolverAnswers | libs/ipalloc.py:113-125 | and without one as the resolver does |
| IpAlloc.RegisteredIsGiven | libs/ipalloc.py:166-168 | An address that the look-up answers is given if and only if it lies in the network |
| IpAlloc.UnregisteredGetsFirst | libs/ipalloc.py:150-182 | A node that is not registered in the network gets the first address in this order that is not in use, not this host's own, does not answer, and is neither in the definition nor in the zone; never the first or the last address of a network of more than two |
| IpAlloc.UnregisteredGetsNothing | libs/ipalloc.py:170-182 | and nothing exactly when there is no such address |
| IpSharing.AllocationKeepsConsistent | libs/backends.py:176-201 | In a consistent lab (see IpSharing.EveryInterleaving) an allocation written into the definition keeps it consistent and gives a proper address that no other node has |
| IpSharing.RegisteringKeepsConsistent | libs/services.py:487-500 | In a consistent lab, registering a node, whose record is appended unless the zone has it, keeps it consistent |
| IpSharing.EveryInterleaving | libs/backends.py:392-395 | In every interleaving of lock-held allocations and registrations no two nodes share an address, and every address given is a usable host, not the gateway or a DNS server, nobody's before: if and only if the lab is consistent, that is safe in the sense of IpSharing.NeverSharedIff, and what the look-up answers within the network is proper |
| IpSharing.NeverSharedIff | libs/ipalloc.py:95-114 | For every lab: no interleaving ever gives two nodes one address if and only if at the start no two nodes have or wait for the same one; none waits for a host address that only the resolver knows while another one searches or may come to; no node without an address has the first label of one whose address lies in the network, unless a record has it; and no two nodes without an address have one unrecorded first label when one of them can be given any |
| IpSharing.ResolverOnlyAddressIsShared | libs/ipalloc.py:169-171 | A case: two nodes get the address that only the resolver knew for one of them |
| IpSharing.SameLabelIsShared | libs/services.py:631-633 | A case: of two nodes with one first label the second is given the address the first was given and registered |
| IpAlloc.RerunGivesSameAddress | libs/ipalloc.py:164-171 | A node whose address is in the zone gets it again, in any order, with any new nodes, whatever answers |
| IpSharing.RerunAvoidsLedger | libs/ipalloc.py:164-182 | For every node without an address: no order of steps ever gives it an address in the zone before, if and only if neither it nor, unless a record has it, another node of its first label has or waits for such an address in the network |
| IpAlloc.RegisteredIsHeld | libs/ipalloc.py:95-114 | A registered node holds its address in the zone if and only if its name had no earlier record or one with that address |
| IpAlloc.LookupAfter | libs/services.py:631-633 | A record that is added answers for every node of that first label if the label had none, and changes no other answer |
| IpAlloc.StaleRecordMoves | libs/ipalloc.py:95-114 | With a stale record a later run moves the node |
| IpPreview.PreviewAddresses | libs/lab_creation.py:444-461 | The preflight's loop, which gathers the addresses in a set of its own |
| IpPreview.PreviewPredictsRun | scripts/setup_lab.py:565-571 | The preview is what the lab's run gives, which allocates all addresses before it registers any: node by node, up to the first node without an address, where the run ends |
| IpPreview.PreviewPredictsOneByOneIff | scripts/setup_vm.py:83-84 | Nodes set up one by one, each registered before the next, get what the preview says if and only if every node whose first label an earlier one has and no record of the zone resolves to the address previewed for that earlier one, as long as the preview has addresses |
| IpPreview.SameLabelIsMispredicted | libs/services.py:631-633 | A case: of two nodes with one new first label set up one by one the preview announces two addresses, and the run gives one |
| IpAlloc.Allocator.CheckOrGenerateIp | libs/backends.py:176-201 | The call under the lock: a given address is kept, else the allocated one is written into the definition |
| IpAlloc.Allocator.AddToDns | libs/services.py:487-500 | The node's record joins the zone unless it is there already |
| Ipv4.ParseShown | libs/ipalloc.py:41-53 | Different addresses have different texts |
| HostNetwork.RestoreIdempotent | libs/host_network.py:328-341 | A restore script run twice leaves what it left the first time, whatever state it starts from |
| HostNetwork.Backup | libs/host_network.py:328-341 | The loop copies what is there and writes a line for each |
| HostNetwork.UndoesEveryPrefix | libs/host_network.py:404-450 | The script returns the file system to its state before the run from every prefix of the changes, and from every stretch of them that follows an early restore, if and only if its removals remove nothing that was there and no directory outside the backed-up ones had to be created |
| HostNetwork.InvariantHolds | libs/host_network.py:382-458 | The protocol's invariant holds in every reachable state |
| HostNetwork.AlwaysGuarded | libs/host_network.py:366-368 | In every reachable state a changed configuration is guarded by the timer, or was reached through the bridge, or the timer fired before the run ended; then exactly a stretch of the later changes is in place. After any other restore the files are those of before |
| HostNetwork.OvertakenIsUnguarded | libs/host_network.py:366-368 | For any two numbers of changes there is a run whose timer fired after the one and which ended after the other: the changes in between stay, without a timer |
| HostNetwork.ReachedButRolledBack | libs/host_network.py:452-458 | A run of the protocol in which the bridge was reached and all the same rolled back, because stopping the timer failed unnoticed |
| HostNetwork.Machine.WriteScript | libs/host_network.py:404-420 | The restore script as put together from the backup |
| HostNetwork.Machine.MakeBridge | libs/host_network.py:382-458 | The run is a behavior of the protocol, whichever commands fail; when it reports the bridge and the timer has not fired, every path holds what the plan of its stack says |
| HostNetwork.ChangesConfigure | libs/host_network.py:257-340 | All changes together leave, for every stack, each configuration file with its own text, the replaced files gone, cloud-init told off where it is installed, and every other path as it was |
| HostNetwork.MergedFirst | libs/host_network.py:326-340 | Before netplan's own edits the merged file is there and the old ones are gone |
| HostNetwork.Machine.ChangeGuarded | libs/host_network.py:382-458 | Wherever it ends, the change is guarded |
| Ifupdown.RewriteLines | libs/host_network.py:282-297 | The loop with its skipping flag computes the specified rewriting |
| Ifupdown.RewriteHeads | libs/host_network.py:286-295 | The rewritten text has one inet manual line for each inet line of the interface, where that stood among the kept lines, and no other iface line of it |
| Ifupdown.InStanzaMeans | libs/host_network.py:284-295 | A line is in a stanza of the interface exactly when the nearest line that opens one is its own |
| Ifupdown.StanzaHeadExactly | libs/host_network.py:279-285 | A line opens a stanza exactly when the regular expression matches its first word: one of the keywords, or allow- and more, up to a word boundary |
| Ifupdown.RewriteKeeps | libs/host_network.py:282-297 | It keeps exactly the lines outside the interface's stanzas, and blank ones, in order |
| Ifupdown.RewriteIdempotent | libs/host_network.py:282-297 | Rewriting a rewritten text changes nothing |
| Ifupdown.RewriteSwitches | libs/host_network.py:286-295 | No stanza of the interface is left but bodiless inet manual ones |
| Ifupdown.RenderIfupdown | libs/host_network.py:282-308 | The whole rendering, line by line |
| Ifupdown.RenderSwitches | libs/host_network.py:282-308 | The result has exactly one stanza of the bridge more, after the rewritten text |
| Ifupdown.BridgeSays | libs/host_network.py:298-308 | The bridge's stanza, setting by setting: its port is the interface, with DHCP it has the interface's hardware address, else the host's own address and gateway |
| ImageCache.Host.Fetch | libs/lab_creation.py:1522-1555 | One completed run of the script, mirror by mirror |
| ImageCache.RunEnds | libs/lab_creation.py:1522-1555 | How a run ends, from what it finds and is given: no source exactly when every delivery failed; otherwise the first one delivered decides between the image and a mismatch; the cases with an image or a malformed digest as well |
| ImageCache.OneRun | libs/lab_creation.py:1522-1555 | From any trusted state a run that succeeds leaves an image of the wanted digest, a mismatch leaves none, and the marker stays trustworthy |
| ImageCache.CompletedRuns | libs/lab_creation.py:1522-1555 | Over any sequence of completed runs with any digests and deliveries success means the image has the wanted digest, and a mismatch leaves no image |
| ImageCache.DownloadedIsCached | libs/lab_creation.py:1533-1535 | A verified image is found cached by the next run that wants it |
| ImageCache.InterruptedRun | libs/lab_creation.py:1546-1553 | A run that may stop between two file operations leaves the marker trustworthy whatever is wanted and delivered if and only if no stale marker is waiting for an image |
| ImageCache.InterruptionIsReported | libs/lab_creation.py:1546-1553 | The sequence of runs in which an interrupted one makes a later one report an unverified image as cached |
| PortForward.ParseShown | libs/portforward.py:38-49 | Every spec of at most five digits a number is read back from its text |
| PortForward.SpecIsRead | libs/portforward.py:35-49 | A text whose one word is two numbers of one to five digits and a protocol in any case is read as the spec it writes, |
| PortForward.ReadIsSpec | libs/portforward.py:35-49 | and every text that is read is such a text |
| PortForward.TargetRules | libs/portforward.py:57-67 | The inner loop, with its error at the first malformed spec |
| PortForward.BuildDnatRules | libs/portforward.py:52-68 | The commands of the whole map, or the error |
| PortForward.Iptables.EnsureChain | libs/portforward.py:96-109 | The chain exists afterwards and is jumped to, the jump in front when it was missing; each command may fail |
| PortForward.Iptables.Prepare | libs/portforward.py:112-128 | Both chains ensured and flushed, or a prefix of that |
| PortForward.Iptables.ApplyForwardedPorts | libs/portforward.py:112-135 | The rebuilt chains, or exactly how far a failed run got |
| PortForward.RebuildPreserves | libs/portforward.py:112-135 | Every other chain keeps its rules apart from one jump |
| PortForward.PartialPreserves | libs/portforward.py:112-135 | So it does when the run stopped half-way |
| PortForward.LastRebuildWins | libs/portforward.py:112-135 | The dedicated chains depend on the port map only, and a second application changes nothing |
| PortForward.TranslateFirst | libs/portforward.py:52-68 | A packet is rewritten by the first entry of the map that matches it, and by none exactly when none does |
| PortForward.RewrittenIsAccepted | libs/portforward.py:60-67 | Every rewritten packet is let through by the forward chain, which lets nothing else through |
| PortForward.HookedFirst | libs/portforward.py:103-109 | With the new jump in front a packet some entry wants goes to the first such entry, whatever the other rules do and wherever they jump; every other packet meets the old rules, unless some chain led to the dedicated one before |
| DnsZone.Records | libs/dns_zone.py:146-171 | The loop gathers exactly the records of the lines |
| DnsZone.RecordExactly | libs/dns_zone.py:156-171 | A line carries a record exactly when the fields before its comment name something in the zone and are not a bare number of an SOA; the record is these fields |
| DnsZone.NumbersFirst | libs/dns_zone.py:167-169 | A pointer record, whose first field is a number, is a record; a number alone or with one more field is none |
| DnsZone.PatternMatchesNormalForm | libs/dns_zone.py:174-184 | Read as a POSIX extended regular expression (IEEE Std 1003.1, XBD section 9.4) the pattern of a record with plain fields matches a line exactly when the line's normal form is the record |
| DnsZone.PatternMeansRecordIff | libs/dns_zone.py:174-184 | The pattern of a record matches exactly the lines in its normal form if and only if its fields have no special character but dots and backslashes |
| DnsZone.DeleteKeepsOthers | libs/services.py:545-549 | Deleting the matched lines keeps every other line, in order |
| DnsZone.DeleteRemovesRecord | libs/services.py:577-584 | and removes exactly that record from the zone if and only if its fields are plain and no line carries it in front of a comment |
| DnsZone.WildcardHasNoPattern | libs/dns_zone.py:174-184 | A record whose name starts with a repetition operator has a pattern without a meaning |

## Left out

Of the modelled parts:

- Order of reports: findings, problems and changes are exact as sets of facts; the order in which Python lists them,
  sorted or by insertion, is not modelled, nor are their sentences. `pending()` takes the schemas in any order.
- Unicode: whitespace, digits and letter case are those of ASCII.
- Registries on the hub hold only lines that these functions write, taken by their fields, which are words as long as
  what is written into them is; an allocation line with a text that is no address, at which the program would raise,
  does not occur.
- Bre.Matches: classes in brackets, escapes of ordinary characters (groups, intervals, `\n`) and two stars in a row are
  read as an expression that sed refuses, which matches nothing. Hosts in `forget_node()`, which come from the
  definition, have no special characters but dots, which the program escapes.
- SSH and WireGuard: a command is atomic, so a `wg set … remove` that fails inside the removal script, or a file cut
  short, is not modelled. Keys are given; the gateway's own configuration and services are only commands that may fail.
  Overlay calls run one at a time, as the program's read-then-write registries require.
- An overlay network of a single address, for which the program raises when it takes the hub's own, does not occur.
- OverlayRetire.RetireRemoves: says nothing about DNS lines of a single field, which the pattern with its blank does not
  match; the route of a retired gateway's own address stays, as in the program.
- OverlayRoutes.RoutesConverge: is about the persisted script, that is about the routes after the next boot, because the
  unit that applies it stays active once started.
- A `breaking_changes()` that drops an enum entry which is no text raises instead of reporting it; here it is reported.
  A snapshot file is a version's fields; that two schema names can share a path is not modelled. Fields are compared
  structurally where `check()` compares a whole snapshot with the current one.
- SchemaValidate: bounds are whole numbers. `definition_findings()` and `addon_findings()`, which only choose sections,
  are not modelled.
- Migrations: a definition is held by its mappings and the places where they stand. Top-level values that are no
  mappings, `addons[]` entries that are neither texts nor single mappings (at which the program dies) and recorded
  versions that are no texts are not modelled; nor are configuration files other than lab definitions, which no
  registered step rewrites.
- SchemaCompatibility.UnreportedButHarmless: takes as given that Python writes no float, list or mapping, and not None,
  like a blank text or one that starts with two question marks.
- IpAlloc.DnsIps: takes the addresses that are whole fields of a line with fields `IN` and `A`, where the program finds
  them anywhere in its text; the zone's own records have them as fields.
- IpAlloc.Allocator.AddToDns: adds the forward record on one master, without the option that first removes the name's
  other records, which is for cloud nodes, whose address the provider gives. Reverse records are not modelled.
- IpSharing.RegisteringKeepsConsistent: takes a record by its fields, so one that differs from a line of the zone in
  blanks only, which the program would add once more, counts as there.
- IpAlloc: `lab_network()`'s parsing is given as the network it yields; an address in the definition has no whitespace
  around it.
- ImageCache: a run whose `mv`, `mkdir` or disk fails is not modelled, a run that stops between two operations is.
- HostNetwork: the NetworkManager stack, which keeps connections and not files; directories above the named ones are
  there; each file operation is atomic; one run at a time.
- PortForward: the `-L` and `-C` queries answer truthfully; numbers above 65535 are accepted by the spec and left to
  iptables.
- DnsZone.PatternMeansRecordIff: alternatives, groups, intervals and other brackets in a record are read as an expression
  that matches nothing, as repetition operators in front are. The escapes of Python's own `re` are not modelled.
- DnsZone.DeleteRemovesRecord: likewise; a record with a vertical bar would really be matched, with lines of other records.

Of the repository, because it would add only easy members or foreign effects: the cloud, Harvester and libvirt backends
beyond the address path; SSH, scp, virt-install, Helm, kubectl and installer templates; `libs/crypto_store.py`; the ingress and
storage tables of `libs/k8s.py`; add-on installers and their command builders; the web UI and the documentation builder.
