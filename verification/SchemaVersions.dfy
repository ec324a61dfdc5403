/**
 Versions of a schema: which changes break a definition written for an older version, and the compatibility record
 that orders the versions.
 */
module SchemaVersions {
  import opened Decimal
  import opened Json
  import opened SchemaValidate
  import opened Text
  import opened Wrappers

  // ----- changes between two versions -----

  datatype Change =
    | Removed(field: string)
    | Retyped(field: string)
    | BecameRequired(field: string)
    | NoLongerAccepts(field: string)
    | AddedRequired(field: string)

  /** The enum entries of a field that a later version of it, still with an enum, does not list. */
  function Dropped(was: Field, now: Field): seq<Value> {
    if now.enum == [] then [] else Missing(was.enum, now.enum)
  }

  function Missing(vs: seq<Value>, ws: seq<Value>): (r: seq<Value>)
    ensures r == [] <==> forall i :: 0 <= i < |vs| ==> Among(vs[i], ws)
  {
    if vs == [] then []
    else
      var v := vs[|vs| - 1];
      assert vs == vs[..|vs| - 1] + [v];
      Missing(vs[..|vs| - 1], ws) + if Among(v, ws) then [] else [v]
  }

  predicate Breaks(was: Fields, now: Fields, c: Change) {
    match c
    case Removed(f) => f in was && f !in now
    case Retyped(f) => f in was && f in now && was[f].kind != now[f].kind
    case BecameRequired(f) => f in was && f in now && now[f].required && !was[f].required
    case NoLongerAccepts(f) => f in was && f in now && Dropped(was[f], now[f]) != []
    case AddedRequired(f) => f !in was && f in now && now[f].required
  }

  ghost predicate Compatible(was: Fields, now: Fields) {
    forall c :: !Breaks(was, now, c)
  }

  /** breaking_changes() */
  method BreakingChanges(was: Fields, now: Fields) returns (out: seq<Change>)
    ensures forall c :: c in out <==> Breaks(was, now, c)
    ensures out == [] <==> Compatible(was, now)
  {
    out := [];
    var left := was.Keys;
    while left != {}
      invariant left <= was.Keys
      invariant forall c :: c in out <==> !c.AddedRequired? && c.field !in left && Breaks(was, now, c)
      decreases left
    {
      var f :| f in left;
      left := left - {f};
      if f !in now {
        out := out + [Removed(f)];
        continue;
      }
      if was[f].kind != now[f].kind { out := out + [Retyped(f)]; }
      if now[f].required && !was[f].required { out := out + [BecameRequired(f)]; }
      if Dropped(was[f], now[f]) != [] { out := out + [NoLongerAccepts(f)]; }
    }
    var added := now.Keys - was.Keys;
    while added != {}
      invariant added <= now.Keys - was.Keys
      invariant forall c :: c in out <==> Breaks(was, now, c) && (c.AddedRequired? ==> c.field !in added)
      decreases added
    {
      var f :| f in added;
      added := added - {f};
      if now[f].required { out := out + [AddedRequired(f)]; }
    }
    if out != [] { assert Breaks(was, now, out[0]); }
  }

  // ----- the compatibility record -----

  /** An entry of the record; a migration of None or "" is no migration. */
  datatype Entry = Entry(version: string, breaking: bool, changes: string, migration: Option<string>) {
    predicate HasStep() {
      migration.Some? && migration.value != ""
    }
  }

  datatype Snapshot = Snapshot(version: string, fields: Fields)

  /** The stored snapshots: a schema's fields by schema name and version. */
  type Store = map<(string, string), Fields>

  /** The registered migration steps' names. */
  type Steps = set<string>

  type Version = (nat, nat)

  /** parse_version(); None where it raises. The regular expression's $ allows a line feed at the end. */
  function ParseVersion(s: string): Option<Version> {
    var t := if s != [] && s[|s| - 1] == '\n' then s[..|s| - 1] else s;
    var n := LeadingDigits(t);
    if n == 0 || n == |t| || t[n] != '.' then None
    else
      var minor := t[n + 1..];
      if minor != [] && AllDigits(minor) then Some((Read(t[..n]), Read(minor))) else None
  }

  predicate Older(a: Version, b: Version) {
    a.0 < b.0 || (a.0 == b.0 && a.1 < b.1)
  }

  function ReadSnapshot(store: Store, name: string, version: string): Option<Fields> {
    if (name, version) in store then Some(store[(name, version)]) else None
  }

  datatype Problem =
    | NoSnapshot | NoChangesText | NotNextMinor | NotNextMajor | WrongBreakingFlag | NeedsMigration | UnknownMigration
    | NeedlessMigration | BreakingChange(change: Change)
    | NoVersion | NotRecorded | BadVersion | WrongLastVersion | ChangedSinceRecorded
    | NoSuchSchema | UnnamedStep(step: string)

  /**
   An entry that may follow the version before it: the first one, the next minor version with only compatible
   changes, or the next major version with its migration step.
   */
  ghost predicate EntrySound(entry: Entry, stored: Option<Fields>, prev: Option<Version>, prevSnap: Option<Fields>,
                             steps: Steps) {
    && ParseVersion(entry.version).Some? && stored.Some? && entry.changes != ""
    && var v := ParseVersion(entry.version).value;
       if prev.Some? && v.0 > prev.value.0 then
         v == (prev.value.0 + 1, 0) && entry.breaking && entry.HasStep() && entry.migration.value in steps
       else
         && (prev.Some? ==> v == (prev.value.0, prev.value.1 + 1))
         && !entry.breaking && !entry.HasStep()
         && (prevSnap.Some? ==> Compatible(prevSnap.value, stored.value))
  }

  /** _entry_problems(), for an entry whose version parses */
  method EntryProblems(entry: Entry, stored: Option<Fields>, prev: Option<Version>, prevSnap: Option<Fields>,
                       steps: Steps)
    returns (out: seq<Problem>)
    requires ParseVersion(entry.version).Some?
    ensures out == [] <==> EntrySound(entry, stored, prev, prevSnap, steps)
  {
    out := [];
    var v := ParseVersion(entry.version).value;
    if stored == None { out := out + [NoSnapshot]; }
    if entry.changes == "" { out := out + [NoChangesText]; }
    var majorBump := prev.Some? && v.0 > prev.value.0;
    if prev.Some? && !majorBump && v != (prev.value.0, prev.value.1 + 1) { out := out + [NotNextMinor]; }
    if majorBump && v != (prev.value.0 + 1, 0) { out := out + [NotNextMajor]; }
    if entry.breaking != majorBump { out := out + [WrongBreakingFlag]; }
    if majorBump && !entry.HasStep() { out := out + [NeedsMigration]; }
    if entry.HasStep() && entry.migration.value !in steps { out := out + [UnknownMigration]; }
    if entry.HasStep() && !majorBump { out := out + [NeedlessMigration]; }
    if stored.Some? && prevSnap.Some? && !majorBump {
      var breaking := BreakingChanges(prevSnap.value, stored.value);
      out := out + seq(|breaking|, i requires 0 <= i < |breaking| => BreakingChange(breaking[i]));
    }
  }

  /** The version of entry i, and what is stored for it. */
  function VersionAt(entries: seq<Entry>, i: int): Option<Version> {
    if 0 <= i < |entries| then ParseVersion(entries[i].version) else None
  }

  function SnapAt(store: Store, name: string, entries: seq<Entry>, i: int): Option<Fields> {
    if 0 <= i < |entries| then ReadSnapshot(store, name, entries[i].version) else None
  }

  ghost predicate SoundAt(store: Store, name: string, entries: seq<Entry>, steps: Steps, i: nat)
    requires i < |entries|
  {
    EntrySound(entries[i], SnapAt(store, name, entries, i), VersionAt(entries, i - 1),
      SnapAt(store, name, entries, i - 1), steps)
  }

  ghost predicate EntriesSound(store: Store, name: string, entries: seq<Entry>, steps: Steps) {
    forall i :: 0 <= i < |entries| ==> SoundAt(store, name, entries, steps, i)
  }

  ghost predicate SchemaSound(store: Store, name: string, snap: Snapshot, entries: seq<Entry>, steps: Steps) {
    && snap.version != "" && entries != []
    && EntriesSound(store, name, entries, steps)
    && entries[|entries| - 1].version == snap.version
    && SnapAt(store, name, entries, |entries| - 1) == Some(snap.fields)
  }

  /** The problems of entry i, whose version parses. */
  method ProblemsAt(store: Store, name: string, entries: seq<Entry>, steps: Steps, i: nat, prev: Option<Version>,
                    prevSnap: Option<Fields>)
    returns (out: seq<Problem>)
    requires i < |entries| && ParseVersion(entries[i].version).Some?
    requires prev == VersionAt(entries, i - 1) && prevSnap == SnapAt(store, name, entries, i - 1)
    ensures out == [] <==> SoundAt(store, name, entries, steps, i)
  {
    out := EntryProblems(entries[i], ReadSnapshot(store, name, entries[i].version), prev, prevSnap, steps);
  }

  lemma UnparsedIsUnsound(store: Store, name: string, entries: seq<Entry>, steps: Steps, i: nat)
    requires i < |entries| && ParseVersion(entries[i].version) == None
    ensures !EntriesSound(store, name, entries, steps)
  {
    assert !SoundAt(store, name, entries, steps, i);
  }

  /** The loop over the entries: their problems, up to one whose version does not parse, and the last snapshot. */
  method EntriesProblems(store: Store, name: string, entries: seq<Entry>, steps: Steps)
    returns (out: seq<Problem>, last: Option<Fields>, raised: bool)
    ensures raised ==> out != []
    ensures out == [] <==> EntriesSound(store, name, entries, steps)
    ensures !raised ==> last == SnapAt(store, name, entries, |entries| - 1)
  {
    out := [];
    var prev;
    prev, last := None, None;
    for i := 0 to |entries|
      invariant prev == VersionAt(entries, i - 1) && last == SnapAt(store, name, entries, i - 1)
      invariant out == [] <==> forall k :: 0 <= k < i ==> SoundAt(store, name, entries, steps, k)
    {
      var version := ParseVersion(entries[i].version);
      var stored := ReadSnapshot(store, name, entries[i].version);
      if version == None {
        UnparsedIsUnsound(store, name, entries, steps, i);
        return out + [BadVersion], None, true;
      }
      var found := ProblemsAt(store, name, entries, steps, i, prev, last);
      out := out + found;
      prev, last := version, stored;
    }
    raised := false;
  }

  /** _schema_problems() */
  method SchemaProblems(store: Store, name: string, snap: Snapshot, entries: seq<Entry>, steps: Steps)
    returns (out: seq<Problem>)
    ensures out == [] <==> SchemaSound(store, name, snap, entries, steps)
  {
    if snap.version == "" { return [NoVersion]; }
    if entries == [] { return [NotRecorded]; }
    var lastSnap, raised;
    out, lastSnap, raised := EntriesProblems(store, name, entries, steps);
    if raised { return; }
    var last := |entries| - 1;
    assert out == [] ==> SoundAt(store, name, entries, steps, last);
    if entries[last].version != snap.version {
      out := out + [WrongLastVersion];
    } else if lastSnap.Some? && lastSnap.value != snap.fields {
      out := out + [ChangedSinceRecorded];
    }
  }

  function EntriesOf(record: map<string, seq<Entry>>, name: string): seq<Entry> {
    if name in record then record[name] else []
  }

  predicate Named(record: map<string, seq<Entry>>, step: string) {
    exists name, i :: name in record && 0 <= i < |record[name]| && record[name][i].migration == Some(step)
  }

  ghost predicate RecordSound(store: Store, current: map<string, Snapshot>, record: map<string, seq<Entry>>,
                              steps: Steps) {
    && record.Keys <= current.Keys
    && (forall name :: name in current ==> SchemaSound(store, name, current[name], EntriesOf(record, name), steps))
    && (forall step :: step in steps ==> Named(record, step))
  }

  /** check() */
  method Check(store: Store, current: map<string, Snapshot>, record: map<string, seq<Entry>>, steps: Steps)
    returns (problems: seq<(string, Problem)>)
    ensures problems == [] <==> RecordSound(store, current, record, steps)
  {
    problems := [];
    var extra := record.Keys - current.Keys;
    while extra != {}
      invariant extra <= record.Keys - current.Keys
      invariant problems == [] <==> extra == record.Keys - current.Keys
      decreases extra
    {
      var name :| name in extra;
      extra := extra - {name};
      problems := problems + [(name, NoSuchSchema)];
    }
    assert record.Keys - current.Keys == {} ==> forall name :: name in record ==> name !in record.Keys - current.Keys;
    assert problems == [] <==> record.Keys <= current.Keys;
    var left := current.Keys;
    while left != {}
      invariant left <= current.Keys
      invariant problems == [] <==>
                && record.Keys <= current.Keys
                && forall n :: n in current && n !in left ==>
                   SchemaSound(store, n, current[n], EntriesOf(record, n), steps)
      decreases left
    {
      var name :| name in left;
      left := left - {name};
      var found := SchemaProblems(store, name, current[name], EntriesOf(record, name), steps);
      problems := problems + seq(|found|, i requires 0 <= i < |found| => (name, found[i]));
    }
    var named := set name, i | name in record && 0 <= i < |record[name]| :: record[name][i].migration;
    var unnamed := set step | step in steps && Some(step) !in named;
    assert forall step :: step in unnamed <==> step in steps && !Named(record, step);
    ghost var before := problems;
    ghost var all := unnamed;
    while unnamed != {}
      invariant unnamed <= all
      invariant problems == [] <==> before == [] && unnamed == all
      decreases unnamed
    {
      var step :| step in unnamed;
      unnamed := unnamed - {step};
      problems := problems + [("", UnnamedStep(step))];
    }
  }
}
