/** The checker and the validator agree: what counts as compatible, a valid configuration survives. */
module SchemaCompatibility {
  import opened Decimal
  import opened Json
  import opened SchemaValidate
  import opened SchemaVersions
  import opened Text
  import opened Wrappers

  // ----- one field -----

  /** A text that is checked at all: neither blank nor a placeholder. */
  predicate Checkable(t: string) {
    !Absent(Text(t)) && !Placeholder(Text(t))
  }

  /** What is neither a text, a number nor a boolean is not written like an absent value or a placeholder. */
  ghost predicate Legible(py: Python) {
    forall v: Value :: !v.Text? && !v.Number? && !v.Bool? ==> Checkable(py.repr(v))
  }

  lemma WrittenPlainly(py: Python, v: Value)
    requires Legible(py) && !v.Text?
    ensures Checkable(Str(py, v))
  {
    var t := Str(py, v);
    if v.Number? && v.n >= 0 { assert IsDigit(t[0]); }
    if v.Number? || v.Bool? { StartsPlainly(t); }
  }

  /** One of the enum's values is written so. */
  predicate Spelt(py: Python, enum: seq<Value>, t: string) {
    exists i :: 0 <= i < |enum| && t == Str(py, EnumValue(enum[i]))
  }

  predicate EqualsOne(enum: seq<Value>, v: Value) {
    exists i :: 0 <= i < |enum| && Equal(v, EnumValue(enum[i]))
  }

  lemma ListedMeans(py: Python, enum: seq<Value>, v: Value)
    ensures Listed(py, enum, v) <==> EqualsOne(enum, v) || Spelt(py, enum, Str(py, v))
    ensures v.Text? ==> (Listed(py, enum, v) <==> Spelt(py, enum, v.s))
  {
  }

  lemma EqualEntries(a: Value, b: Value)
    requires Equal(a, b)
    ensures Equal(EnumValue(a), EnumValue(b))
  {
    if a.Object? && "value" in a.entries {
      assert Equal(a.entries["value"], b.entries["value"]);
    }
  }

  /** What equals an entry equals one of an enum that misses none of them. */
  lemma StaysEqual(was: seq<Value>, now: seq<Value>, v: Value)
    requires Missing(was, now) == [] && EqualsOne(was, v)
    ensures EqualsOne(now, v)
  {
    var i :| 0 <= i < |was| && Equal(v, EnumValue(was[i]));
    assert Among(was[i], now);
    var j :| 0 <= j < |now| && Equal(was[i], now[j]);
    EqualEntries(was[i], now[j]);
    EqualTransitive(v, EnumValue(was[i]), EnumValue(now[j]));
  }

  // ----- exactly which unreported changes are harmless -----

  /** No number is within the field's bounds. */
  predicate NoNumber(field: Field) {
    Low(field).Some? && High(field).Some? && Low(field).value > High(field).value
  }

  predicate Wider(was: Field, now: Field) {
    && (Low(now).Some? ==> Low(was).Some? && Low(now).value <= Low(was).value)
    && (High(now).Some? ==> High(was).Some? && High(was).value <= High(now).value)
  }

  /** A text that fitted the older form still has a place: it fits the newer one, and the enum, if there is one. */
  predicate TextKept(py: Python, was: Field, now: Field, t: string) {
    Checkable(t) && FitsForm(py, was, t) ==> FitsForm(py, now, t) && (now.enum == [] || Spelt(py, now.enum, t))
  }

  /** The texts of the enum's entries are kept. */
  predicate EntriesKept(py: Python, was: Field, now: Field) {
    forall i :: 0 <= i < |was.enum| ==> TextKept(py, was, now, Str(py, EnumValue(was.enum[i])))
  }

  /** What equals an entry and is written otherwise, like 1.0 for 1, fits the newer form as it did the older one. */
  ghost predicate EqualsFit(py: Python, was: Field, now: Field) {
    forall v: Value :: !v.Text? && !Absent(v) && EqualsOne(was.enum, v) && FitsForm(py, was, Str(py, v)) ==>
      FitsForm(py, now, Str(py, v))
  }

  ghost predicate TextsKept(py: Python, was: Field, now: Field) {
    if was.enum == [] then forall t: string :: TextKept(py, was, now, t)
    else EntriesKept(py, was, now) && EqualsFit(py, was, now)
  }

  /** Bounds were not narrowed, unless nothing fitted them; the texts of the enum, or all texts, are kept. */
  ghost predicate Harmless(py: Python, was: Field, now: Field) {
    (NumberKind(was) ==> NoNumber(was) || Wider(was, now)) && (TextKind(was) ==> TextsKept(py, was, now))
  }

  function Clamp(field: Field, n: int): int {
    if Low(field).Some? && n < Low(field).value then Low(field).value
    else if High(field).Some? && n > High(field).value then High(field).value
    else n
  }

  lemma NarrowedRefuses(py: Python, was: Field, now: Field) returns (v: Value)
    requires was.kind == now.kind && NumberKind(was) && !NoNumber(was) && !Wider(was, now)
    ensures Accepts(py, was, v) && !Accepts(py, now, v)
  {
    if Low(now).Some? && !(Low(was).Some? && Low(now).value <= Low(was).value) {
      v := Number(Clamp(was, Low(now).value - 1));
    } else {
      v := Number(Clamp(was, High(now).value + 1));
    }
  }

  lemma TextTakes(py: Python, field: Field, v: Value)
    requires TextKind(field)
    ensures Takes(py, field, v) <==>
            (field.enum == [] || EqualsOne(field.enum, v) || Spelt(py, field.enum, Str(py, v)))
            && FitsForm(py, field, Str(py, v))
    ensures v.Text? ==>
              (Takes(py, field, v) <==> (field.enum == [] || Spelt(py, field.enum, v.s)) && FitsForm(py, field, v.s))
  {
    ListedMeans(py, field.enum, v);
  }

  lemma SpeltKept(py: Python, was: Field, now: Field, t: string)
    requires EntriesKept(py, was, now) && Spelt(py, was.enum, t)
    ensures TextKept(py, was, now, t)
  {
  }

  /** Whether it is a text, whose own writing is kept, or another value, which is written plainly. */
  lemma TextsKeep(py: Python, was: Field, now: Field, v: Value)
    requires Legible(py) && was.kind == now.kind && TextKind(was) && Dropped(was, now) == []
    requires TextsKept(py, was, now) && Accepts(py, was, v)
    ensures Accepts(py, now, v)
  {
    if !Absent(v) && !Placeholder(v) {
      var t := Str(py, v);
      TextTakes(py, was, v);
      TextTakes(py, now, v);
      assert Checkable(t) by { if !v.Text? { WrittenPlainly(py, v); } }
      if was.enum == [] {
        assert TextKept(py, was, now, t);
      } else if Spelt(py, was.enum, t) {
        SpeltKept(py, was, now, t);
      } else if now.enum != [] {
        StaysEqual(was.enum, now.enum, v);
      }
    }
  }

  /** A text that is not kept is refused. */
  lemma TextLost(py: Python, was: Field, now: Field, t: string)
    requires was.kind == now.kind && TextKind(was) && !TextKept(py, was, now, t) &&
             (was.enum == [] || Spelt(py, was.enum, t))
    ensures Accepts(py, was, Text(t)) && !Accepts(py, now, Text(t))
  {
    TextTakes(py, was, Text(t));
    TextTakes(py, now, Text(t));
  }

  lemma TextsRefused(py: Python, was: Field, now: Field) returns (v: Value)
    requires was.kind == now.kind && TextKind(was) && !TextsKept(py, was, now)
    requires Legible(py)
    ensures Accepts(py, was, v) && !Accepts(py, now, v)
  {
    if was.enum == [] {
      var t: string :| !TextKept(py, was, now, t);
      TextLost(py, was, now, t);
      v := Text(t);
    } else if !EntriesKept(py, was, now) {
      var i :| 0 <= i < |was.enum| && !TextKept(py, was, now, Str(py, EnumValue(was.enum[i])));
      TextLost(py, was, now, Str(py, EnumValue(was.enum[i])));
      v := Text(Str(py, EnumValue(was.enum[i])));
    } else {
      v :| !v.Text? && !Absent(v) && EqualsOne(was.enum, v) && FitsForm(py, was, Str(py, v)) &&
           !FitsForm(py, now, Str(py, v));
      TextTakes(py, was, v);
      TextTakes(py, now, v);
    }
  }

  /** What the older version of a field accepts, the newer one does. */
  lemma FieldKeeps(py: Python, was: Field, now: Field, v: Value)
    requires Legible(py) && was.kind == now.kind && Dropped(was, now) == [] && Harmless(py, was, now)
    requires Accepts(py, was, v)
    ensures Accepts(py, now, v)
  {
    if TextKind(was) { TextsKeep(py, was, now, v); }
  }

  /** A change that is not reported as breaking leaves everything accepted if and only if it is harmless. */
  lemma UnreportedButHarmless(py: Python, was: Field, now: Field)
    requires Legible(py) && was.kind == now.kind && Dropped(was, now) == []
    ensures (forall v :: Accepts(py, was, v) ==> Accepts(py, now, v)) <==> Harmless(py, was, now)
  {
    if Harmless(py, was, now) {
      forall v | Accepts(py, was, v) ensures Accepts(py, now, v) { FieldKeeps(py, was, now, v); }
    } else if NumberKind(was) {
      var v := NarrowedRefuses(py, was, now);
    } else {
      var v := TextsRefused(py, was, now);
    }
  }

  // ----- what harmless comes down to where the form stays or goes -----

  predicate FormStaysOrGoes(was: Field, now: Field) {
    now.pattern == was.pattern || now.pattern == None || now.pattern == Some("")
  }

  function Longest(py: Python, enum: seq<Value>): nat {
    if enum == [] then 0
    else
      var n := Longest(py, enum[..|enum| - 1]);
      var m := |Str(py, EnumValue(enum[|enum| - 1]))|;
      if m > n then m else n
  }

  lemma {:induction false} LongestBounds(py: Python, enum: seq<Value>, i: nat)
    requires i < |enum|
    ensures |Str(py, EnumValue(enum[i]))| <= Longest(py, enum)
  {
    if i < |enum| - 1 { LongestBounds(py, enum[..|enum| - 1], i); }
  }

  /** No enum lists every text. */
  lemma SomeTextUnlisted(py: Python, enum: seq<Value>) returns (t: string)
    ensures Checkable(t) && !Spelt(py, enum, t)
  {
    t := seq(Longest(py, enum) + 1, _ => 'x');
    assert t[0] == 'x';
    StartsPlainly(t);
    forall i | 0 <= i < |enum| ensures t != Str(py, EnumValue(enum[i])) { LongestBounds(py, enum, i); }
  }

  /**
   With the form unchanged or dropped, a change of an enum is harmless if and only if the text of every entry that
   was a text to check and fitted the form is the text of an entry still. Without a form no enum may be gained.
   */
  lemma EnumHarmlessIff(py: Python, was: Field, now: Field)
    requires TextKind(was) && FormStaysOrGoes(was, now)
    ensures was.enum != [] || now.enum == [] ==> (Harmless(py, was, now) <==> EntriesKept(py, was, now))
    ensures was.enum == [] && now.enum != [] && was.pattern == None ==> !Harmless(py, was, now)
  {
    if was.enum == [] && now.enum != [] && was.pattern == None {
      var t := SomeTextUnlisted(py, now.enum);
      assert !TextKept(py, was, now, t);
    }
  }

  /** Texts stay texts: an unreported change of an enum of texts keeps its entries. */
  lemma TextEntriesKept(py: Python, was: Field, now: Field)
    requires forall i :: 0 <= i < |was.enum| ==> EnumValue(was.enum[i]).Text?
    requires Dropped(was, now) == [] && FormStaysOrGoes(was, now)
    ensures EntriesKept(py, was, now)
  {
    forall i | 0 <= i < |was.enum| && now.enum != [] ensures Spelt(py, now.enum, Str(py, EnumValue(was.enum[i]))) {
      assert Among(was.enum[i], now.enum);
      var j :| 0 <= j < |now.enum| && Equal(was.enum[i], now.enum[j]);
      EqualEntries(was.enum[i], now.enum[j]);
      assert EnumValue(now.enum[j]) == EnumValue(was.enum[i]);
    }
  }

  // ----- configurations -----

  /** Everything filled in later: such a configuration is valid under any version. */
  function Unfilled(fields: Fields): Config {
    map f | f in fields :: Text("??")
  }

  lemma UnfilledIsValid(py: Python, fields: Fields, f: string, v: Value)
    requires f in fields && Accepts(py, fields[f], v) && !Absent(v)
    ensures Valid(py, fields, Unfilled(fields)[f := v])
  {
    var open := Text("??");
    assert open.s[0] == '?' && "??" <= LStrip(open.s);
    WordsBlank(open.s);
    assert !Absent(open) && Placeholder(open);
  }

  /**
   A configuration of a compatible older version, without keys of its own: valid then, valid now, if and only if every
   change of a field is harmless.
   */
  lemma CompatibleKeepsValid(py: Python, was: Fields, now: Fields)
    requires Legible(py) && Compatible(was, now)
    ensures (forall cfg: Config :: cfg.Keys <= was.Keys && Valid(py, was, cfg) ==> Valid(py, now, cfg)) <==>
            forall f :: f in was && f in now ==> Harmless(py, was[f], now[f])
  {
    if forall f :: f in was && f in now ==> Harmless(py, was[f], now[f]) {
      forall cfg: Config | cfg.Keys <= was.Keys && Valid(py, was, cfg) ensures Valid(py, now, cfg) {
        ConfigKeeps(py, was, now, cfg);
      }
    }
    if f :| f in was && f in now && !Harmless(py, was[f], now[f]) {
      var cfg := HarmfulBreaks(py, was, now, f);
    }
  }

  /** A change that is not harmless makes some valid configuration invalid. */
  lemma HarmfulBreaks(py: Python, was: Fields, now: Fields, f: string) returns (cfg: Config)
    requires Legible(py) && Compatible(was, now) && f in was && f in now && !Harmless(py, was[f], now[f])
    ensures cfg.Keys <= was.Keys && Valid(py, was, cfg) && !Valid(py, now, cfg)
  {
    FieldCompatible(was, now, f);
    UnreportedButHarmless(py, was[f], now[f]);
    var v :| Accepts(py, was[f], v) && !Accepts(py, now[f], v);
    UnfilledIsValid(py, was, f, v);
    cfg := Unfilled(was)[f := v];
    assert cfg[f] == v;
  }

  lemma FieldCompatible(was: Fields, now: Fields, f: string)
    requires Compatible(was, now) && f in was
    ensures f in now && was[f].kind == now[f].kind && Dropped(was[f], now[f]) == [] &&
            (now[f].required ==> was[f].required)
  {
    assert !Breaks(was, now, Removed(f)) && !Breaks(was, now, Retyped(f));
    assert !Breaks(was, now, BecameRequired(f)) && !Breaks(was, now, NoLongerAccepts(f));
  }

  lemma ConfigKeeps(py: Python, was: Fields, now: Fields, cfg: Config)
    requires Legible(py) && Compatible(was, now) && cfg.Keys <= was.Keys && Valid(py, was, cfg)
    requires forall f :: f in was && f in now ==> Harmless(py, was[f], now[f])
    ensures Valid(py, now, cfg)
  {
    forall f | f in now && f in cfg ensures Accepts(py, now[f], cfg[f]) {
      FieldCompatible(was, now, f);
      FieldKeeps(py, was[f], now[f], cfg[f]);
    }
    forall f | f in now && now[f].required ensures f in cfg && !Absent(cfg[f]) {
      assert !Breaks(was, now, AddedRequired(f));
      if f in was { FieldCompatible(was, now, f); }
    }
  }

  lemma WrittenTrue(v: Value)
    requires v == Text("True")
    ensures !Absent(v) && !Placeholder(v) && |v.s| == 4
  {
    WordsBlank(v.s);
    assert v.s[0] == 'T';
  }

  lemma TrueIsOne(py: Python, was: seq<Value>, now: seq<Value>, v: Value)
    requires was == [Bool(true)] && now == [Number(1)] && v == Text("True")
    ensures Missing(was, now) == [] && Listed(py, was, v) && !Listed(py, now, v)
  {
    assert Among(was[0], now) by { assert Equal(was[0], now[0]); }
    assert Str(py, EnumValue(was[0])) == v.s;
    assert |Str(py, EnumValue(now[0]))| == 1;
  }

  lemma OneFieldCompatible(f: string, was: Field, now: Field)
    requires was.kind == now.kind && was.required == now.required && Dropped(was, now) == []
    ensures Compatible(map[f := was], map[f := now])
  {
    forall c ensures !Breaks(map[f := was], map[f := now], c) {}
  }

  lemma ListedNoMore(py: Python, f: string, v: Value, was: Field, now: Field)
    requires TextKind(was) && was.pattern == None && now == was.(enum := now.enum) && was.enum != [] && now.enum != []
    requires Missing(was.enum, now.enum) == [] && Listed(py, was.enum, v) && !Listed(py, now.enum, v)
    requires !Absent(v) && !Placeholder(v)
    ensures Compatible(map[f := was], map[f := now])
    ensures Accepts(py, was, v) && !Accepts(py, now, v)
  {
    TextTakes(py, was, v);
    TextTakes(py, now, v);
    OneFieldCompatible(f, was, now);
  }

  /**
   An unreported change that is not harmless: 1 equals True, so [1] in place of [True] is no breaking change, yet the
   text "True" is accepted before and refused after.
   */
  lemma EqualButSpeltOtherwise(py: Python, f: string, v: Value, was: Field, now: Field)
    requires v == Text("True") && TextKind(was) && was.pattern == None
    requires was.enum == [Bool(true)] && now == was.(enum := [Number(1)])
    ensures Compatible(map[f := was], map[f := now])
    ensures Accepts(py, was, v) && !Accepts(py, now, v)
  {
    WrittenTrue(v);
    TrueIsOne(py, was.enum, now.enum, v);
    ListedNoMore(py, f, v, was, now);
  }

  // ----- a whole major line -----

  /** Each version is compatible with the one before it. */
  ghost predicate Chain(line: seq<Fields>) {
    forall i :: 0 < i < |line| ==> Compatible(line[i - 1], line[i])
  }

  lemma ChainPrefix(line: seq<Fields>)
    requires Chain(line) && |line| >= 2
    ensures Chain(line[..|line| - 1]) && Compatible(line[|line| - 2], line[|line| - 1])
  {
    var init := line[..|line| - 1];
    forall i | 0 < i < |init| ensures Compatible(init[i - 1], init[i]) {
      assert init[i - 1] == line[i - 1] && init[i] == line[i];
    }
  }

  lemma TwoSteps(a: Fields, b: Fields, c: Fields, change: Change)
    requires Compatible(b, c) && (forall x :: Breaks(a, b, x) ==> x.NoLongerAccepts?)
    requires Breaks(a, c, change)
    ensures change.NoLongerAccepts?
  {
    var f := change.field;
    assert !Breaks(b, c, Removed(f)) && !Breaks(b, c, Retyped(f)) && !Breaks(b, c, BecameRequired(f)) &&
           !Breaks(b, c, AddedRequired(f));
    assert !Breaks(a, b, Removed(f)) && !Breaks(a, b, Retyped(f)) && !Breaks(a, b, BecameRequired(f)) &&
           !Breaks(a, b, AddedRequired(f));
  }

  /** Between the ends of a chain, nothing but a dropped enum entry can break. */
  lemma {:induction false} OnlyEnumsBreak(line: seq<Fields>)
    requires Chain(line) && line != []
    ensures forall c :: Breaks(line[0], line[|line| - 1], c) ==> c.NoLongerAccepts?
  {
    var n := |line| - 1;
    if n > 0 {
      ChainPrefix(line);
      OnlyEnumsBreak(line[..n]);
      forall c | Breaks(line[0], line[n], c) ensures c.NoLongerAccepts? {
        TwoSteps(line[0], line[n - 1], line[n], c);
      }
    }
  }

  /** The field has an enum at the start of the line and none somewhere later on. */
  predicate LosesEnum(line: seq<Fields>, f: string)
    requires line != []
  {
    f in line[0] && line[0][f].enum != [] && exists k :: 0 <= k < |line| && f in line[k] && line[k][f].enum == []
  }

  /** A field that keeps its enum all along keeps every entry of it. */
  lemma {:induction false} KeptEnumGrows(line: seq<Fields>, f: string)
    requires Chain(line) && line != [] && f in line[0] && line[0][f].enum != [] && !LosesEnum(line, f)
    ensures f in line[|line| - 1] && line[|line| - 1][f].enum != []
    ensures Missing(line[0][f].enum, line[|line| - 1][f].enum) == []
  {
    var n := |line| - 1;
    if n == 0 {
      forall i | 0 <= i < |line[0][f].enum| ensures Among(line[0][f].enum[i], line[0][f].enum) {
        EqualReflexive(line[0][f].enum[i]);
      }
    } else {
      ChainPrefix(line);
      var init := line[..n];
      assert forall k :: 0 <= k < n ==> init[k] == line[k];
      KeptEnumGrows(init, f);
      assert !Breaks(line[n - 1], line[n], Removed(f)) && !Breaks(line[n - 1], line[n], NoLongerAccepts(f));
      assert line[n][f].enum != [];
      forall i | 0 <= i < |line[0][f].enum| ensures Among(line[0][f].enum[i], line[n][f].enum) {
        AmongAll(line[0][f].enum[i], line[n - 1][f].enum, line[n][f].enum);
      }
    }
  }

  /**
   Along a chain of compatible versions the ends are compatible if and only if no field dropped an enum entry by
   losing its enum and regaining a narrower one.
   */
  lemma EndsCompatible(line: seq<Fields>)
    requires Chain(line) && line != []
    ensures var first, last := line[0], line[|line| - 1];
            Compatible(first, last) <==>
            forall f :: LosesEnum(line, f) && f in last ==> Dropped(first[f], last[f]) == []
  {
    var first, last := line[0], line[|line| - 1];
    OnlyEnumsBreak(line);
    if Compatible(first, last) {
      forall f | LosesEnum(line, f) && f in last ensures Dropped(first[f], last[f]) == [] {
        assert !Breaks(first, last, NoLongerAccepts(f));
      }
    }
    if forall f :: LosesEnum(line, f) && f in last ==> Dropped(first[f], last[f]) == [] {
      forall f | f in first && f in last ensures Dropped(first[f], last[f]) == [] {
        if first[f].enum == [] {
          assert Missing(first[f].enum, last[f].enum) == [];
        } else if !LosesEnum(line, f) {
          KeptEnumGrows(line, f);
        }
      }
      forall c ensures !Breaks(first, last, c) {
        assert c.NoLongerAccepts? ==> !Breaks(first, last, c);
      }
    }
  }

  /** An enum dropped and later re-added narrower: each step is compatible, the two together are not. */
  lemma DroppedAndReadded(py: Python, f: string, kept: Value, lost: Value)
    requires kept.Text? && lost.Text? && Str(py, kept) != Str(py, lost) && !Absent(lost) && !Placeholder(lost)
    ensures var a := Field(None, false, None, [lost, kept], None, Unset, Unset);
            var b := a.(enum := []);
            var c := a.(enum := [kept]);
            && Chain([map[f := a], map[f := b], map[f := c]])
            && !Compatible(map[f := a], map[f := c])
            && Accepts(py, a, lost) && !Accepts(py, c, lost)
  {
    var a := Field(None, false, None, [lost, kept], None, Unset, Unset);
    var c := a.(enum := [kept]);
    assert EnumValue(a.enum[0]) == lost && EnumValue(c.enum[0]) == kept;
    assert !Among(a.enum[0], c.enum);
    assert Breaks(map[f := a], map[f := c], NoLongerAccepts(f));
  }

  // ----- what a sound record guarantees -----

  /** A record that passes the check orders the versions of a schema strictly. */
  lemma {:induction false} VersionsIncrease(store: Store, name: string, entries: seq<Entry>, steps: Steps, i: nat,
                                            j: nat)
    requires EntriesSound(store, name, entries, steps) && i < j < |entries|
    ensures VersionAt(entries, i).Some? && VersionAt(entries, j).Some?
    ensures Older(VersionAt(entries, i).value, VersionAt(entries, j).value)
    decreases j
  {
    assert SoundAt(store, name, entries, steps, j);
    assert SoundAt(store, name, entries, steps, i);
    if i < j - 1 {
      VersionsIncrease(store, name, entries, steps, i, j - 1);
    }
  }

  /** The stored fields of entry k; a sound record stores them for every entry. */
  function FieldsAt(store: Store, name: string, entries: seq<Entry>, k: nat): Fields {
    if SnapAt(store, name, entries, k).Some? then SnapAt(store, name, entries, k).value else map[]
  }

  function Line(store: Store, name: string, entries: seq<Entry>, i: nat, j: nat): (line: seq<Fields>)
    requires i <= j
    ensures |line| == j - i + 1 && forall k :: 0 <= k < |line| ==> line[k] == FieldsAt(store, name, entries, i + k)
  {
    seq(j - i + 1, k requires 0 <= k < j - i + 1 => FieldsAt(store, name, entries, i + k))
  }

  predicate SameMajor(entries: seq<Entry>, i: nat, j: nat) {
    && VersionAt(entries, i).Some? && VersionAt(entries, j).Some?
    && VersionAt(entries, i).value.0 == VersionAt(entries, j).value.0
  }

  lemma SoundStores(store: Store, name: string, entries: seq<Entry>, steps: Steps, k: nat)
    requires EntriesSound(store, name, entries, steps) && k < |entries|
    ensures SnapAt(store, name, entries, k).Some? && VersionAt(entries, k).Some?
  {
    assert SoundAt(store, name, entries, steps, k);
  }

  lemma NextIsCompatible(store: Store, name: string, entries: seq<Entry>, steps: Steps, at: nat, a: Version, b: Version)
    requires EntriesSound(store, name, entries, steps) && 0 < at < |entries|
    requires VersionAt(entries, at - 1) == Some(a) && VersionAt(entries, at) == Some(b) && b.0 <= a.0
    ensures Compatible(FieldsAt(store, name, entries, at - 1), FieldsAt(store, name, entries, at))
  {
    SoundStores(store, name, entries, steps, at - 1);
    assert SoundAt(store, name, entries, steps, at);
  }

  lemma MajorsGrow(store: Store, name: string, entries: seq<Entry>, steps: Steps, i: nat, j: nat)
    requires EntriesSound(store, name, entries, steps) && i <= j < |entries|
    ensures VersionAt(entries, i).Some? && VersionAt(entries, j).Some?
    ensures VersionAt(entries, i).value.0 <= VersionAt(entries, j).value.0
  {
    SoundStores(store, name, entries, steps, i);
    if i < j { VersionsIncrease(store, name, entries, steps, i, j); }
  }

  lemma StepOfLine(store: Store, name: string, entries: seq<Entry>, steps: Steps, i: nat, j: nat, at: nat)
    requires EntriesSound(store, name, entries, steps) && i < at <= j < |entries|
    requires SameMajor(entries, i, j)
    ensures Compatible(FieldsAt(store, name, entries, at - 1), FieldsAt(store, name, entries, at))
  {
    MajorsGrow(store, name, entries, steps, i, at - 1);
    MajorsGrow(store, name, entries, steps, at, j);
    NextIsCompatible(store, name, entries, steps, at, VersionAt(entries, at - 1).value, VersionAt(entries, at).value);
  }

  /** Versions of one major follow each other by compatible changes only. */
  lemma MajorLineIsChain(store: Store, name: string, entries: seq<Entry>, steps: Steps, i: nat, j: nat)
    requires EntriesSound(store, name, entries, steps) && i <= j < |entries|
    requires SameMajor(entries, i, j)
    ensures Chain(Line(store, name, entries, i, j))
  {
    var line := Line(store, name, entries, i, j);
    forall k | 0 < k < |line| ensures Compatible(line[k - 1], line[k]) {
      StepOfLine(store, name, entries, steps, i, j, i + k);
    }
  }

  /**
   A record that passes the check, and two versions of one major between which no field dropped an enum entry by losing
   its enum and regaining a narrower one: every configuration valid under the earlier version, without keys of its own,
   is valid under the later one if and only if the change of every field, from the one to the other, is harmless.
   */
  lemma ValidAcrossMajor(py: Python, store: Store, name: string, snap: Snapshot, entries: seq<Entry>, steps: Steps,
                         i: nat, j: nat)
    requires Legible(py) && SchemaSound(store, name, snap, entries, steps) && i <= j < |entries|
    requires SameMajor(entries, i, j)
    requires var line := Line(store, name, entries, i, j);
             var first, last := line[0], line[|line| - 1];
             forall f :: LosesEnum(line, f) && f in last ==> Dropped(first[f], last[f]) == []
    ensures var first, last := FieldsAt(store, name, entries, i), FieldsAt(store, name, entries, j);
            && Compatible(first, last)
            && ((forall cfg: Config :: cfg.Keys <= first.Keys && Valid(py, first, cfg) ==> Valid(py, last, cfg)) <==>
                (forall f :: f in first && f in last ==> Harmless(py, first[f], last[f])))
  {
    var line := Line(store, name, entries, i, j);
    MajorLineIsChain(store, name, entries, steps, i, j);
    EndsCompatible(line);
    CompatibleKeepsValid(py, line[0], line[|line| - 1]);
  }
}
