/**
 Checking a configuration value against the schema field that declares it.

 Python's regular expressions, and the texts of floats, lists and mappings, are any functions.
 */
module SchemaValidate {
  import opened Decimal
  import opened Json
  import opened Text
  import opened Wrappers

  /** What a bound says: not declared, declared as null, or a number. */
  datatype Bound = Unset | Unbounded | At(n: int)

  /** The properties of a field; no enum and an empty one are the same. */
  datatype Field = Field(kind: Option<string>, required: bool, default: Option<Value>, enum: seq<Value>,
                         pattern: Option<string>, min: Bound, max: Bound)

  datatype Severity = Error | Warning

  datatype Problem =
    | NotANumber | Below(low: int) | Above(high: int) | QuotedBoolean | NotABoolean | NotAList | NotAMapping
    | NotListed | NotTheForm

  datatype Finding = Finding(severity: Severity, path: string, problem: Problem)

  /** str() of what is neither a text, a number nor a boolean, and re.match(). */
  datatype Python = Python(repr: Value -> string, matches: (string, string) -> bool)

  // ----- reading a value -----

  /** s.rstrip() */
  function RStrip(s: string): (r: string)
    ensures |r| <= |s|
  {
    if s != [] && IsSpace(s[|s| - 1]) then RStrip(s[..|s| - 1]) else s
  }

  /** s.strip() */
  function Strip(s: string): string {
    RStrip(LStrip(s))
  }

  /** Digits, single underscores between them. */
  predicate Grouped(s: string) {
    && s != [] && IsDigit(s[0]) && IsDigit(s[|s| - 1])
    && (forall i :: 0 <= i < |s| ==> IsDigit(s[i]) || s[i] == '_')
    && (forall i :: 0 <= i < |s| - 1 ==> s[i] != '_' || s[i + 1] != '_')
  }

  function Ungrouped(s: string): (r: string)
    ensures AllDigits(r)
  {
    if s == [] then []
    else if IsDigit(s[|s| - 1]) then Ungrouped(s[..|s| - 1]) + [s[|s| - 1]]
    else Ungrouped(s[..|s| - 1])
  }

  /** int(s), when it does not raise */
  function ReadInt(s: string): Option<int> {
    if Grouped(s) then Some(Read(Ungrouped(s)))
    else if s != [] && s[0] == '-' && Grouped(s[1..]) then var n: int := Read(Ungrouped(s[1..])); Some(-n)
    else if s != [] && s[0] == '+' && Grouped(s[1..]) then Some(Read(Ungrouped(s[1..])))
    else None
  }

  /** str(v) */
  function Str(py: Python, v: Value): string {
    match v
    case Text(s) => s
    case Bool(on) => if on then "True" else "False"
    case Number(n) => if n < 0 then "-" + Show(-n) else Show(n)
    case _ => py.repr(v)
  }

  predicate Absent(v: Value) {
    || v.Null?
    || (v.Text? && Words(v.s) == [])
    || (v.Array? && v.items == [])
    || (v.Object? && v.entries == map[])
  }

  predicate Placeholder(v: Value) {
    v.Text? && "??" <= LStrip(v.s)
  }

  /** _as_int() */
  function AsInt(v: Value): Option<int> {
    match v
    case Number(n) => Some(n)
    case Text(s) => ReadInt(Strip(s))
    case _ => None
  }

  // ----- value_finding() -----

  function EnumValue(entry: Value): Value {
    if entry.Object? then (if "value" in entry.entries then entry.entries["value"] else Null) else entry
  }

  /** Value v is one of the declared ones, or is written like one. */
  predicate Listed(py: Python, enum: seq<Value>, v: Value) {
    exists i :: 0 <= i < |enum| &&
      (Equal(v, EnumValue(enum[i])) || Str(py, v) == Str(py, EnumValue(enum[i])))
  }

  function Low(field: Field): Option<int> {
    match field.min
    case At(n) => Some(n)
    case Unbounded => None
    case Unset => if field.kind == Some("port") then Some(1) else None
  }

  function High(field: Field): Option<int> {
    match field.max
    case At(n) => Some(n)
    case Unbounded => None
    case Unset => if field.kind == Some("port") then Some(65535) else None
  }

  predicate Within(field: Field, n: int) {
    (Low(field).Some? ==> Low(field).value <= n) && (High(field).Some? ==> n <= High(field).value)
  }

  function NumberFinding(field: Field, v: Value): Option<(Severity, Problem)> {
    match AsInt(v)
    case None => Some((Error, NotANumber))
    case Some(n) =>
      if Low(field).Some? && n < Low(field).value then Some((Error, Below(Low(field).value)))
      else if High(field).Some? && n > High(field).value then Some((Error, Above(High(field).value)))
      else None
  }

  predicate BooleanText(s: string) {
    s in ["1", "true", "yes", "0", "false", "no"]
  }

  function BooleanFinding(py: Python, v: Value): Option<(Severity, Problem)> {
    if v.Bool? then None
    else if BooleanText(Lower(Strip(Str(py, v)))) then Some((Warning, QuotedBoolean))
    else Some((Error, NotABoolean))
  }

  predicate NumberKind(field: Field) {
    field.kind == Some("integer") || field.kind == Some("port")
  }

  /** A kind whose values are only checked against the enum and the pattern. */
  predicate TextKind(field: Field) {
    field.kind.None? || field.kind.value !in ["integer", "port", "boolean", "array", "object"]
  }

  predicate FitsForm(py: Python, field: Field, t: string) {
    field.pattern.Some? && field.pattern.value != "" ==> py.matches(field.pattern.value, t)
  }

  /** What a field takes, by its kind. */
  predicate Takes(py: Python, field: Field, v: Value) {
    if NumberKind(field) then AsInt(v).Some? && Within(field, AsInt(v).value)
    else if field.kind == Some("boolean") then v.Bool? || BooleanText(Lower(Strip(Str(py, v))))
    else if field.kind == Some("array") then v.Array?
    else if field.kind == Some("object") then v.Object?
    else (field.enum != [] ==> Listed(py, field.enum, v)) && FitsForm(py, field, Str(py, v))
  }

  predicate Accepts(py: Python, field: Field, v: Value) {
    Absent(v) || Placeholder(v) || Takes(py, field, v)
  }

  /** value_finding(): an error exactly for the values the field does not accept. */
  function ValueFinding(py: Python, field: Field, v: Value): (r: Option<(Severity, Problem)>)
    ensures (r.Some? && r.value.0 == Error) <==> !Accepts(py, field, v)
    ensures r.Some? && r.value.0 == Warning ==> field.kind == Some("boolean") && !v.Bool?
  {
    if Absent(v) || Placeholder(v) then None
    else
      var kind := if field.kind == None || field.kind == Some("") then "string" else field.kind.value;
      if kind == "integer" || kind == "port" then NumberFinding(field, v)
      else if kind == "boolean" then BooleanFinding(py, v)
      else if kind == "array" then (if v.Array? then None else Some((Error, NotAList)))
      else if kind == "object" then (if v.Object? then None else Some((Error, NotAMapping)))
      else if field.enum != [] && !Listed(py, field.enum, v) then Some((Error, NotListed))
      else
        match field.pattern
        case None => None
        case Some(pattern) =>
          if pattern != "" && !py.matches(pattern, Str(py, v)) then Some((Error, NotTheForm)) else None
  }

  // ----- numbers and bounds -----

  lemma {:induction false} UngroupedDigits(s: string)
    requires AllDigits(s)
    ensures Ungrouped(s) == s
  {
    if s != [] {
      UngroupedDigits(s[..|s| - 1]);
      assert s[..|s| - 1] + [s[|s| - 1]] == s;
    }
  }

  lemma StripDigits(s: string, tail: string)
    requires AllDigits(s) && s != [] && (tail == "" || tail == "\n")
    ensures Strip(s + tail) == s
  {
    var t := s + tail;
    assert !IsSpace(t[0]) by { assert t[0] == s[0]; }
    assert RStrip(s) == s;
    if tail == "" {
      assert t == s;
    } else {
      assert t[..|t| - 1] == s;
    }
  }

  lemma ReadIntDigits(s: string)
    requires AllDigits(s) && s != []
    ensures ReadInt(s) == Some(Read(s))
  {
    UngroupedDigits(s);
  }

  lemma ShownIsRead(n: nat)
    ensures Strip(Show(n)) == Show(n) && ReadInt(Show(n)) == Some(n)
  {
    StripDigits(Show(n), "");
    assert Show(n) + "" == Show(n);
    ReadIntDigits(Show(n));
    ReadShow(n);
  }

  lemma {:induction false} StripSame(s: string)
    requires s != "" && !IsSpace(s[0]) && !IsSpace(s[|s| - 1])
    ensures Strip(s) == s
  {
  }

  lemma {:induction false} MinusIsRead(s: string, digits: string)
    requires AllDigits(digits) && digits != [] && s == ['-'] + digits
    ensures Strip(s) == s && ReadInt(s) == Some(-(Read(digits) as int))
  {
    assert s[|s| - 1] == digits[|digits| - 1] && IsDigit(s[|s| - 1]);
    StripSame(s);
    MinusRead(s, digits);
  }

  lemma {:induction false} MinusRead(s: string, digits: string)
    requires AllDigits(digits) && digits != [] && s == ['-'] + digits
    ensures ReadInt(s) == Some(-(Read(digits) as int))
  {
    UngroupedDigits(digits);
    assert Grouped(digits) && s[1..] == digits;
    assert !Grouped(s) by { assert s[0] == '-'; }
  }

  /** A number is accepted exactly within the declared bounds; a port's bounds are 1 and 65535 when not declared. */
  lemma NumberAccepted(py: Python, field: Field, n: int)
    requires field.kind in {Some("integer"), Some("port")}
    ensures Accepts(py, field, Number(n)) <==>
              && (field.min.At? ==> field.min.n <= n)
              && (field.max.At? ==> n <= field.max.n)
              && (field.kind == Some("port") && field.min.Unset? ==> 1 <= n)
              && (field.kind == Some("port") && field.max.Unset? ==> n <= 65535)
  {
  }

  /** The text of a number is accepted like the number. */
  lemma {:induction false} NumberTextAccepted(py: Python, field: Field, n: int)
    requires field.kind in {Some("integer"), Some("port")}
    ensures Accepts(py, field, Text(Notation(n))) <==> Accepts(py, field, Number(n))
  {
    NotationIsRead(n);
    SameReading(py, field, Text(Notation(n)), Number(n));
  }

  lemma SameReading(py: Python, field: Field, v: Value, w: Value)
    requires NumberKind(field) && AsInt(v) == AsInt(w)
    requires !Absent(v) && !Placeholder(v) && !Absent(w) && !Placeholder(w)
    ensures Accepts(py, field, v) <==> Accepts(py, field, w)
  {
  }

  function Notation(n: int): string {
    if n < 0 then "-" + Show(-n) else Show(n)
  }

  /** Whole numbers are read from their own notation, with a sign or without. */
  lemma {:induction false} NotationIsRead(n: int)
    ensures AsInt(Text(Notation(n))) == Some(n) && !Absent(Text(Notation(n))) && !Placeholder(Text(Notation(n)))
  {
    if n < 0 {
      MinusShownIsRead(n, Notation(n), Show(-n));
    } else {
      PlainShownIsRead(n, Notation(n));
    }
    StartsPlainly(Notation(n));
  }

  lemma {:induction false} MinusShownIsRead(n: int, s: string, digits: string)
    requires n < 0 && digits == Show(-n) && s == ['-'] + digits
    ensures AsInt(Text(s)) == Some(n) && s != "" && s[0] == '-'
  {
    ReadShow(-n);
    assert AllDigits(digits) && digits != [] && Read(digits) == -n;
    MinusIsRead(s, digits);
    StrippedIsRead(s);
  }

  lemma {:induction false} StrippedIsRead(s: string)
    requires Strip(s) == s
    ensures AsInt(Text(s)) == ReadInt(s)
  {
  }

  lemma {:induction false} PlainShownIsRead(n: nat, s: string)
    requires s == Show(n)
    ensures AsInt(Text(s)) == Some(n) && s != "" && !IsSpace(s[0]) && s[0] != '?'
  {
    ReadShow(n);
    assert s != [] && IsDigit(s[0]) && IsDigit(s[|s| - 1]);
    StripSame(s);
    ReadIntDigits(s);
    StrippedIsRead(s);
  }

  lemma {:induction false} StartsPlainly(s: string)
    requires s != "" && !IsSpace(s[0]) && s[0] != '?'
    ensures !Absent(Text(s)) && !Placeholder(Text(s))
  {
    WordsBlank(s);
  }

  // ----- section_findings() -----

  type Fields = map<string, Field>
  type Config = map<string, Value>

  /** The declared fields by name; the last declaration of a name counts, and one without a name does not. */
  function ByName(fields: seq<(string, Field)>): Fields {
    if fields == [] then map[]
    else
      var (name, field) := fields[|fields| - 1];
      var before := ByName(fields[..|fields| - 1]);
      if name == "" then before else before[name := field]
  }

  function PathOf(section: string, name: string): string {
    if section == "" then name else section + "." + name
  }

  /** The finding about one field of a section, if any. */
  function FindingOf(py: Python, fields: Fields, cfg: Config, section: string, name: string): Option<Finding>
    requires name in fields && name in cfg
  {
    match ValueFinding(py, fields[name], cfg[name])
    case None => None
    case Some((severity, problem)) => Some(Finding(severity, PathOf(section, name), problem))
  }

  predicate Checked(fields: Fields, cfg: Config, skip: set<string>, name: string) {
    name in fields && name in cfg && name !in skip
  }

  method SectionFindings(py: Python, fields: seq<(string, Field)>, cfg: Config, section: string, skip: set<string>)
    returns (out: seq<Finding>)
    ensures forall f :: f in out <==>
              exists name :: Checked(ByName(fields), cfg, skip, name)
                             && FindingOf(py, ByName(fields), cfg, section, name) == Some(f)
    ensures (forall f :: f in out ==> f.severity != Error) <==>
            forall name :: Checked(ByName(fields), cfg, skip, name) ==> Accepts(py, ByName(fields)[name], cfg[name])
  {
    var byName: Fields := map[];
    for i := 0 to |fields|
      invariant byName == ByName(fields[..i])
    {
      assert fields[..i + 1][..i] == fields[..i];
      if fields[i].0 != "" { byName := byName[fields[i].0 := fields[i].1]; }
    }
    assert fields[..|fields|] == fields;
    out := [];
    var left := byName.Keys;
    while left != {}
      invariant left <= byName.Keys
      invariant forall f :: f in out <==>
                  exists name :: name !in left && Checked(byName, cfg, skip, name)
                                 && FindingOf(py, byName, cfg, section, name) == Some(f)
      decreases left
    {
      var name :| name in left;
      ghost var before := out;
      if name in cfg && name !in skip {
        var found := FindingOf(py, byName, cfg, section, name);
        if found.Some? { out := out + [found.value]; }
      }
      left := left - {name};
    }
    ErrorsAreRefusals(py, byName, cfg, section, skip, out);
  }

  lemma ErrorsAreRefusals(py: Python, fields: Fields, cfg: Config, section: string, skip: set<string>,
                          out: seq<Finding>)
    requires forall f :: f in out <==>
               exists name :: Checked(fields, cfg, skip, name) && FindingOf(py, fields, cfg, section, name) == Some(f)
    ensures (forall f :: f in out ==> f.severity != Error) <==>
            forall name :: Checked(fields, cfg, skip, name) ==> Accepts(py, fields[name], cfg[name])
  {
    forall name | Checked(fields, cfg, skip, name) && !Accepts(py, fields[name], cfg[name])
      ensures exists f :: f in out && f.severity == Error
    {
      var f := FindingOf(py, fields, cfg, section, name).value;
      assert f in out;
    }
  }

  /** No error finding, and every required field present. */
  predicate Valid(py: Python, fields: Fields, cfg: Config) {
    && (forall name :: name in fields && name in cfg ==> Accepts(py, fields[name], cfg[name]))
    && (forall name :: name in fields && fields[name].required ==> name in cfg && !Absent(cfg[name]))
  }
}
