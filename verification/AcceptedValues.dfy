/**
 Which values a schema field accepts, said on the texts as they are written: the whole numbers Python's int() reads,
 what counts as no value, and what each kind of field takes.
 */
module AcceptedValues {
  import opened Decimal
  import opened Json
  import opened SchemaValidate
  import opened Text
  import opened Wrappers

  // ----- whole numbers -----

  predicate DigitGroups(groups: seq<string>) {
    groups != [] && forall i :: 0 <= i < |groups| ==> groups[i] != "" && AllDigits(groups[i])
  }

  /** The groups with single underscores between them, and the digits by themselves. */
  function Underscored(groups: seq<string>): string {
    if groups == [] then ""
    else if |groups| == 1 then groups[0]
    else Underscored(groups[..|groups| - 1]) + ("_" + groups[|groups| - 1])
  }

  function Flat(groups: seq<string>): (r: string)
    requires groups == [] || DigitGroups(groups)
    ensures AllDigits(r)
  {
    if groups == [] then ""
    else
      assert groups[|groups| - 1] != "" && AllDigits(groups[|groups| - 1]);
      Flat(groups[..|groups| - 1]) + groups[|groups| - 1]
  }

  lemma {:induction false} DigitsPass(s: string, digits: string)
    requires AllDigits(digits)
    ensures Ungrouped(s + digits) == Ungrouped(s) + digits
    decreases |digits|
  {
    if digits == "" {
      assert s + digits == s && Ungrouped(s) + digits == Ungrouped(s);
    } else {
      var init, last := digits[..|digits| - 1], [digits[|digits| - 1]];
      var t := s + digits;
      assert t[..|t| - 1] == s + init && t[|t| - 1] == last[0];
      DigitsPass(s, init);
      assert digits == init + last;
      assert (Ungrouped(s) + init) + last == Ungrouped(s) + (init + last);
    }
  }

  lemma {:induction false} UnderscorePasses(s: string)
    ensures Ungrouped(s + "_") == Ungrouped(s)
  {
    var t := s + "_";
    assert t[..|t| - 1] == s && t[|t| - 1] == '_';
  }

  /** Groups of digits with underscores between them are grouped digits. */
  lemma {:induction false} GroupsAreGrouped(groups: seq<string>)
    requires DigitGroups(groups)
    ensures Grouped(Underscored(groups)) && Ungrouped(Underscored(groups)) == Flat(groups)
    decreases |groups|
  {
    var init, last := groups[..|groups| - 1], groups[|groups| - 1];
    assert last != "" && AllDigits(last);
    if init == [] {
      assert Flat(init) + last == last;
      UngroupedDigits(last);
    } else {
      assert DigitGroups(init);
      GroupsAreGrouped(init);
      OneGroupMore(Underscored(init), last);
    }
  }

  lemma {:induction false} OneGroupMore(s: string, digits: string)
    requires Grouped(s) && digits != "" && AllDigits(digits)
    ensures Grouped(s + ("_" + digits)) && Ungrouped(s + ("_" + digits)) == Ungrouped(s) + digits
  {
    var t := s + ("_" + digits);
    assert t == (s + "_") + digits;
    UnderscorePasses(s);
    DigitsPass(s + "_", digits);
    forall i | 0 <= i < |t| ensures IsDigit(t[i]) || t[i] == '_' {
      if i < |s| { assert t[i] == s[i]; }
    }
    forall i | 0 <= i < |t| - 1 ensures t[i] != '_' || t[i + 1] != '_' {
      if i < |s| - 1 { assert t[i] == s[i] && t[i + 1] == s[i + 1]; }
    }
    assert t[0] == s[0];
  }

  /** And grouped digits are such groups. */
  lemma {:induction false} GroupedIsGroups(s: string) returns (groups: seq<string>)
    requires Grouped(s)
    ensures DigitGroups(groups) && s == Underscored(groups)
    decreases |s|
  {
    var n := LastGroup(s);
    var last := s[n..];
    if n == 0 {
      groups := [s];
    } else {
      BeforeGroup(s, n);
      var init := GroupedIsGroups(s[..n - 1]);
      groups := init + [last];
      assert groups[..|init|] == init && s == s[..n - 1] + ("_" + last);
    }
  }

  /** Where the last group starts. */
  lemma {:induction false} LastGroup(s: string) returns (n: nat)
    requires s != "" && IsDigit(s[|s| - 1])
    ensures n < |s| && AllDigits(s[n..]) && (n > 0 ==> !IsDigit(s[n - 1]))
  {
    n := |s| - 1;
    while n > 0 && IsDigit(s[n - 1])
      invariant n < |s| && AllDigits(s[n..])
    {
      n := n - 1;
      assert s[n..] == [s[n]] + s[n + 1..];
    }
  }

  lemma {:induction false} BeforeGroup(s: string, n: nat)
    requires Grouped(s) && 0 < n < |s| && !IsDigit(s[n - 1])
    ensures n > 1 && Grouped(s[..n - 1]) && s[n - 1] == '_'
  {
    assert s[n - 1] == '_' && n - 1 != 0;
    assert s[n - 2] != '_';
  }

  /** The value of a literal: a sign or none, and groups of digits. */
  predicate Literal(s: string, sign: string, groups: seq<string>, n: int) {
    && sign in ["", "-", "+"] && DigitGroups(groups) && s == sign + Underscored(groups)
    && n == if sign == "-" then -(Read(Flat(groups)) as int) else Read(Flat(groups)) as int
  }

  /** int() reads such literals, */
  lemma {:induction false} LiteralIsRead(s: string, sign: string, groups: seq<string>, n: int)
    requires Literal(s, sign, groups, n)
    ensures ReadInt(s) == Some(n)
  {
    var digits := Underscored(groups);
    GroupsAreGrouped(groups);
    if sign == "" {
      assert s == digits;
    } else {
      assert s[0] == sign[0] && s[1..] == digits && !IsDigit(s[0]);
    }
  }

  /** and nothing else. */
  lemma {:induction false} ReadIsLiteral(s: string) returns (sign: string, groups: seq<string>)
    requires ReadInt(s).Some?
    ensures Literal(s, sign, groups, ReadInt(s).value)
  {
    if Grouped(s) {
      groups := GroupedIsGroups(s);
      sign := "";
    } else {
      assert s == [s[0]] + s[1..];
      groups := GroupedIsGroups(s[1..]);
      sign := [s[0]];
    }
    GroupsAreGrouped(groups);
  }

  // ----- no value -----

  predicate Blank(s: string) {
    forall i :: 0 <= i < |s| ==> IsSpace(s[i])
  }

  /** strip() takes the blanks off both ends. */
  lemma {:induction false} StripExactly(before: string, body: string, after: string)
    requires Blank(before) && Blank(after) && body != "" && !IsSpace(body[0]) && !IsSpace(body[|body| - 1])
    ensures Strip(before + (body + after)) == body
  {
    LeftOff(before, body + after);
    RightOff(body, after);
  }

  lemma {:induction false} LeftOff(before: string, rest: string)
    requires Blank(before) && rest != "" && !IsSpace(rest[0])
    ensures LStrip(before + rest) == rest
  {
    if before == "" {
      assert before + rest == rest;
    } else {
      assert (before + rest)[1..] == before[1..] + rest;
      LeftOff(before[1..], rest);
    }
  }

  lemma {:induction false} RightOff(body: string, after: string)
    requires Blank(after) && body != "" && !IsSpace(body[|body| - 1])
    ensures RStrip(body + after) == body
    decreases |after|
  {
    if after == "" {
      assert body + after == body;
    } else {
      var t := body + after;
      assert t[..|t| - 1] == body + after[..|after| - 1];
      RightOff(body, after[..|after| - 1]);
    }
  }

  /** Null, a blank text, an empty list and an empty mapping are no values. */
  lemma AbsentMeans(v: Value)
    ensures Absent(v) <==> v == Null || v == Array([]) || v == Object(map[]) || (v.Text? && Blank(v.s))
  {
    if v.Text? { WordsBlank(v.s); }
  }

  /** A placeholder starts with two question marks, after blanks. */
  lemma {:induction false} PlaceholderMeans(before: string, rest: string)
    requires Blank(before) && (rest == "" || !IsSpace(rest[0]))
    ensures Placeholder(Text(before + rest)) <==> |rest| >= 2 && rest[0] == '?' && rest[1] == '?'
  {
    if rest != "" {
      LeftOff(before, rest);
    } else {
      assert before + rest == before;
      WordsBlank(before);
      if LStrip(before) != "" { WordsBlank(LStrip(before)); }
    }
  }

  // ----- what the kinds take -----

  /** str() of texts, booleans and whole numbers. */
  lemma Written(py: Python, s: string, n: int)
    ensures Str(py, Text(s)) == s && Str(py, Bool(true)) == "True" && Str(py, Bool(false)) == "False"
    ensures Str(py, Number(n)) == Notation(n)
  {
  }

  /** A text is a number for a field exactly when it is a literal between blanks. */
  lemma {:induction false} NumberTexts(before: string, s: string, after: string)
    requires Blank(before) && Blank(after) && s != "" && !IsSpace(s[0]) && !IsSpace(s[|s| - 1])
    ensures AsInt(Text(before + (s + after))) == ReadInt(s)
  {
    StripExactly(before, s, after);
  }

  // ----- what is found -----

  predicate Given(v: Value) {
    !Absent(v) && !Placeholder(v)
  }

  /** The finding about a number: none, or why it is refused. */
  lemma NumberFindings(py: Python, field: Field, v: Value, low: Option<int>, high: Option<int>)
    requires field.kind in {Some("integer"), Some("port")} && Given(v)
    requires low == BoundOr(field.min, if field.kind == Some("port") then Some(1) else None)
    requires high == BoundOr(field.max, if field.kind == Some("port") then Some(65535) else None)
    ensures ValueFinding(py, field, v) ==
            if AsInt(v) == None then Some((Error, NotANumber))
            else if low.Some? && AsInt(v).value < low.value then Some((Error, Below(low.value)))
            else if high.Some? && AsInt(v).value > high.value then Some((Error, Above(high.value)))
            else None
  {
  }

  function BoundOr(bound: Bound, default: Option<int>): Option<int> {
    if bound.At? then Some(bound.n) else if bound.Unset? then default else None
  }

  /** A boolean is taken as it is; one of six words, in any case, with a warning; anything else is an error. */
  lemma BooleanFindings(py: Python, field: Field, v: Value)
    requires field.kind == Some("boolean") && Given(v)
    ensures var word := Lower(Strip(Str(py, v)));
            ValueFinding(py, field, v) ==
            if v.Bool? then None
            else if word in {"1", "true", "yes", "0", "false", "no"} then Some((Warning, QuotedBoolean))
            else Some((Error, NotABoolean))
  {
  }

  /** Lists and mappings are only checked to be such. */
  lemma ContainerFindings(py: Python, field: Field, v: Value)
    requires Given(v)
    ensures field.kind == Some("array") ==>
              ValueFinding(py, field, v) == if v.Array? then None else Some((Error, NotAList))
    ensures field.kind == Some("object") ==>
              ValueFinding(py, field, v) == if v.Object? then None else Some((Error, NotAMapping))
  {
  }

  /** A value of any other kind must be one of the declared ones, or written like one, and then fit the form. */
  lemma TextFindings(py: Python, field: Field, v: Value)
    requires Given(v)
    requires field.kind !in {Some("integer"), Some("port"), Some("boolean"), Some("array"), Some("object")}
    ensures ValueFinding(py, field, v) ==
            if field.enum != [] && !(exists e :: e in field.enum && Matches(py, e, v)) then Some((Error, NotListed))
            else if field.pattern.Some? && field.pattern.value != "" && !py.matches(field.pattern.value, Str(py, v))
            then Some((Error, NotTheForm))
            else None
  {
    forall e | e in field.enum && Matches(py, e, v) ensures Listed(py, field.enum, v) {
      var i :| 0 <= i < |field.enum| && field.enum[i] == e;
      assert Equal(v, EnumValue(field.enum[i])) || Str(py, v) == Str(py, EnumValue(field.enum[i]));
    }
    if Listed(py, field.enum, v) {
      var i :| 0 <= i < |field.enum|
               && (Equal(v, EnumValue(field.enum[i])) || Str(py, v) == Str(py, EnumValue(field.enum[i])));
      assert Matches(py, field.enum[i], v);
    }
  }

  /** An entry of an enum is a value, or a mapping that has it under the key value, or Null. */
  predicate Matches(py: Python, entry: Value, v: Value) {
    var declared := match entry
                    case Object(entries) => if "value" in entries then entries["value"] else Null
                    case _ => entry;
    Equal(v, declared) || Str(py, v) == Str(py, declared)
  }

  /** A finding names its section and its field. */
  lemma PathSays(section: string, name: string)
    ensures PathOf("", name) == name
    ensures section != "" ==> PathOf(section, name) == section + ("." + name)
  {
  }
}
