/**
 Zone-file lines: the normal form two masters are compared by, and the regular expression that removes one record.

 The expression is read as a POSIX extended regular expression (IEEE Std 1003.1, XBD section 9.4): Parse gives the
 fragment its meaning, Matches is language membership, and neither knows how Pattern builds its text.
 */
module DnsZone {
  import opened Text
  import opened Wrappers

  // ----- the normal form of a line, and the records of a zone -----

  /** line.split(";")[0] */
  function BeforeComment(line: string): string {
    if line == [] || line[0] == ';' then [] else [line[0]] + BeforeComment(line[1..])
  }

  predicate Digits(s: string) {
    |s| > 0 && forall i :: 0 <= i < |s| ==> '0' <= s[i] <= '9'
  }

  const HEADER_WORDS: set<string> := {"IN", "SOA", "NS", "MX", "ns"}

  /** Lines without a record two masters must agree on: blank, directives, header lines, SOA continuations. */
  predicate Skipped(fields: seq<string>) {
    || fields == []
    || (fields[0] != [] && fields[0][0] in {'$', '@', ')'})
    || fields[0] in HEADER_WORDS
    || (Digits(fields[0]) && |fields| < 3)
  }

  /** The record a line carries, in normal form. */
  function RecordOf(line: string): Option<string> {
    var fields := Words(BeforeComment(line));
    if Skipped(fields) then None else Some(Join(fields))
  }

  /** Every record of a zone file. */
  function RecordSet(lines: seq<string>): set<string> {
    set i | 0 <= i < |lines| && RecordOf(lines[i]).Some? :: RecordOf(lines[i]).value
  }

  /** records(text): the loop over the lines of a zone file. */
  method Records(lines: seq<string>) returns (out: set<string>)
    ensures out == RecordSet(lines)
  {
    out := {};
    for i := 0 to |lines|
      invariant out == RecordSet(lines[..i])
    {
      assert lines[..i + 1] == lines[..i] + [lines[i]];
      RecordSetAppend(lines[..i], lines[i]);
      var fields := Words(BeforeComment(lines[i]));
      if Skipped(fields) { continue; }
      out := out + {Join(fields)};
    }
    assert lines[..|lines|] == lines;
  }

  lemma RecordSetAppend(lines: seq<string>, line: string)
    ensures RecordSet(lines + [line]) ==
            RecordSet(lines) + (if RecordOf(line).Some? then {RecordOf(line).value} else {})
  {
    var more := lines + [line];
    forall r | r in RecordSet(lines)
      ensures r in RecordSet(more)
    {
      var i :| 0 <= i < |lines| && RecordOf(lines[i]) == Some(r);
      assert more[i] == lines[i];
    }
    assert more[|lines|] == line;
  }

  // ----- which lines carry a record -----

  /** The first field names something in the zone, and it is not a bare number of an SOA. */
  predicate Carries(first: string, count: nat) {
    && first != "" && first[0] != '$' && first[0] != '@' && first[0] != ')'
    && first != "IN" && first != "SOA" && first != "NS" && first != "MX" && first != "ns"
    && ((exists i :: 0 <= i < |first| && !('0' <= first[i] <= '9')) || count >= 3)
  }

  /** A line carries a record exactly when its fields before the comment do, and the record is these fields. */
  lemma {:induction false} RecordExactly(body: string, comment: string)
    requires ';' !in body && (comment == "" || comment[0] == ';')
    ensures var fields := Words(body);
            RecordOf(body + comment) ==
            if fields != [] && Carries(fields[0], |fields|) then Some(Join(fields)) else None
  {
    CommentCut(body, comment);
  }

  lemma {:induction false} CommentCut(body: string, comment: string)
    requires ';' !in body && (comment == "" || comment[0] == ';')
    ensures BeforeComment(body + comment) == body
  {
    if body == "" {
      assert body + comment == comment;
    } else {
      assert (body + comment)[1..] == body[1..] + comment;
      CommentCut(body[1..], comment);
    }
  }

  /** A pointer record is one, though its first field is a number; a number alone or with one more field is none. */
  lemma {:induction false} NumbersFirst(octet: string, name: string)
    requires IsWord(octet) && (forall i :: 0 <= i < |octet| ==> '0' <= octet[i] <= '9')
    requires IsWord(name) && ';' !in name
    ensures RecordOf(Join([octet, "IN", "PTR", name])) == Some(Join([octet, "IN", "PTR", name]))
    ensures RecordOf(Join([octet, name])) == None && RecordOf(octet) == None
  {
    WordsAreRecord([octet, "IN", "PTR", name]);
    WordsAreRecord([octet, name]);
    WordsAreRecord([octet]);
  }

  lemma {:induction false} WordsAreRecord(fields: seq<string>)
    requires AllWords(fields) && fields != [] && forall f :: f in fields ==> ';' !in f
    ensures RecordOf(Join(fields)) == if Carries(fields[0], |fields|) then Some(Join(fields)) else None
  {
    WordsOfJoin(fields);
    NoSemicolon(fields);
    RecordExactly(Join(fields), "");
    assert Join(fields) + "" == Join(fields);
  }

  lemma {:induction false} NoSemicolon(fields: seq<string>)
    requires forall f :: f in fields ==> ';' !in f
    ensures ';' !in Join(fields)
  {
    if |fields| > 1 { NoSemicolon(fields[1..]); }
  }

  // ----- pattern(record) -----

  /** s.replace(c, t) for a one-character c */
  function Replace(s: string, c: char, t: string): string {
    if s == [] then [] else (if s[0] == c then t else [s[0]]) + Replace(s[1..], c, t)
  }

  const SPACE := "[[:space:]]"
  const LEAD := "^[[:space:]]*"
  const SEPARATOR := "[[:space:]]+"
  const END := "[[:space:]]*$"

  function Escape(field: string): string {
    Replace(Replace(field, '\\', "\\\\"), '.', "\\.")
  }

  /** sep.join(fields), each field escaped */
  function JoinEscaped(fields: seq<string>, sep: string): string {
    if fields == [] then []
    else if |fields| == 1 then Escape(fields[0])
    else Escape(fields[0]) + sep + JoinEscaped(fields[1..], sep)
  }

  function Pattern(record: string): string {
    LEAD + JoinEscaped(Words(record), SEPARATOR) + END
  }

  // ----- extended regular expressions -----

  datatype Atom = Lit(c: char) | Space | Any
  datatype Piece = One(a: Atom) | Star(a: Atom) | Plus(a: Atom)

  const SPECIAL := {'^', '.', '[', '$', '(', ')', '|', '*', '+', '?', '{', '\\'}

  predicate Consumes(a: Atom, c: char) {
    match a
    case Lit(d) => c == d
    case Space => IsSpace(c)
    case Any => true
  }

  /** One atom at the head of an expression, and its length; None where this fragment gives it no meaning. */
  function ParseAtom(s: string): Option<(Atom, nat)>
    ensures ParseAtom(s).Some? ==> 0 < ParseAtom(s).value.1 <= |s|
  {
    if SPACE <= s then Some((Space, 11))
    else if s == [] then None
    else if s[0] == '.' then Some((Any, 1))
    else if s[0] == '\\' then (if |s| >= 2 && s[1] in SPECIAL then Some((Lit(s[1]), 2)) else None)
    else if s[0] in SPECIAL then None
    else Some((Lit(s[0]), 1))
  }

  predicate StartsRepeated(s: string) {
    s != [] && s[0] in {'*', '+', '?', '{'}
  }

  /** The pieces up to a closing "$". Two repetition operators in a row have no defined meaning. */
  function ParsePieces(s: string): Option<seq<Piece>>
    decreases |s|
  {
    if s == "$" then Some([])
    else match ParseAtom(s)
      case None => None
      case Some((a, n)) =>
        var rest := s[n..];
        if rest != [] && rest[0] in {'*', '+'} then
          if StartsRepeated(rest[1..]) then None
          else match ParsePieces(rest[1..])
            case None => None
            case Some(ps) => Some([if rest[0] == '*' then Star(a) else Plus(a)] + ps)
        else if StartsRepeated(rest) then None
        else match ParsePieces(rest)
          case None => None
          case Some(ps) => Some([One(a)] + ps)
  }

  function Parse(ere: string): Option<seq<Piece>> {
    if ere != [] && ere[0] == '^' then ParsePieces(ere[1..]) else None
  }

  /** The whole line is in the language of the pieces. */
  predicate Accepts(ps: seq<Piece>, line: string)
    decreases |line|, |ps|
  {
    if ps == [] then line == []
    else
      var taken := line != [] && Consumes(ps[0].a, line[0]);
      match ps[0]
      case One(_) => taken && Accepts(ps[1..], line[1..])
      case Star(_) => Accepts(ps[1..], line) || (taken && Accepts(ps, line[1..]))
      case Plus(a) => taken && Accepts([Star(a)] + ps[1..], line[1..])
  }

  predicate Matches(ere: string, line: string) {
    Parse(ere).Some? && Accepts(Parse(ere).value, line)
  }

  /** The expressions by themselves: a dot is any character, an escaped one a dot; both anchors are needed. */
  lemma {:induction false} DotMeans(line: string)
    ensures Matches("^.$", line) <==> |line| == 1
    ensures Matches("^\\.$", line) <==> line == "."
    ensures !Matches(".$", line) && !Matches("^.", line) && !Matches("^\\q$", line)
  {
    OneAtom("^.$", Any, 1, line);
    OneAtom("^\\.$", Lit('.'), 2, line);
    assert ParseAtom("\\q$") == None && "^\\q$"[1..] == "\\q$";
    assert "^."[1..] == "." && "."[1..] == "" && ParsePieces("") == None;
    assert ParseAtom(".") == Some((Any, 1)) && ParsePieces(".") == None;
  }

  lemma {:induction false} OneAtom(ere: string, a: Atom, n: nat, line: string)
    requires |ere| == n + 2 && n > 0 && ere[0] == '^' && ere[n + 1] == '$' && ParseAtom(ere[1..]) == Some((a, n))
    ensures Matches(ere, line) <==> |line| == 1 && Consumes(a, line[0])
  {
    assert ere[1..][n..] == "$" && ere[1..] != "$";
    assert ParsePieces("$") == Some([]);
    assert ParsePieces(ere[1..]) == Some([One(a)] + []);
    var ps := [One(a)];
    assert ps[1..] == [] && [One(a)] + [] == ps && Parse(ere) == Some(ps);
    if line != [] { assert Accepts(ps[1..], line[1..]) <==> line[1..] == []; }
  }

  // ----- what the pattern parses to -----

  /** A field whose only special characters are dots and backslashes. */
  predicate Plain(field: string) {
    IsWord(field) && forall i :: 0 <= i < |field| ==> field[i] in SPECIAL ==> field[i] in {'.', '\\'}
  }

  predicate AllPlain(fields: seq<string>) {
    forall i :: 0 <= i < |fields| ==> Plain(fields[i])
  }

  function Lits(field: string): seq<Piece> {
    seq(|field|, i requires 0 <= i < |field| => One(Lit(field[i])))
  }

  /** The pieces after the first field. */
  function Tail(fields: seq<string>): seq<Piece> {
    if fields == [] then [Star(Space)] else [Plus(Space)] + Lits(fields[0]) + Tail(fields[1..])
  }

  function TailText(fields: seq<string>, sep: string, end: string): string {
    if fields == [] then end else sep + (Escape(fields[0]) + TailText(fields[1..], sep, end))
  }

  function EscapeChar(c: char): string {
    if c in {'.', '\\'} then ['\\', c] else [c]
  }

  lemma ReplaceCons(x: char, s: string, c: char, t: string)
    ensures Replace([x] + s, c, t) == (if x == c then t else [x]) + Replace(s, c, t)
  {
    assert ([x] + s)[1..] == s;
  }

  lemma EscapeStep(field: string)
    requires field != []
    ensures Escape(field) == EscapeChar(field[0]) + Escape(field[1..])
  {
    var rest := Replace(field[1..], '\\', "\\\\");
    if field[0] == '\\' {
      assert Replace(field, '\\', "\\\\") == ['\\'] + (['\\'] + rest);
      ReplaceCons('\\', ['\\'] + rest, '.', "\\.");
      ReplaceCons('\\', rest, '.', "\\.");
    } else {
      ReplaceCons(field[0], rest, '.', "\\.");
    }
  }

  lemma ParseOne(c: char, rest: string)
    requires c in SPECIAL ==> c in {'.', '\\'}
    requires rest != [] && !StartsRepeated(rest)
    ensures ParsePieces(rest).Some? ==>
              ParsePieces(EscapeChar(c) + rest) == Some([One(Lit(c))] + ParsePieces(rest).value)
  {
    var s := EscapeChar(c) + rest;
    assert s[|EscapeChar(c)|..] == rest;
    assert s[0] != '[' && s != "$";
    assert !(SPACE <= s);
  }

  lemma NotRepeated(field: string, tail: string)
    requires forall i :: 0 <= i < |field| ==> field[i] in SPECIAL ==> field[i] in {'.', '\\'}
    requires tail != [] && tail[0] == '['
    ensures Escape(field) + tail != [] && !StartsRepeated(Escape(field) + tail)
  {
    if field != [] {
      EscapeStep(field);
      assert (Escape(field) + tail)[0] == EscapeChar(field[0])[0];
    }
  }

  lemma Associate<T>(a: seq<T>, b: seq<T>, c: seq<T>)
    ensures a + b + c == a + (b + c)
  {
  }

  lemma {:induction false} ParseEscaped(field: string, tail: string)
    requires forall i :: 0 <= i < |field| ==> field[i] in SPECIAL ==> field[i] in {'.', '\\'}
    requires tail != [] && tail[0] == '['
    ensures ParsePieces(tail).Some? ==> ParsePieces(Escape(field) + tail) == Some(Lits(field) + ParsePieces(tail).value)
  {
    if field == [] {
      assert Escape(field) + tail == tail;
      assert ParsePieces(tail).Some? ==> Lits(field) + ParsePieces(tail).value == ParsePieces(tail).value;
    } else {
      var rest := Escape(field[1..]) + tail;
      EscapeStep(field);
      Associate(EscapeChar(field[0]), Escape(field[1..]), tail);
      ParseEscaped(field[1..], tail);
      NotRepeated(field[1..], tail);
      ParseOne(field[0], rest);
      if ParsePieces(tail).Some? {
        assert Lits(field) == [One(Lit(field[0]))] + Lits(field[1..]);
        Associate([One(Lit(field[0]))], Lits(field[1..]), ParsePieces(tail).value);
      }
    }
  }

  lemma ParseSpace(op: char, tail: string)
    requires op in {'*', '+'} && !StartsRepeated(tail)
    ensures ParsePieces(tail).Some? ==> ParsePieces(SPACE + ([op] + tail)) ==
                                        Some([if op == '*' then Star(Space) else Plus(Space)] + ParsePieces(tail).value)
  {
    var s := SPACE + ([op] + tail);
    assert SPACE <= s;
    assert s[11..] == [op] + tail && s[11..][1..] == tail;
  }

  lemma EscapeHead(field: string)
    requires Plain(field)
    ensures Escape(field) != [] && !StartsRepeated(Escape(field))
  {
    EscapeStep(field);
  }

  lemma {:induction false} ParseTail(fields: seq<string>)
    requires AllPlain(fields)
    ensures TailText(fields, SEPARATOR, END) != [] && TailText(fields, SEPARATOR, END)[0] == '['
    ensures ParsePieces(TailText(fields, SEPARATOR, END)) == Some(Tail(fields))
  {
    if fields == [] {
      ParseSpace('*', "$");
      assert END == SPACE + (['*'] + "$");
      assert [Star(Space)] + [] == [Star(Space)];
    } else {
      var after := TailText(fields[1..], SEPARATOR, END);
      ParseTail(fields[1..]);
      ParseEscaped(fields[0], after);
      EscapeHead(fields[0]);
      ParseSpace('+', Escape(fields[0]) + after);
      SeparatorSplit(Escape(fields[0]) + after);
      assert Tail(fields) == [Plus(Space)] + (Lits(fields[0]) + Tail(fields[1..]));
    }
  }

  lemma SeparatorSplit(s: string)
    ensures SEPARATOR + s == SPACE + (['+'] + s)
  {
  }

  lemma {:induction false} JoinedTail(fields: seq<string>, sep: string, end: string)
    requires fields != []
    ensures JoinEscaped(fields, sep) + end == Escape(fields[0]) + TailText(fields[1..], sep, end)
  {
    if |fields| > 1 {
      JoinedTail(fields[1..], sep, end);
      var e, j := Escape(fields[0]), JoinEscaped(fields[1..], sep);
      Associate(e + sep, j, end);
      Associate(e, sep, j + end);
    }
  }

  lemma PatternText(body: string)
    ensures LEAD + body + END == ['^'] + (SPACE + (['*'] + (body + END)))
  {
  }

  /** The pattern of a record with plain fields is a well-formed expression, and this is its structure. */
  lemma ParsePattern(record: string)
    requires Words(record) != [] && AllPlain(Words(record))
    ensures Parse(Pattern(record)) == Some([Star(Space)] + (Lits(Words(record)[0]) + Tail(Words(record)[1..])))
  {
    var fs := Words(record);
    var body := Escape(fs[0]) + TailText(fs[1..], SEPARATOR, END);
    JoinedTail(fs, SEPARATOR, END);
    PatternText(JoinEscaped(fs, SEPARATOR));
    assert Pattern(record)[1..] == SPACE + (['*'] + body);
    ParseTail(fs[1..]);
    ParseEscaped(fs[0], TailText(fs[1..], SEPARATOR, END));
    EscapeHead(fs[0]);
    ParseSpace('*', body);
  }

  // ----- what the pieces accept -----

  lemma {:induction false} AcceptsLits(field: string, ps: seq<Piece>, line: string)
    ensures Accepts(Lits(field) + ps, line) <==> field <= line && Accepts(ps, line[|field|..])
  {
    if field == [] {
      assert Lits(field) + ps == ps;
    } else {
      assert (Lits(field) + ps)[1..] == Lits(field[1..]) + ps;
      if line != [] && line[0] == field[0] {
        AcceptsLits(field[1..], ps, line[1..]);
        assert field <= line <==> field[1..] <= line[1..];
        if field <= line { assert line[1..][|field| - 1..] == line[|field|..]; }
      }
    }
  }

  /** A leading run of optional whitespace is skipped whole when nothing after it can start with whitespace. */
  lemma {:induction false} AcceptsStar(ps: seq<Piece>, line: string)
    requires ps == [] || (ps[0].One? && ps[0].a.Lit? && !IsSpace(ps[0].a.c))
    ensures Accepts([Star(Space)] + ps, line) <==> Accepts(ps, LStrip(line))
  {
    var all := [Star(Space)] + ps;
    assert all[1..] == ps;
    if line != [] && IsSpace(line[0]) { AcceptsStar(ps, line[1..]); }
  }

  lemma {:induction false} AcceptsTail(fields: seq<string>, line: string)
    requires AllPlain(fields)
    ensures Accepts(Tail(fields), line) <==> (line == [] || IsSpace(line[0])) && Words(line) == fields
    decreases |line|, 0
  {
    if fields == [] {
      assert Tail(fields) == [Star(Space)] + [];
      AcceptsStar([], line);
      assert Words(LStrip(line)) == Words(line);
    } else {
      var ps := Lits(fields[0]) + Tail(fields[1..]);
      assert Tail(fields) == [Plus(Space)] + ps;
      assert ps[0] == One(Lit(fields[0][0]));
      if line != [] && IsSpace(line[0]) {
        assert Tail(fields)[1..] == ps;
        AcceptsStar(ps, line[1..]);
        AcceptsFields(fields, LStrip(line[1..]));
      }
    }
  }

  lemma {:induction false} AcceptsFields(fields: seq<string>, line: string)
    requires fields != [] && AllPlain(fields)
    requires line == [] || !IsSpace(line[0])
    ensures Accepts(Lits(fields[0]) + Tail(fields[1..]), line) <==> Words(line) == fields
    decreases |line|, 1
  {
    var f := fields[0];
    AcceptsLits(f, Tail(fields[1..]), line);
    if f <= line {
      AcceptsTail(fields[1..], line[|f|..]);
      FirstField(f, fields[1..], line);
    } else if line != [] {
      assert Words(line)[0] == line[..WordLen(line)];
    }
    assert fields == [f] + fields[1..];
  }

  /** The line's fields are the first one, a blank or the end, and the others. */
  lemma {:induction false} FirstField(f: string, others: seq<string>, line: string)
    requires IsWord(f) && f <= line
    ensures var rest := line[|f|..];
            Words(line) == [f] + others <==> (rest == [] || IsSpace(rest[0])) && Words(rest) == others
  {
    var rest := line[|f|..];
    assert line == f + rest && line[0] == f[0];
    if rest == [] || IsSpace(rest[0]) {
      FirstWord(f, rest);
      assert (Words(line) == [f] + others) ==> Words(line)[1..] == others;
    } else {
      assert line[|f|] == rest[0] && WordLen(line) != |f|;
      assert |Words(line)[0]| != |f|;
    }
  }

  /**
   The pattern of a record matches exactly the lines whose whitespace-collapsed form is that record: nothing is
   matched by prefix or suffix, and a dot only by a dot.
   */
  lemma PatternMatchesNormalForm(record: string, line: string)
    requires Words(record) != [] && AllPlain(Words(record))
    ensures Matches(Pattern(record), line) <==> Join(Words(line)) == Join(Words(record))
  {
    var fs := Words(record);
    ParsePattern(record);
    var ps := Lits(fs[0]) + Tail(fs[1..]);
    assert ps[0] == One(Lit(fs[0][0]));
    AcceptsStar(ps, line);
    AcceptsFields(fs, LStrip(line));
    WordsOfJoin(Words(line));
    WordsOfJoin(fs);
  }

  // ----- records with other special characters -----

  /** In this text every dot and backslash is escaped, and nothing else is. */
  predicate Escaped(s: string) {
    s == [] ||
    if s[0] == '\\' then |s| >= 2 && s[1] in {'.', '\\'} && Escaped(s[2..]) else s[0] != '.' && Escaped(s[1..])
  }

  lemma {:induction false} EscapedTogether(a: string, b: string)
    requires Escaped(a) && Escaped(b)
    ensures Escaped(a + b)
  {
    if a == [] {
      assert a + b == b;
    } else {
      var n := if a[0] == '\\' then 2 else 1;
      EscapedTogether(a[n..], b);
      assert (a + b)[n..] == a[n..] + b;
    }
  }

  lemma {:induction false} EscapeIsEscaped(field: string)
    ensures Escaped(Escape(field))
  {
    if field != [] {
      EscapeIsEscaped(field[1..]);
      EscapeStep(field);
      var head := EscapeChar(field[0]);
      assert |head| == 2 ==> head[2..] == [];
      assert |head| == 1 ==> head[1..] == [];
      EscapedTogether(head, Escape(field[1..]));
    }
  }

  lemma {:induction false} NoDotIsEscaped(s: string)
    requires '.' !in s && '\\' !in s
    ensures Escaped(s)
  {
    if s != [] { NoDotIsEscaped(s[1..]); }
  }

  lemma {:induction false} JoinIsEscaped(fields: seq<string>)
    ensures Escaped(JoinEscaped(fields, SEPARATOR))
  {
    if fields != [] {
      EscapeIsEscaped(fields[0]);
      NoDotIsEscaped(SEPARATOR);
      EscapedTogether(Escape(fields[0]), SEPARATOR);
      JoinIsEscaped(fields[1..]);
      EscapedTogether(Escape(fields[0]) + SEPARATOR, JoinEscaped(fields[1..], SEPARATOR));
    }
  }

  predicate NoneTakes(ps: seq<Piece>, c: char) {
    forall i :: 0 <= i < |ps| ==> !Consumes(ps[i].a, c)
  }

  /** A special character that Pattern does not escape. */
  predicate Unescaped(c: char) {
    c in SPECIAL && c !in {'.', '\\'}
  }

  lemma {:induction false} EscapedRest(s: string, n: nat)
    requires Escaped(s) && n <= |s| && forall i :: 0 <= i < n ==> s[i] != '\\'
    ensures Escaped(s[n..])
  {
    if n > 0 {
      EscapedRest(s[1..], n - 1);
      assert s[1..][n - 1..] == s[n..];
    }
  }

  lemma AtomTakesNone(s: string, c: char)
    requires Escaped(s) && Unescaped(c) && ParseAtom(s).Some?
    ensures !Consumes(ParseAtom(s).value.0, c) && Escaped(s[ParseAtom(s).value.1..])
  {
    if SPACE <= s {
      forall i | 0 <= i < 11 ensures s[i] != '\\' { assert s[i] == SPACE[i]; }
      EscapedRest(s, 11);
    }
  }

  /** Where only dots and backslashes are escaped, no piece takes another special character. */
  lemma {:induction false} PiecesTakeNone(s: string, c: char)
    requires Escaped(s) && Unescaped(c) && ParsePieces(s).Some?
    ensures NoneTakes(ParsePieces(s).value, c)
    decreases |s|
  {
    if s != "$" {
      AtomTakesNone(s, c);
      var rest := s[ParseAtom(s).value.1..];
      PiecesTakeNone(if rest != [] && rest[0] in {'*', '+'} then rest[1..] else rest, c);
    }
  }

  lemma {:induction false} AcceptsTaken(ps: seq<Piece>, line: string, c: char)
    requires NoneTakes(ps, c) && Accepts(ps, line)
    ensures c !in line
    decreases |line|, |ps|
  {
    if ps != [] {
      var taken := line != [] && Consumes(ps[0].a, line[0]);
      match ps[0] {
        case One(_) => AcceptsTaken(ps[1..], line[1..], c);
        case Star(_) =>
          if Accepts(ps[1..], line) { AcceptsTaken(ps[1..], line, c); } else { AcceptsTaken(ps, line[1..], c); }
        case Plus(a) => AcceptsTaken([Star(a)] + ps[1..], line[1..], c);
      }
    }
  }

  lemma EndsAreEscaped()
    ensures Escaped(SPACE + ['*']) && Escaped(END)
  {
    NoDotIsEscaped(END);
    NoDotIsEscaped(SPACE + ['*']);
  }

  lemma PatternIsEscaped(record: string)
    ensures Pattern(record)[0] == '^' && Escaped(Pattern(record)[1..])
  {
    var body := JoinEscaped(Words(record), SEPARATOR);
    PatternText(body);
    Associate(SPACE, ['*'], body + END);
    assert Pattern(record)[1..] == (SPACE + ['*']) + (body + END);
    EndsAreEscaped();
    JoinIsEscaped(Words(record));
    EscapedTogether(body, END);
    EscapedTogether(SPACE + ['*'], body + END);
  }

  /** No line with such a character is matched by a pattern. */
  lemma UnescapedNeverMatches(record: string, line: string, c: char)
    requires Unescaped(c) && c in line
    ensures !Matches(Pattern(record), line)
  {
    PatternIsEscaped(record);
    if Parse(Pattern(record)).Some? {
      PiecesTakeNone(Pattern(record)[1..], c);
      if Accepts(Parse(Pattern(record)).value, line) { AcceptsTaken(Parse(Pattern(record)).value, line, c); }
    }
  }

  /** A record that is not plain has a special character, and so has every line of its words. */
  lemma UnplainHasOne(record: string, line: string) returns (c: char)
    requires !AllPlain(Words(record)) && Words(line) == Words(record)
    ensures Unescaped(c) && c in line
  {
    var fields := Words(record);
    var i :| 0 <= i < |fields| && !Plain(fields[i]);
    var k :| 0 <= k < |fields[i]| && fields[i][k] in SPECIAL && fields[i][k] !in {'.', '\\'};
    c := fields[i][k];
    assert c in Words(line)[i];
    CharsOfWords(line, c);
  }

  /**
   The pattern of a record matches the lines in its normal form, and no others, if and only if its fields are plain.
   */
  lemma PatternMeansRecordIff(record: string)
    requires Words(record) != []
    ensures (forall line :: Matches(Pattern(record), line) <==> Join(Words(line)) == Join(Words(record))) <==>
            AllPlain(Words(record))
  {
    if AllPlain(Words(record)) {
      forall line
        ensures Matches(Pattern(record), line) <==> Join(Words(line)) == Join(Words(record))
      {
        PatternMatchesNormalForm(record, line);
      }
    } else {
      var c := UnplainHasOne(record, record);
      UnescapedNeverMatches(record, record, c);
    }
  }

  // ----- deleting a record -----

  /** sed -E "\|pattern|d", and the list comprehension that does the same locally. */
  function Delete(lines: seq<string>, record: string): seq<string> {
    if lines == [] then []
    else (if Matches(Pattern(record), lines[0]) then [] else [lines[0]]) + Delete(lines[1..], record)
  }

  /** The lines whose normal form is not the record, in order. */
  function Without(lines: seq<string>, record: string): seq<string> {
    if lines == [] then []
    else (if Join(Words(lines[0])) == record then [] else [lines[0]]) + Without(lines[1..], record)
  }

  /** Only the lines in the record's own normal form go; every other line stays, in order. */
  lemma {:induction false} DeleteKeepsOthers(lines: seq<string>, record: string)
    requires Words(record) != [] && AllPlain(Words(record)) && Join(Words(record)) == record
    ensures Delete(lines, record) == Without(lines, record)
  {
    if lines != [] {
      PatternMatchesNormalForm(record, lines[0]);
      DeleteKeepsOthers(lines[1..], record);
    }
  }

  /** A character that is not whitespace is in a text when it is in one of its words. */
  lemma {:induction false} CharsOfWords(s: string, c: char)
    requires !IsSpace(c)
    ensures c in s <==> exists i :: 0 <= i < |Words(s)| && c in Words(s)[i]
    decreases |s|
  {
    if s != [] {
      if IsSpace(s[0]) {
        CharsOfWords(s[1..], c);
        assert s == [s[0]] + s[1..];
        assert c in s <==> c in s[1..];
        assert Words(s) == Words(s[1..]);
      } else {
        var n := WordLen(s);
        CharsOfWords(s[n..], c);
        assert s == s[..n] + s[n..];
        assert Words(s)[0] == s[..n];
        if i :| 0 <= i < |Words(s[n..])| && c in Words(s[n..])[i] {
          assert Words(s)[i + 1] == Words(s[n..])[i];
        }
        if i :| 0 < i < |Words(s)| && c in Words(s)[i] {
          assert Words(s)[i] == Words(s[n..])[i - 1];
        }
      }
    }
  }

  lemma {:induction false} BeforeCommentIsAll(line: string)
    ensures ';' !in BeforeComment(line)
    ensures ';' !in line ==> BeforeComment(line) == line
  {
    if line != [] {
      BeforeCommentIsAll(line[1..]);
      assert line == [line[0]] + line[1..];
    }
  }

  lemma NoComment(line: string, source: string)
    requires Words(line) == Words(BeforeComment(source))
    ensures ';' !in line
  {
    BeforeCommentIsAll(source);
    CharsOfWords(BeforeComment(source), ';');
    CharsOfWords(line, ';');
  }

  /** A line in the normal form of a record of the zone carries that record and no comment. */
  lemma MatchedLine(line: string, source: string, record: string)
    requires RecordOf(source) == Some(record)
    ensures Words(record) != [] && Join(Words(record)) == record
    ensures Join(Words(line)) == record <==> RecordOf(line) == Some(record) && ';' !in line
  {
    WordsOfJoin(Words(BeforeComment(source)));
    WordsOfJoin(Words(line));
    BeforeCommentIsAll(line);
    if Join(Words(line)) == record { NoComment(line, source); }
  }

  lemma {:induction false} WithoutMember(lines: seq<string>, record: string, line: string)
    ensures line in Without(lines, record) <==> line in lines && Join(Words(line)) != record
  {
    if lines != [] {
      WithoutMember(lines[1..], record, line);
      assert lines == [lines[0]] + lines[1..];
    }
  }

  /** A line that is not matched stays. */
  lemma {:induction false} UnmatchedStays(lines: seq<string>, record: string, line: string)
    requires line in lines && !Matches(Pattern(record), line)
    ensures line in Delete(lines, record)
  {
    if line != lines[0] {
      assert line in lines[1..];
      UnmatchedStays(lines[1..], record, line);
    }
  }

  lemma {:induction false} BeforeCommentIn(line: string)
    ensures forall c :: c in BeforeComment(line) ==> c in line
  {
    if line != [] { BeforeCommentIn(line[1..]); }
  }

  /** A record that is not plain stays in the zone: its own line is not matched. */
  lemma UnplainStays(lines: seq<string>, record: string)
    requires record in RecordSet(lines) && !AllPlain(Words(record))
    ensures record in RecordSet(Delete(lines, record))
  {
    var i :| 0 <= i < |lines| && RecordOf(lines[i]) == Some(record);
    WordsOfJoin(Words(BeforeComment(lines[i])));
    var c := UnplainHasOne(record, BeforeComment(lines[i]));
    BeforeCommentIn(lines[i]);
    UnescapedNeverMatches(record, lines[i], c);
    UnmatchedStays(lines, record, lines[i]);
    RecordIn(Delete(lines, record), record);
  }

  predicate Commented(lines: seq<string>, record: string) {
    exists line :: line in lines && ';' in line && RecordOf(line) == Some(record)
  }

  /**
   Deleting the lines a record's pattern matches removes that record and no other from the zone exactly when its fields
   are plain and no line carries it in front of a comment.
   */
  lemma DeleteRemovesRecord(lines: seq<string>, record: string)
    requires record in RecordSet(lines)
    ensures RecordSet(Delete(lines, record)) == RecordSet(lines) - {record} <==>
            AllPlain(Words(record)) && !Commented(lines, record)
    ensures AllPlain(Words(record)) ==>
              RecordSet(lines) - {record} <= RecordSet(Delete(lines, record)) <= RecordSet(lines)
  {
    if AllPlain(Words(record)) {
      forall r
        ensures r in RecordSet(Delete(lines, record)) <==>
                r in RecordSet(lines) && (r == record ==> Commented(lines, record))
      {
        RecordLeft(lines, record, r);
      }
    } else {
      UnplainStays(lines, record);
    }
  }

  lemma RecordLeft(lines: seq<string>, record: string, r: string)
    requires record in RecordSet(lines) && AllPlain(Words(record))
    ensures r in RecordSet(Delete(lines, record)) <==>
            r in RecordSet(lines) && (r == record ==> Commented(lines, record))
  {
    var i :| 0 <= i < |lines| && RecordOf(lines[i]) == Some(record);
    var left := Without(lines, record);
    MatchedLine(lines[i], lines[i], record);
    DeleteKeepsOthers(lines, record);
    RecordIn(lines, r);
    RecordIn(left, r);
    if line :| line in left && RecordOf(line) == Some(r) {
      WithoutMember(lines, record, line);
      MatchedLine(line, lines[i], record);
    }
    if line :| line in lines && RecordOf(line) == Some(r) && (r == record ==> ';' in line) {
      MatchedLine(line, lines[i], record);
      WithoutMember(lines, record, line);
    }
  }

  lemma RecordIn(lines: seq<string>, r: string)
    ensures r in RecordSet(lines) <==> exists line :: line in lines && RecordOf(line) == Some(r)
  {
    if k :| 0 <= k < |lines| && RecordOf(lines[k]) == Some(r) { assert lines[k] in lines; }
  }

  /** A record whose name starts with a repetition operator, such as a wildcard, has a pattern without a meaning. */
  lemma WildcardHasNoPattern(record: string)
    requires Words(record) != [] && Words(record)[0][0] in {'*', '+', '?', '{'}
    ensures Parse(Pattern(record)) == None
    ensures forall line :: !Matches(Pattern(record), line)
  {
    var fs := Words(record);
    var body := JoinEscaped(fs, SEPARATOR);
    EscapeStep(fs[0]);
    PatternText(body);
    var s := Pattern(record)[1..];
    assert s == SPACE + (['*'] + (body + END));
    assert SPACE <= s;
    assert s[11..] == ['*'] + (body + END);
    assert s[11..][1..] == body + END;
    assert body[0] == fs[0][0];
  }
}
