/**
 POSIX basic regular expressions (IEEE Std 1003.1, XBD section 9.3), as far as sed reads them in an address that starts
 with "^": ordinary characters, ".", "*", bracket expressions without classes, and escaped special characters.
 */
module Bre {
  import opened Wrappers

  /** A bracket expression is its ranges, each of one character or more. */
  datatype Atom = Lit(c: char) | Any | OneOf(negated: bool, ranges: seq<(char, char)>)
  datatype Piece = One(a: Atom) | Star(a: Atom)

  /** What is not itself: "/" ends the address. */
  const SPECIAL := {'.', '*', '[', '\\', '/'}

  const ESCAPABLE := {'.', '*', '[', ']', '^', '$', '\\', '/'}

  predicate InRanges(ranges: seq<(char, char)>, c: char) {
    exists i :: 0 <= i < |ranges| && ranges[i].0 <= c <= ranges[i].1
  }

  predicate Consumes(a: Atom, c: char) {
    match a
    case Lit(d) => c == d
    case Any => true
    case OneOf(negated, ranges) => InRanges(ranges, c) != negated
  }

  /** The ranges up to the closing bracket and their length; a "]" in front stands for itself. */
  function ParseRanges(s: string, first: bool): (r: Option<(seq<(char, char)>, nat)>)
    ensures r.Some? ==> 0 < r.value.1 <= |s|
  {
    if s == [] then None
    else if s[0] == ']' && !first then Some(([], 1))
    else if s[0] == '[' && |s| >= 2 && s[1] in {':', '.', '='} then None
    else
      var n := if |s| >= 3 && s[1] == '-' && s[2] != ']' then 3 else 1;
      if s[n - 1] < s[0] then None
      else
        match ParseRanges(s[n..], false)
        case None => None
        case Some((ranges, m)) => Some(([(s[0], s[n - 1])] + ranges, n + m))
  }

  /** One atom at the head of an expression, and its length; None where this fragment gives it no meaning. */
  function ParseAtom(s: string): (r: Option<(Atom, nat)>)
    ensures r.Some? ==> 0 < r.value.1 <= |s|
  {
    if s == [] || s[0] == '/' then None
    else if s[0] == '.' then Some((Any, 1))
    else if s[0] == '\\' then (if |s| >= 2 && s[1] in ESCAPABLE then Some((Lit(s[1]), 2)) else None)
    else if s[0] == '[' then
      var negated := |s| >= 2 && s[1] == '^';
      var skip := if negated then 2 else 1;
      match ParseRanges(s[skip..], true)
      case None => None
      case Some((ranges, n)) => Some((OneOf(negated, ranges), skip + n))
    else Some((Lit(s[0]), 1))
  }

  /** The atom, repeated when a "*" follows; two of them in a row have no defined meaning. */
  function Then(a: Atom, rest: string): Option<seq<Piece>>
    decreases |rest|, 2
  {
    var starred := rest != [] && rest[0] == '*';
    if starred && |rest| >= 2 && rest[1] == '*' then None
    else
      match ParsePieces(if starred then rest[1..] else rest)
      case None => None
      case Some(ps) => Some([if starred then Star(a) else One(a)] + ps)
  }

  function ParsePieces(s: string): Option<seq<Piece>>
    decreases |s|, 1
  {
    if s == [] then Some([])
    else
      match ParseAtom(s)
      case None => None
      case Some((a, n)) => Then(a, s[n..])
  }

  /** The expression after its "^", where a "*" stands for itself. */
  function Parse(s: string): Option<seq<Piece>> {
    if s != [] && s[0] == '*' then Then(Lit('*'), s[1..]) else ParsePieces(s)
  }

  /** Some beginning of the text is in the language of the pieces. */
  predicate MatchesHead(ps: seq<Piece>, text: string)
    decreases |text|, |ps|
  {
    ps == [] ||
    var taken := text != [] && Consumes(ps[0].a, text[0]);
    match ps[0]
    case One(_) => taken && MatchesHead(ps[1..], text[1..])
    case Star(_) => MatchesHead(ps[1..], text) || (taken && MatchesHead(ps, text[1..]))
  }

  /** "^s" matches the text; an expression that sed refuses matches nothing. */
  predicate Matches(s: string, text: string) {
    Parse(s).Some? && MatchesHead(Parse(s).value, text)
  }

  // ----- expressions without stars, brackets and escapes -----

  predicate Simple(s: string) {
    forall i :: 0 <= i < |s| ==> s[i] in SPECIAL ==> s[i] == '.'
  }

  function AtomOf(c: char): Atom {
    if c == '.' then Any else Lit(c)
  }

  function SimplePieces(s: string): seq<Piece> {
    if s == [] then [] else [One(AtomOf(s[0]))] + SimplePieces(s[1..])
  }

  lemma {:induction false} ParseSimple(s: string, tail: string)
    requires Simple(s) && (tail == [] || tail[0] != '*') && ParsePieces(tail).Some?
    ensures ParsePieces(s + tail) == Some(SimplePieces(s) + ParsePieces(tail).value)
  {
    if s == [] {
      assert s + tail == tail;
      assert SimplePieces(s) + ParsePieces(tail).value == ParsePieces(tail).value;
    } else {
      ParseSimple(s[1..], tail);
      var rest := s[1..] + tail;
      assert s + tail == [s[0]] + rest && (s + tail)[1..] == rest;
      assert rest != [] ==> rest[0] != '*';
      assert ParseAtom(s + tail) == Some((AtomOf(s[0]), 1));
      var ps := SimplePieces(s[1..]) + ParsePieces(tail).value;
      assert [One(AtomOf(s[0]))] + ps == SimplePieces(s) + ParsePieces(tail).value;
    }
  }

  /** Character by character, a dot standing for any. */
  predicate Fits(s: string, text: string) {
    |s| <= |text| && forall i :: 0 <= i < |s| ==> s[i] == '.' || s[i] == text[i]
  }

  lemma {:induction false} SimpleMatches(s: string, ps: seq<Piece>, text: string)
    requires Simple(s)
    ensures MatchesHead(SimplePieces(s) + ps, text) <==> Fits(s, text) && MatchesHead(ps, text[|s|..])
  {
    if s == [] {
      assert SimplePieces(s) + ps == ps && text[0..] == text;
    } else {
      var all := SimplePieces(s) + ps;
      assert all[0] == One(AtomOf(s[0])) && all[1..] == SimplePieces(s[1..]) + ps;
      if text != [] {
        SimpleMatches(s[1..], ps, text[1..]);
        assert Fits(s, text) <==> Consumes(AtomOf(s[0]), text[0]) && Fits(s[1..], text[1..]) by {
          FitsCons(s, text);
        }
        assert |s| <= |text| ==> text[1..][|s| - 1..] == text[|s|..];
      }
    }
  }

  lemma FitsCons(s: string, text: string)
    requires s != [] && text != []
    ensures Fits(s, text) <==> (s[0] == '.' || s[0] == text[0]) && Fits(s[1..], text[1..])
  {
    if Fits(s[1..], text[1..]) && (s[0] == '.' || s[0] == text[0]) {
      forall i | 0 <= i < |s| ensures s[i] == '.' || s[i] == text[i] {
        if i > 0 { assert s[1..][i - 1] == s[i] && text[1..][i - 1] == text[i]; }
      }
    }
    if Fits(s, text) {
      forall i | 0 <= i < |s| - 1 ensures s[1..][i] == '.' || s[1..][i] == text[1..][i] {
        assert s[i + 1] == '.' || s[i + 1] == text[i + 1];
      }
    }
  }

  /** Such an expression matches the texts that fit it. */
  lemma SimpleMeans(s: string, text: string)
    requires Simple(s)
    ensures Matches(s, text) <==> Fits(s, text)
  {
    ParseSimple(s, []);
    assert s + [] == s && SimplePieces(s) + [] == SimplePieces(s);
    SimpleMatches(s, [], text);
  }

  // ----- a star after the last character -----

  function Repeated(c: char, n: nat): string {
    seq(n, _ => c)
  }

  lemma {:induction false} StarTakes(c: char, ps: seq<Piece>, n: nat, rest: string)
    requires MatchesHead(ps, rest)
    ensures MatchesHead([Star(Lit(c))] + ps, Repeated(c, n) + rest)
    decreases n
  {
    var all := [Star(Lit(c))] + ps;
    var text := Repeated(c, n) + rest;
    assert all[1..] == ps;
    if n == 0 {
      assert text == rest;
    } else {
      StarTakes(c, ps, n - 1, rest);
      assert text[1..] == Repeated(c, n - 1) + rest;
    }
  }

  lemma ParseStarred(stem: string, c: char)
    requires Simple(stem) && c !in SPECIAL
    ensures Parse(stem + [c] + "* ") == Some(SimplePieces(stem) + [Star(Lit(c)), One(Lit(' '))])
  {
    var tail := [c] + "* ";
    assert tail[1..] == "* " && "* "[1..] == " " && " "[1..] == [];
    assert ParsePieces(" ") == Some([One(Lit(' '))]) by {
      assert ParsePieces([]) == Some([]) && [One(Lit(' '))] + [] == [One(Lit(' '))];
      assert Then(Lit(' '), []) == Some([One(Lit(' '))]);
    }
    assert ParsePieces(tail) == Some([Star(Lit(c))] + [One(Lit(' '))]);
    assert [Star(Lit(c))] + [One(Lit(' '))] == [Star(Lit(c)), One(Lit(' '))];
    ParseSimple(stem, tail);
    assert stem + [c] + "* " == stem + tail;
  }

  /** "stem" and any number of the character match a starred name. */
  lemma StarredMatches(stem: string, c: char, n: nat, rest: string)
    requires Simple(stem) && '.' !in stem && c !in SPECIAL
    ensures Matches(stem + [c] + "* ", stem + (Repeated(c, n) + (" " + rest)))
  {
    ParseStarred(stem, c);
    var text := stem + (Repeated(c, n) + (" " + rest));
    var ps := [Star(Lit(c)), One(Lit(' '))];
    var blank := " " + rest;
    assert blank[0] == ' ' && [One(Lit(' '))][1..] == [];
    assert MatchesHead([One(Lit(' '))], blank);
    StarTakes(c, [One(Lit(' '))], n, blank);
    assert ps == [Star(Lit(c))] + [One(Lit(' '))];
    SimpleMatches(stem, ps, text);
    assert text[|stem|..] == Repeated(c, n) + blank;
  }

  /** The starred name itself does not match. */
  lemma StarredMisses(stem: string, c: char, rest: string)
    requires Simple(stem) && c !in SPECIAL && c != ' '
    ensures !Matches(stem + [c] + "* ", stem + [c] + "* " + rest)
  {
    ParseStarred(stem, c);
    var text := stem + [c] + "* " + rest;
    var ps := [Star(Lit(c)), One(Lit(' '))];
    SimpleMatches(stem, ps, text);
    var left := text[|stem|..];
    assert left[0] == c && left[1] == '*' && left[1..][0] == '*';
    assert ps[1..] == [One(Lit(' '))];
    assert !MatchesHead([One(Lit(' '))], left);
    assert !MatchesHead([One(Lit(' '))], left[1..]);
    assert !MatchesHead(ps, left[1..]);
  }

  // ----- bracket expressions -----

  /** A character by itself, or all from one to another; none of them with a meaning of its own between brackets. */
  datatype Item = Single(c: char) | Span(low: char, high: char)

  predicate Ordinary(c: char) {
    c != '[' && c != ']' && c != '-' && c != '^'
  }

  predicate ProperItem(item: Item) {
    match item
    case Single(c) => Ordinary(c)
    case Span(low, high) => Ordinary(low) && Ordinary(high) && low <= high
  }

  predicate ProperItems(items: seq<Item>) {
    forall i :: 0 <= i < |items| ==> ProperItem(items[i])
  }

  function ItemText(item: Item): string {
    match item
    case Single(c) => [c]
    case Span(low, high) => [low, '-', high]
  }

  function Spelt(items: seq<Item>): string {
    if items == [] then "" else ItemText(items[0]) + Spelt(items[1..])
  }

  predicate Covers(item: Item, c: char) {
    match item
    case Single(d) => c == d
    case Span(low, high) => low <= c <= high
  }

  predicate OneCovers(items: seq<Item>, c: char) {
    exists i :: 0 <= i < |items| && Covers(items[i], c)
  }

  function RangeOf(item: Item): (char, char) {
    match item
    case Single(c) => (c, c)
    case Span(low, high) => (low, high)
  }

  function RangesOf(items: seq<Item>): seq<(char, char)> {
    if items == [] then [] else [RangeOf(items[0])] + RangesOf(items[1..])
  }

  lemma {:induction false} RangesRead(items: seq<Item>, tail: string, first: bool)
    requires ProperItems(items) && (first ==> items != []) && tail != "" && tail[0] == ']'
    ensures ParseRanges(Spelt(items) + tail, first) == Some((RangesOf(items), |Spelt(items)| + 1))
    decreases |items|
  {
    if items == [] {
      assert Spelt(items) + tail == tail;
    } else {
      RangesRead(items[1..], tail, false);
      ItemFirst(items, tail, Spelt(items[1..]), first);
    }
  }

  lemma {:induction false} ItemFirst(items: seq<Item>, tail: string, others: string, first: bool)
    requires items != [] && ProperItems(items) && tail != "" && tail[0] == ']' && others == Spelt(items[1..])
    requires ParseRanges(others + tail, false) == Some((RangesOf(items[1..]), |others| + 1))
    ensures ParseRanges(Spelt(items) + tail, first) == Some((RangesOf(items), |Spelt(items)| + 1))
  {
    assert ProperItem(items[0]);
    FirstOfMore(items[1..], tail);
    ThreeParts(ItemText(items[0]), others, tail);
    OneItem(items[0], ItemText(items[0]) + (others + tail), others + tail, first);
  }

  lemma ThreeParts(a: string, b: string, c: string)
    ensures (a + b) + c == a + (b + c) && |a + b| == |a| + |b|
  {
  }

  lemma {:induction false} FirstOfMore(items: seq<Item>, tail: string)
    requires ProperItems(items) && tail != "" && tail[0] == ']'
    ensures (Spelt(items) + tail) != "" && (Spelt(items) + tail)[0] != '-'
  {
    if items != [] { assert ProperItem(items[0]); }
  }

  lemma {:induction false} OneItem(item: Item, s: string, more: string, first: bool)
    requires ProperItem(item) && more != "" && more[0] != '-' && ParseRanges(more, false).Some?
    requires s == ItemText(item) + more
    ensures var (ranges, m) := ParseRanges(more, false).value;
            ParseRanges(s, first) == Some(([RangeOf(item)] + ranges, m + |ItemText(item)|))
  {
    match item {
      case Single(c) =>
        assert s[1..] == more && s[0] == c;
      case Span(low, high) =>
        assert s[3..] == more && s[0] == low && s[1] == '-' && s[2] == high;
    }
  }

  lemma {:induction false} RangesCover(items: seq<Item>, c: char)
    ensures InRanges(RangesOf(items), c) <==> OneCovers(items, c)
  {
    if items != [] {
      var item, others := items[0], items[1..];
      RangesCover(others, c);
      RangesSplit(RangeOf(item), RangesOf(others), c);
      CoversSplit(item, others, c);
      assert items == [item] + others;
    }
  }

  lemma {:induction false} RangesSplit(r: (char, char), ranges: seq<(char, char)>, c: char)
    ensures InRanges([r] + ranges, c) <==> r.0 <= c <= r.1 || InRanges(ranges, c)
  {
    var all := [r] + ranges;
    if r.0 <= c <= r.1 { assert all[0] == r; }
    if i :| 0 <= i < |ranges| && ranges[i].0 <= c <= ranges[i].1 { assert all[i + 1] == ranges[i]; }
  }

  lemma {:induction false} CoversSplit(item: Item, items: seq<Item>, c: char)
    ensures OneCovers([item] + items, c) <==> Covers(item, c) || OneCovers(items, c)
  {
    var all := [item] + items;
    if Covers(item, c) { assert Covers(all[0], c); }
    if i :| 0 <= i < |items| && Covers(items[i], c) { assert Covers(all[i + 1], c); }
  }

  /** Between brackets: one of the characters listed, or, after a circumflex, one that is not. */
  lemma {:induction false} BracketMeans(items: seq<Item>, negated: bool, text: string)
    requires ProperItems(items) && items != []
    ensures Matches("[" + ((if negated then "^" else "") + (Spelt(items) + "]")), text) <==>
            text != "" && (OneCovers(items, text[0]) != negated)
  {
    var s := "[" + ((if negated then "^" else "") + (Spelt(items) + "]"));
    BracketAtom(items, negated, s);
    WholeAtom(s, OneOf(negated, RangesOf(items)), text);
    if text != "" { RangesCover(items, text[0]); }
  }

  lemma {:induction false} BracketAtom(items: seq<Item>, negated: bool, s: string)
    requires ProperItems(items) && items != []
    requires s == "[" + ((if negated then "^" else "") + (Spelt(items) + "]"))
    ensures ParseAtom(s) == Some((OneOf(negated, RangesOf(items)), |s|)) && s[0] == '['
  {
    var skip := if negated then 2 else 1;
    RangesRead(items, "]", true);
    FirstIsOrdinary(items);
    BracketParts(s, if negated then "^" else "", Spelt(items), skip);
  }

  lemma {:induction false} BracketParts(s: string, mark: string, body: string, skip: nat)
    requires s == "[" + (mark + (body + "]")) && (mark == "^" || mark == "") && skip == |mark| + 1
    requires body != "" && body[0] != '^'
    ensures s[skip..] == body + "]" && s[0] == '[' && |s| == skip + |body| + 1 && (s[1] == '^' <==> mark == "^")
  {
    assert s[1..] == mark + (body + "]");
    assert s[1] == if mark == "^" then '^' else body[0];
  }

  lemma {:induction false} WholeAtom(s: string, a: Atom, text: string)
    requires s != "" && s[0] != '*' && ParseAtom(s) == Some((a, |s|))
    ensures Matches(s, text) <==> text != "" && Consumes(a, text[0])
  {
    assert s[|s|..] == "" && ParsePieces("") == Some([]);
    assert [One(a)] + [] == [One(a)] && [One(a)][1..] == [];
    assert Then(a, "") == Some([One(a)] + []);
    assert Parse(s) == Some([One(a)]);
    if text != "" { assert MatchesHead([], text[1..]); }
  }

  lemma {:induction false} FirstIsOrdinary(items: seq<Item>)
    requires ProperItems(items) && items != []
    ensures Spelt(items) != "" && Ordinary(Spelt(items)[0])
  {
    assert ProperItem(items[0]);
  }

  /** A bracket in front and a hyphen at the end stand for themselves; a span backwards and a class are refused. */
  lemma {:induction false} BracketCorners()
    ensures ParseAtom("[]a]") == Some((OneOf(false, [(']', ']'), ('a', 'a')]), 4))
    ensures ParseAtom("[a-]") == Some((OneOf(false, [('a', 'a'), ('-', '-')]), 4))
    ensures ParseAtom("[b-a]") == None && ParseAtom("[[:x:]]") == None && ParseAtom("[a") == None
  {
    assert "[]a]"[1..] == "]a]" && "]a]"[1..] == "a]" && "a]"[1..] == "]";
    assert ParseRanges("]", false) == Some(([], 1));
    assert [('a', 'a')] + [] == [('a', 'a')] && [(']', ']')] + [('a', 'a')] == [(']', ']'), ('a', 'a')];
    assert ParseRanges("a]", false) == Some(([('a', 'a')], 2));
    assert "[a-]"[1..] == "a-]" && "a-]"[1..] == "-]" && "-]"[1..] == "]";
    assert [('-', '-')] + [] == [('-', '-')] && [('a', 'a')] + [('-', '-')] == [('a', 'a'), ('-', '-')];
    assert ParseRanges("-]", false) == Some(([('-', '-')], 2));
    assert "[b-a]"[1..] == "b-a]" && "[[:x:]]"[1..] == "[:x:]]" && "[a"[1..] == "a" && "a"[1..] == "";
    assert ParseRanges("a", true) == None;
  }

  /** A backslash takes the meaning of a special character away; other escapes and the slash are refused. */
  lemma EscapeMeans(c: char, rest: string)
    ensures ParseAtom(['\\', c] + rest) ==
            if c in ['.', '*', '[', ']', '^', '$', '\\', '/'] then Some((Lit(c), 2)) else None
    ensures ParseAtom(['\\']) == None && ParseAtom(['/'] + rest) == None
  {
  }

  /** A star in front stands for itself, and two in a row are refused. */
  lemma {:induction false} StarCorners(text: string)
    ensures Matches("*", text) <==> text != "" && text[0] == '*'
    ensures Parse("a**") == None && Parse("a***") == None
  {
    assert "*"[1..] == "" && ParsePieces("") == Some([]) && [One(Lit('*'))] + [] == [One(Lit('*'))];
    assert Parse("*") == Some([One(Lit('*'))]) && [One(Lit('*'))][1..] == [];
    if text != "" { assert MatchesHead([], text[1..]); }
    assert "a**"[1..] == "**" && "a***"[1..] == "***" && Then(Lit('a'), "**") == None && Then(Lit('a'), "***") == None;
  }
}
