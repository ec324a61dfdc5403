/** Lines of text as the Python code sees them: str.split(), " ".join() and str.strip() over ASCII whitespace. */
module Text {

  predicate IsSpace(c: char) {
    c == ' ' || c == '\t' || c == '\n' || c == '\r' || c == 11 as char || c == 12 as char
  }

  /** The ASCII characters from tab to carriage return, and the blank. */
  lemma SpacesAre(c: char)
    ensures IsSpace(c) <==> c == ' ' || 9 <= c as int <= 13
  {
  }

  /** A non-empty string without whitespace: what one element of str.split() is. */
  predicate IsWord(w: string) {
    |w| > 0 && forall i :: 0 <= i < |w| ==> !IsSpace(w[i])
  }

  predicate AllWords(ws: seq<string>) {
    forall i :: 0 <= i < |ws| ==> IsWord(ws[i])
  }

  predicate NoRepeats(names: seq<string>) {
    forall i, j :: 0 <= i < j < |names| ==> names[i] != names[j]
  }

  /** The length of the longest prefix of s without whitespace. */
  function WordLen(s: string): (n: nat)
    ensures n <= |s|
    ensures forall i :: 0 <= i < n ==> !IsSpace(s[i])
    ensures n < |s| ==> IsSpace(s[n])
  {
    if s == [] || IsSpace(s[0]) then 0 else 1 + WordLen(s[1..])
  }

  /** s.split() */
  function Words(s: string): (ws: seq<string>)
    ensures AllWords(ws)
    decreases |s|
  {
    if s == [] then []
    else if IsSpace(s[0]) then Words(s[1..])
    else
      var n := WordLen(s);
      [s[..n]] + Words(s[n..])
  }

  /** The text with spaces for commas: its words are what a split on commas and whitespace gives. */
  function Commas(s: string): string {
    seq(|s|, i requires 0 <= i < |s| => if s[i] == ',' then ' ' else s[i])
  }

  /** " ".join(ws) */
  function Join(ws: seq<string>): string {
    if ws == [] then "" else if |ws| == 1 then ws[0] else ws[0] + " " + Join(ws[1..])
  }

  /** s.lstrip() */
  function LStrip(s: string): (r: string)
    ensures |r| <= |s|
    ensures r == [] || !IsSpace(r[0])
    ensures Words(r) == Words(s)
  {
    if s != [] && IsSpace(s[0]) then LStrip(s[1..]) else s
  }

  /** s.lower() */
  function Lower(s: string): string {
    seq(|s|, i requires 0 <= i < |s| => if 'A' <= s[i] <= 'Z' then (s[i] as int + 32) as char else s[i])
  }

  /** The k-th capital becomes the k-th small letter; every other character stays. */
  lemma LowerMeans(s: string, i: nat, k: nat)
    requires i < |s| && k < 26
    ensures |Lower(s)| == |s|
    ensures s[i] == "ABCDEFGHIJKLMNOPQRSTUVWXYZ"[k] ==> Lower(s)[i] == "abcdefghijklmnopqrstuvwxyz"[k]
    ensures s[i] < 'A' || s[i] > 'Z' ==> Lower(s)[i] == s[i]
  {
  }

  /** A word followed by the end of the text or by whitespace is the first word. */
  lemma FirstWord(w: string, rest: string)
    requires IsWord(w)
    requires rest == [] || IsSpace(rest[0])
    ensures Words(w + rest) == [w] + Words(rest)
  {
    var s := w + rest;
    assert s[0] == w[0];
    var n := WordLen(s);
    assert forall i :: 0 <= i < |w| ==> s[i] == w[i];
    assert rest != [] ==> s[|w|] == rest[0];
    assert n == |w|;
    assert s[..n] == w && s[n..] == rest;
  }

  /** Splitting what was joined gives the words back. */
  lemma {:induction false} WordsOfJoin(ws: seq<string>)
    requires AllWords(ws)
    ensures Words(Join(ws)) == ws
  {
    if ws == [] {
    } else if |ws| == 1 {
      FirstWord(ws[0], "");
      assert ws[0] + "" == ws[0];
    } else {
      var rest := " " + Join(ws[1..]);
      FirstWord(ws[0], rest);
      assert ws[0] + " " + Join(ws[1..]) == ws[0] + rest;
      assert rest[1..] == Join(ws[1..]);
      WordsOfJoin(ws[1..]);
    }
  }

  /** One more word, after a blank. */
  lemma {:induction false} WordsSnoc(s: string, w: string)
    requires IsWord(w)
    ensures Words(s + (" " + w)) == Words(s) + [w]
    decreases |s|
  {
    var tail := " " + w;
    var text := s + tail;
    FirstWord(w, "");
    assert w + "" == w && tail[1..] == w;
    if s == [] {
      assert text == tail;
    } else if IsSpace(s[0]) {
      WordsSnoc(s[1..], w);
      assert text[1..] == s[1..] + tail;
    } else {
      var n := WordLen(s);
      WordsSnoc(s[n..], w);
      FirstThenMore(s[..n], s[n..], w);
      assert s == s[..n] + s[n..];
    }
  }

  lemma {:induction false} FirstThenMore(first: string, rest: string, w: string)
    requires IsWord(first) && (rest == [] || IsSpace(rest[0]))
    requires Words(rest + (" " + w)) == Words(rest) + [w]
    ensures Words((first + rest) + (" " + w)) == Words(first + rest) + [w]
  {
    FirstWord(first, rest);
    FirstWord(first, rest + (" " + w));
    Reordered(first, rest, " " + w);
    Reordered([first], Words(rest), [w]);
  }

  lemma Reordered<T>(a: seq<T>, b: seq<T>, c: seq<T>)
    ensures (a + b) + c == a + (b + c)
  {
  }

  /** Whitespace around a text does not change its words. */
  lemma {:induction false} WordsBlank(s: string)
    ensures Words(s) == [] <==> forall i :: 0 <= i < |s| ==> IsSpace(s[i])
  {
    if s == [] {
    } else if IsSpace(s[0]) {
      WordsBlank(s[1..]);
      assert forall i :: 0 < i < |s| ==> s[i] == s[1..][i - 1];
    } else {
      assert !IsSpace(s[0]);
    }
  }
}
