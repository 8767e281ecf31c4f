/** Lines of words: splitting at white space, and the lines that splitting gives back. */
module WordText {
  import opened Names

  /** `split_whitespace`. */
  function Words(s: string): seq<string>
    decreases |s|
  {
    var t := TrimStart(s);
    if t == [] then []
    else
      var n := WordLength(t);
      [t[..n]] + Words(t[n..])
  }

  function WordLength(s: string): (n: nat)
    ensures n <= |s|
    ensures s != [] && !IsWhitespace(s[0]) ==> n > 0
  {
    if s == [] || IsWhitespace(s[0]) then 0 else 1 + WordLength(s[1..])
  }

  /** A character that no format treats as white space or as the start of a comment. */
  predicate SafeChar(c: char) { 0x20 < c as int < 0x7f && c != '#' && c != ';' }

  predicate SafeWord(w: string) { w != [] && forall i :: 0 <= i < |w| ==> SafeChar(w[i]) }

  predicate SafeWords(ws: seq<string>) { ws != [] && forall i :: 0 <= i < |ws| ==> SafeWord(ws[i]) }

  /** A line of words, as it looks to every parser. */
  predicate SafeLine(s: string) {
    && s != [] && SafeChar(s[0]) && SafeChar(s[|s| - 1])
    && forall i :: 0 <= i < |s| ==> SafeChar(s[i]) || s[i] == ' '
  }

  lemma {:induction false} JoinedWordsAreSafe(ws: seq<string>)
    requires SafeWords(ws)
    ensures SafeLine(Join(ws, ' ')) && Join(ws, ' ')[0] == ws[0][0]
  {
    if |ws| > 1 { JoinedWordsAreSafe(ws[1..]); }
  }

  lemma {:induction false} WordLengthOf(w: string, rest: string)
    requires forall i :: 0 <= i < |w| ==> SafeChar(w[i])
    requires rest != [] ==> rest[0] == ' '
    ensures WordLength(w + rest) == |w|
  {
    if w != [] {
      assert (w + rest)[1..] == w[1..] + rest;
      WordLengthOf(w[1..], rest);
    } else {
      assert w + rest == rest;
    }
  }

  lemma {:induction false} WordsStep(w: string, rest: string)
    requires SafeWord(w) && (rest != [] ==> rest[0] == ' ')
    ensures Words(w + rest) == [w] + Words(rest)
  {
    var t := w + rest;
    assert !IsWhitespace(t[0]);
    WordLengthOf(w, rest);
    assert t[..|w|] == w && t[|w|..] == rest;
  }

  lemma {:induction false} WordsSkipSpace(s: string)
    requires s != [] && SafeChar(s[0])
    ensures Words(" " + s) == Words(s)
  {
    assert (" " + s)[1..] == s;
    assert TrimStart(" " + s) == s;
  }

  lemma {:induction false} WordsCons(w: string, tail: string)
    requires SafeWord(w) && SafeLine(tail)
    ensures Words(w + [' '] + tail) == [w] + Words(tail)
  {
    assert w + [' '] + tail == w + (" " + tail);
    WordsStep(w, " " + tail);
    WordsSkipSpace(tail);
  }

  lemma {:induction false} WordsOne(w: string)
    requires SafeWord(w)
    ensures Words(w) == [w]
  {
    WordsStep(w, "");
    assert w + "" == w;
  }

  /** `split` takes a line of words apart one word at a time. */
  ghost predicate TakesWords(split: string -> seq<string>) {
    && (forall w :: SafeWord(w) ==> split(w) == [w])
    && (forall w: string, tail: string :: SafeWord(w) && SafeLine(tail) ==> split(w + [' '] + tail) == [w] + split(tail))
  }

  lemma {:induction false} TakingInvertsJoin(split: string -> seq<string>, ws: seq<string>)
    requires TakesWords(split) && SafeWords(ws)
    ensures split(Join(ws, ' ')) == ws
  {
    if |ws| > 1 {
      JoinedWordsAreSafe(ws[1..]);
      TakingInvertsJoin(split, ws[1..]);
      assert split(ws[0] + [' '] + Join(ws[1..], ' ')) == [ws[0]] + split(Join(ws[1..], ' '));
    }
  }

  /** `split_whitespace` inverts joining with spaces. */
  lemma {:induction false} WordsInvertJoin(ws: seq<string>)
    requires SafeWords(ws)
    ensures Words(Join(ws, ' ')) == ws
  {
    var split := s => Words(s);
    forall w | SafeWord(w) ensures split(w) == [w] { WordsOne(w); }
    forall w: string, tail: string | SafeWord(w) && SafeLine(tail)
      ensures split(w + [' '] + tail) == [w] + split(tail)
    {
      WordsCons(w, tail);
    }
    TakingInvertsJoin(split, ws);
  }
}
