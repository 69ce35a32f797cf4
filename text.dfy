/**
  The per-line measures and the line splitting the counter relies on:
  `char::is_whitespace`, `str::split_whitespace` and `str::lines`
  (`BufRead::lines` splits a file the same way).
 */
module Text {

  /** The Unicode White_Space property, which `char::is_whitespace` tests. */
  predicate IsWhitespace(c: char) {
    var v := c as int;
    (0x09 <= v <= 0x0D) || v == 0x20 || v == 0x85 || v == 0xA0 || v == 0x1680
    || (0x2000 <= v <= 0x200A) || v == 0x2028 || v == 0x2029 || v == 0x202F
    || v == 0x205F || v == 0x3000
  }

  predicate AllWhitespace(s: string) {
    forall i | 0 <= i < |s| :: IsWhitespace(s[i])
  }

  predicate NoWhitespace(s: string) {
    forall i | 0 <= i < |s| :: !IsWhitespace(s[i])
  }

  // ---------------------------------------------------------------------
  // Words

  /**
    Number of non-whitespace runs in `s` that begin inside it; `inWord`
    says whether the character before `s` was part of a word.
   */
  function CountRuns(s: string, inWord: bool): nat
    decreases |s|
  {
    if s == [] then 0
    else if IsWhitespace(s[0]) then CountRuns(s[1..], false)
    else (if inWord then 0 else 1) + CountRuns(s[1..], true)
  }

  /** `s.split_whitespace().count()`: the number of maximal non-whitespace runs. */
  function WordCount(s: string): nat {
    CountRuns(s, false)
  }

  /** Length of the maximal non-whitespace prefix of `s`. */
  function RunLength(s: string): (n: nat)
    ensures n <= |s|
    ensures NoWhitespace(s[..n])
    ensures n < |s| ==> IsWhitespace(s[n])
  {
    if s == [] || IsWhitespace(s[0]) then 0
    else
      var n := 1 + RunLength(s[1..]);
      assert forall i | 1 <= i < n :: s[..n][i] == s[1..][..n - 1][i - 1];
      n
  }

  /** `s.split_whitespace()`: the words of `s`, left to right. */
  function Words(s: string): (ws: seq<string>)
    decreases |s|
  {
    if s == [] then []
    else if IsWhitespace(s[0]) then Words(s[1..])
    else
      var n := RunLength(s);
      [s[..n]] + Words(s[n..])
  }

  /** Every word is non-empty and holds no whitespace. */
  lemma {:induction false} WordsAreRuns(s: string)
    ensures forall k | 0 <= k < |Words(s)| :: |Words(s)[k]| > 0 && NoWhitespace(Words(s)[k])
    decreases |s|
  {
    if s != [] {
      if IsWhitespace(s[0]) {
        WordsAreRuns(s[1..]);
      } else {
        var n := RunLength(s);
        WordsAreRuns(s[n..]);
        assert Words(s) == [s[..n]] + Words(s[n..]);
      }
    }
  }

  /** Where a scan of `s` ends up: inside a word or not. */
  function EndsInWord(s: string, inWord: bool): bool {
    if s == [] then inWord else !IsWhitespace(s[|s| - 1])
  }

  lemma {:induction false} CountRunsAppend(a: string, b: string, inWord: bool)
    ensures CountRuns(a + b, inWord) == CountRuns(a, inWord) + CountRuns(b, EndsInWord(a, inWord))
    decreases |a|
  {
    if a == [] {
      assert a + b == b;
    } else {
      assert (a + b)[0] == a[0] && (a + b)[1..] == a[1..] + b;
      var next := !IsWhitespace(a[0]);
      CountRunsAppend(a[1..], b, next);
      assert EndsInWord(a[1..], next) == EndsInWord(a, inWord);
    }
  }

  lemma {:induction false} CountRunsInsideWord(s: string)
    requires NoWhitespace(s)
    ensures CountRuns(s, true) == 0
    decreases |s|
  {
    if s != [] {
      CountRunsInsideWord(s[1..]);
    }
  }

  /** A non-empty text without whitespace is one word. */
  lemma OneWord(w: string)
    requires w != [] && NoWhitespace(w)
    ensures WordCount(w) == 1
  {
    assert NoWhitespace(w[1..]) by { assert forall i | 0 <= i < |w| - 1 :: w[1..][i] == w[i + 1]; }
    CountRunsInsideWord(w[1..]);
  }

  /** The counted runs are exactly the words `split_whitespace` yields. */
  lemma {:induction false} WordCountIsWords(s: string)
    ensures WordCount(s) == |Words(s)|
    decreases |s|
  {
    if s != [] {
      if IsWhitespace(s[0]) {
        WordCountIsWords(s[1..]);
      } else {
        var n := RunLength(s);
        assert s[1..] == s[1..n] + s[n..];
        assert NoWhitespace(s[1..n]) by {
          assert forall i | 0 <= i < n - 1 :: s[1..n][i] == s[..n][i + 1];
        }
        CountRunsAppend(s[1..n], s[n..], true);
        CountRunsInsideWord(s[1..n]);
        assert EndsInWord(s[1..n], true) by {
          if n > 1 { assert s[1..n][n - 2] == s[..n][n - 1]; }
        }
        assert CountRuns(s[n..], true) == CountRuns(s[n..], false);
        WordCountIsWords(s[n..]);
      }
    }
  }

  /** A whitespace character between two texts separates their words. */
  lemma WordCountSplit(a: string, w: char, b: string)
    requires IsWhitespace(w)
    ensures WordCount(a + [w] + b) == WordCount(a) + WordCount(b)
  {
    assert a + [w] + b == a + ([w] + b);
    CountRunsAppend(a, [w] + b, false);
    assert ([w] + b)[1..] == b;
  }

  /** A text has no word exactly when it is empty or all whitespace. */
  lemma {:induction false} NoWordsIffAllWhitespace(s: string)
    ensures WordCount(s) == 0 <==> AllWhitespace(s)
    decreases |s|
  {
    if s != [] {
      NoWordsIffAllWhitespace(s[1..]);
      assert AllWhitespace(s) <==> IsWhitespace(s[0]) && AllWhitespace(s[1..]) by {
        if IsWhitespace(s[0]) && AllWhitespace(s[1..]) {
          forall i | 0 <= i < |s| ensures IsWhitespace(s[i]) {
            if i > 0 { assert s[i] == s[1..][i - 1]; }
          }
        }
      }
    }
  }

  /** Whitespace added before or after a text, or beside whitespace inside it, changes no count. */
  lemma ExtraWhitespace(a: string, w: char, w': char, b: string)
    requires IsWhitespace(w) && IsWhitespace(w')
    ensures WordCount([w] + b) == WordCount(b)
    ensures WordCount(a + [w]) == WordCount(a)
    ensures WordCount(a + [w, w'] + b) == WordCount(a + [w] + b)
  {
    WordCountSplit([], w, b);
    assert [] + [w] + b == [w] + b;
    WordCountSplit(a, w, []);
    assert a + [w] + [] == a + [w];
    WordCountSplit(a, w, [w'] + b);
    assert a + [w] + ([w'] + b) == a + [w, w'] + b;
    WordCountSplit([], w', b);
    assert [] + [w'] + b == [w'] + b;
    WordCountSplit(a, w, b);
  }

  // ---------------------------------------------------------------------
  // Lines

  /** Index of the first '\n' in `s`, or `|s|` when there is none. */
  function NewlineIndex(s: string): (i: nat)
    ensures i <= |s|
    ensures '\n' !in s[..i]
    ensures i < |s| ==> s[i] == '\n'
  {
    if s == [] || s[0] == '\n' then 0
    else
      var i := 1 + NewlineIndex(s[1..]);
      assert s[..i] == [s[0]] + s[1..][..i - 1];
      i
  }

  /** A line that ended in "\r\n" loses its '\r' too. */
  function StripCarriageReturn(l: string): string {
    if |l| > 0 && l[|l| - 1] == '\r' then l[..|l| - 1] else l
  }

  /**
    `str::lines`: the text split at each '\n', with a '\r' that stood
    right before a '\n' removed. The last segment is a line only if it is
    not empty, so "" has no lines and a final '\n' adds none.
   */
  function Lines(text: string): (ls: seq<string>)
    decreases |text|
  {
    if text == [] then []
    else
      var i := NewlineIndex(text);
      if i == |text| then [text]
      else [StripCarriageReturn(text[..i])] + Lines(text[i + 1..])
  }

  /** 1 when the text ends in an unterminated line, else 0. */
  function Unterminated(text: string): nat {
    if text != [] && text[|text| - 1] != '\n' then 1 else 0
  }

  /** Number of '\n' characters in the text. */
  function Newlines(text: string): nat {
    multiset(text)['\n']
  }

  /** One line per '\n', plus one for a final unterminated line. */
  lemma {:induction false} LinesCount(text: string)
    ensures |Lines(text)| == Newlines(text) + Unterminated(text)
    decreases |text|
  {
    if text != [] {
      var i := NewlineIndex(text);
      if i == |text| {
        assert text == text[..i];
      } else {
        NewlinesAfterFirst(text, i);
        UnterminatedAfterNewline(text, i);
        LinesCount(text[i + 1..]);
        assert Lines(text) == [StripCarriageReturn(text[..i])] + Lines(text[i + 1..]);
      }
    }
  }

  lemma NewlinesAfterFirst(text: string, i: nat)
    requires i < |text| && text[i] == '\n' && '\n' !in text[..i]
    ensures Newlines(text) == 1 + Newlines(text[i + 1..])
  {
    assert text == text[..i] + [text[i]] + text[i + 1..];
    assert multiset(text) == multiset(text[..i]) + multiset{'\n'} + multiset(text[i + 1..]);
  }

  /** No line holds a '\n'. */
  lemma {:induction false} LinesHaveNoNewline(text: string)
    ensures forall k | 0 <= k < |Lines(text)| :: '\n' !in Lines(text)[k]
    decreases |text|
  {
    if text != [] {
      var i := NewlineIndex(text);
      if i == |text| {
        assert text == text[..i];
      } else {
        var l := text[..i];
        assert StripCarriageReturn(l) <= l;
        LinesHaveNoNewline(text[i + 1..]);
      }
    }
  }

  /** The lines, each followed by "\n". */
  function Terminated(ls: seq<string>): string {
    if ls == [] then [] else ls[0] + "\n" + Terminated(ls[1..])
  }

  /** Splitting at the first '\n': the text is the part before it, the '\n', and the rest. */
  lemma SplitAtNewline(text: string, i: nat)
    requires i < |text| && text[i] == '\n'
    ensures text == text[..i] + "\n" + text[i + 1..]
  {
    assert text == text[..i] + [text[i]] + text[i + 1..];
  }

  lemma UnterminatedAfterNewline(text: string, i: nat)
    requires i < |text| && text[i] == '\n'
    ensures Unterminated(text[i + 1..]) == Unterminated(text)
  {}

  lemma NoCarriageReturnParts(text: string, i: nat)
    requires '\r' !in text && i < |text|
    ensures '\r' !in text[..i] && '\r' !in text[i + 1..]
  {
    assert text == text[..i] + [text[i]] + text[i + 1..];
    assert multiset(text) == multiset(text[..i]) + multiset{text[i]} + multiset(text[i + 1..]);
  }

  lemma StripWithoutCarriageReturn(l: string)
    requires '\r' !in l
    ensures StripCarriageReturn(l) == l
  {
    if |l| > 0 { assert l[|l| - 1] in l; }
  }

  /** What `Terminated` adds at the end of a text's lines: a '\n' when the last line had none. */
  function Unterminator(text: string): string {
    if Unterminated(text) == 1 then "\n" else ""
  }

  lemma TerminatedCons(l: string, ls: seq<string>)
    ensures Terminated([l] + ls) == l + "\n" + Terminated(ls)
  {
    assert ([l] + ls)[0] == l && ([l] + ls)[1..] == ls;
  }

  /** A text without '\n' is one unterminated line. */
  lemma SingleLine(text: string)
    requires text != [] && NewlineIndex(text) == |text|
    ensures Lines(text) == [text] && Unterminated(text) == 1
  {
    assert text[|text| - 1] != '\n' by { assert text[..|text|][|text| - 1] == text[|text| - 1]; }
  }

  /** Without '\r', terminating every line rebuilds the text, with a '\n' added when the last line had none. */
  lemma {:induction false} LinesRoundTrip(text: string)
    requires '\r' !in text
    ensures Terminated(Lines(text)) == text + Unterminator(text)
    decreases |text|
  {
    if text != [] {
      var i := NewlineIndex(text);
      if i == |text| {
        SingleLine(text);
        TerminatedCons(text, []);
      } else {
        var l, rest := text[..i], text[i + 1..];
        SplitAtNewline(text, i);
        UnterminatedAfterNewline(text, i);
        NoCarriageReturnParts(text, i);
        StripWithoutCarriageReturn(l);
        LinesRoundTrip(rest);
        assert Lines(text) == [l] + Lines(rest);
        TerminatedCons(l, Lines(rest));
        assert Terminated(Lines(text)) == l + "\n" + (rest + Unterminator(rest));
      }
    }
  }
}
