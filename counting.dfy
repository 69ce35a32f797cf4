/**
  The line-wise accumulation of `process_file` and `process_stdin`: four
  counters, each bumped once per line, and the two entry points that
  obtain the lines from a file or from standard input.
 */
module Counting {
  import opened Wrappers
  import opened Utf8
  import opened Text

  /** The `Stats` record; counters are unbounded (see README). */
  datatype Stats = Stats(bytes: nat, lines: nat, words: nat, chars: nat)

  const Zero := Stats(0, 0, 0, 0)

  function Add(a: Stats, b: Stats): Stats {
    Stats(a.bytes + b.bytes, a.lines + b.lines, a.words + b.words, a.chars + b.chars)
  }

  /**
    What one line adds: one line, its encoded length plus one byte for the
    stripped terminator, its scalar count plus one, and its words.
   */
  function LineStats(l: string): Stats {
    Stats(Utf8Length(l) + 1, 1, WordCount(l), |l| + 1)
  }

  /** The counters after a sequence of lines: the sum of what each line adds. */
  function Total(ls: seq<string>): Stats {
    if ls == [] then Zero else Add(LineStats(ls[0]), Total(ls[1..]))
  }

  predicate AtMost(a: Stats, b: Stats) {
    a.bytes <= b.bytes && a.lines <= b.lines && a.words <= b.words && a.chars <= b.chars
  }

  /** Counting one more line adds what that line adds. */
  lemma {:induction false} TotalAppend(ls: seq<string>, l: string)
    ensures Total(ls + [l]) == Add(Total(ls), LineStats(l))
  {
    if ls == [] {
      assert ls + [l] == [l];
    } else {
      assert (ls + [l])[0] == ls[0] && (ls + [l])[1..] == ls[1..] + [l];
      TotalAppend(ls[1..], l);
    }
  }

  /** One line per line, and at least one byte per scalar value: bytes >= chars >= lines. */
  lemma {:induction false} TotalOrdering(ls: seq<string>)
    ensures Total(ls).lines == |ls|
    ensures Total(ls).lines <= Total(ls).chars <= Total(ls).bytes
  {
    if ls != [] {
      TotalOrdering(ls[1..]);
      Utf8LengthBounds(ls[0]);
    }
  }

  predicate AllAscii(ls: seq<string>) {
    forall k | 0 <= k < |ls| :: IsAscii(ls[k])
  }

  /** The byte count equals the character count exactly when every line is ASCII. */
  lemma {:induction false} TotalAscii(ls: seq<string>)
    ensures Total(ls).bytes == Total(ls).chars <==> AllAscii(ls)
  {
    if ls != [] {
      TotalAscii(ls[1..]);
      TotalOrdering(ls[1..]);
      Utf8LengthBounds(ls[0]);
      Utf8LengthAscii(ls[0]);
      assert AllAscii(ls) <==> IsAscii(ls[0]) && AllAscii(ls[1..]) by {
        if IsAscii(ls[0]) && AllAscii(ls[1..]) {
          forall k | 0 <= k < |ls| ensures IsAscii(ls[k]) {
            if k > 0 { assert ls[k] == ls[1..][k - 1]; }
          }
        }
      }
    }
  }

  /** Counters only grow as more lines are processed. */
  lemma {:induction false} TotalMonotone(ls: seq<string>, i: nat, j: nat)
    requires i <= j <= |ls|
    ensures AtMost(Total(ls[..i]), Total(ls[..j]))
    decreases j - i
  {
    if i < j {
      TotalMonotone(ls, i, j - 1);
      assert ls[..j] == ls[..j - 1] + [ls[j - 1]];
      TotalAppend(ls[..j - 1], ls[j - 1]);
    }
  }

  /**
    The loop of `process_file` and `process_stdin` over already split
    lines. After each line every counter is the sum over the lines so far,
    and bytes >= chars >= lines holds at every step.
   */
  method CountLines(ls: seq<string>) returns (st: Stats)
    ensures st == Total(ls)
    ensures st.lines == |ls| && st.lines <= st.chars <= st.bytes
  {
    var bytes: nat, lines: nat, words: nat, chars: nat := 0, 0, 0, 0;
    for i := 0 to |ls|
      invariant Stats(bytes, lines, words, chars) == Total(ls[..i])
      invariant lines == i && lines <= chars <= bytes
    {
      var line := ls[i];
      TotalAppend(ls[..i], line);
      assert ls[..i + 1] == ls[..i] + [line];
      Utf8LengthBounds(line);
      lines := lines + 1;
      bytes := bytes + Utf8Length(line) + 1;
      chars := chars + |line| + 1;
      words := words + WordCount(line);
    }
    assert ls[..|ls|] == ls;
    st := Stats(bytes, lines, words, chars);
  }

  /** Splitting into lines loses no word: the words of the lines are the words of the text. */
  lemma {:induction false} TotalWordsOfLines(text: string)
    ensures Total(Lines(text)).words == WordCount(text)
    decreases |text|
  {
    if text != [] {
      var i := NewlineIndex(text);
      if i == |text| {
        assert Lines(text) == [text];
      } else {
        var l := text[..i];
        var rest := text[i + 1..];
        assert Lines(text) == [StripCarriageReturn(l)] + Lines(rest);
        assert text == l + ['\n'] + rest;
        WordCountSplit(l, '\n', rest);
        StripKeepsWords(l);
        TotalWordsOfLines(rest);
      }
    }
  }

  lemma StripKeepsWords(l: string)
    ensures WordCount(StripCarriageReturn(l)) == WordCount(l)
  {
    if |l| > 0 && l[|l| - 1] == '\r' {
      WordCountSplit(l[..|l| - 1], '\r', []);
      assert l[..|l| - 1] + ['\r'] + [] == l;
    }
  }

  /** One line per '\n', plus one for a final unterminated line. */
  lemma TotalLinesOfText(text: string)
    ensures Total(Lines(text)).lines == Newlines(text) + Unterminated(text)
  {
    TotalOrdering(Lines(text));
    LinesCount(text);
  }

  /** Bytes and characters count the lines with one terminator each. */
  lemma {:induction false} TotalOfTerminated(ls: seq<string>)
    ensures Total(ls).bytes == Utf8Length(Terminated(ls))
    ensures Total(ls).chars == |Terminated(ls)|
  {
    if ls != [] {
      TotalOfTerminated(ls[1..]);
      Utf8LengthAppend(ls[0] + "\n", Terminated(ls[1..]));
      Utf8LengthAppend(ls[0], "\n");
    }
  }

  /**
    Without '\r' in the text, bytes and characters are the text's own
    counts plus one phantom terminator when the last line has no '\n'.
   */
  lemma TotalOfText(text: string)
    requires '\r' !in text
    ensures Total(Lines(text)).bytes == Utf8Length(text) + Unterminated(text)
    ensures Total(Lines(text)).chars == |text| + Unterminated(text)
  {
    var ls := Lines(text);
    TotalOfTerminated(ls);
    LinesRoundTrip(text);
    Utf8LengthAppend(text, Unterminator(text));
  }

  /** Counts already decoded text, as both entry points do once they hold the text. */
  method CountText(text: string) returns (st: Stats)
    ensures st == Total(Lines(text))
    ensures st.lines == Newlines(text) + Unterminated(text)
    ensures st.words == WordCount(text)
    ensures '\r' !in text ==> st.bytes == Utf8Length(text) + Unterminated(text)
    ensures '\r' !in text ==> st.chars == |text| + Unterminated(text)
  {
    st := CountLines(Lines(text));
    TotalLinesOfText(text);
    TotalWordsOfLines(text);
    if '\r' !in text {
      TotalOfText(text);
    }
  }

  /** Why `process_file` panics instead of returning. */
  datatype Failure = CannotOpen(path: string) | InvalidUtf8(path: string)

  /**
    `process_file`: opens the named file, which fails when the file
    system (a map from path to contents) has no such file, and counts its
    lines, which fails when the contents are not UTF-8. Both failures are
    `unwrap` panics in the program.
   */
  method ProcessFile(files: map<string, seq<byte>>, filename: string) returns (r: Result<Stats, Failure>)
    ensures filename !in files ==> r == Err(CannotOpen(filename))
    ensures filename in files && Decode(files[filename]).None? ==> r == Err(InvalidUtf8(filename))
    ensures filename in files && Decode(files[filename]).Some? ==> r == Ok(Total(Lines(Decode(files[filename]).value)))
  {
    if filename !in files {
      return Err(CannotOpen(filename));
    }
    var decoded := Decode(files[filename]);
    if decoded.None? {
      return Err(InvalidUtf8(filename));
    }
    var st := CountText(decoded.value);
    r := Ok(st);
  }

  /**
    `process_stdin`: reads all of standard input into a string and counts
    its lines. The read's error is ignored, and on input that is not
    UTF-8 `read_to_string` leaves the buffer empty, so nothing is counted.
   */
  method ProcessStdin(input: seq<byte>) returns (st: Stats)
    ensures Decode(input).Some? ==> st == Total(Lines(Decode(input).value))
    ensures Decode(input).None? ==> st == Zero
  {
    var buffer := "";
    var decoded := Decode(input);
    if decoded.Some? {
      buffer := decoded.value;
    }
    st := CountText(buffer);
  }

  /**
    For a file without '\r', the byte count is the file's size, plus one
    for a last line that has no '\n'.
   */
  lemma FileByteCount(contents: seq<byte>)
    requires Decode(contents).Some? && '\r' !in Decode(contents).value
    ensures Total(Lines(Decode(contents).value)).bytes == |contents| + Unterminated(Decode(contents).value)
  {
    var text := Decode(contents).value;
    EncodeDecode(contents);
    EncodeLength(text);
    TotalOfText(text);
  }

  /**
    The same bytes counted as a file and as standard input: the same
    `Stats` when they are UTF-8; otherwise the file path fails while the
    standard-input path counts nothing.
   */
  method CountBothWays(contents: seq<byte>, name: string) returns (fromFile: Result<Stats, Failure>, fromStdin: Stats)
    ensures Decode(contents).Some? ==> fromFile == Ok(fromStdin)
    ensures Decode(contents).None? ==> fromFile == Err(InvalidUtf8(name)) && fromStdin == Zero
  {
    fromFile := ProcessFile(map[name := contents], name);
    fromStdin := ProcessStdin(contents);
  }
}
