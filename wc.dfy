/**
  `main`: parse the command line, choose the input, count it and build
  the output line. The environment is given: the arguments, the bytes on
  standard input and a file system mapping readable paths to contents.
 */
module Wc {
  import opened Wrappers
  import opened Utf8
  import opened Text
  import opened Args
  import opened Counting
  import opened Report

  datatype Source = StandardInput | FileSource(path: string)

  /** The file name "stdin", given or left as it started, selects standard input. */
  function ResolveSource(o: Options): Source {
    if o.filename == StdinName then StandardInput else FileSource(o.filename)
  }

  /** The text that gets counted when reading succeeds. */
  function InputText(src: Source, stdin: seq<byte>, files: map<string, seq<byte>>): string {
    match src
    case StandardInput => if Decode(stdin).Some? then Decode(stdin).value else ""
    case FileSource(p) => if p in files && Decode(files[p]).Some? then Decode(files[p]).value else ""
  }

  /**
    A whole run. It fails only when a named file cannot be opened or is
    not UTF-8; otherwise the output line holds the enabled counters of the
    chosen input, in the fixed order.
   */
  method Run(args: seq<string>, stdin: seq<byte>, files: map<string, seq<byte>>) returns (r: Result<string, Failure>)
    ensures var src := ResolveSource(Parse(args));
            r.Err? <==> src.FileSource? && (src.path !in files || Decode(files[src.path]).None?)
    ensures var src := ResolveSource(Parse(args));
            r.Err? ==> r.error == if src.path !in files then CannotOpen(src.path) else InvalidUtf8(src.path)
    ensures var o := Parse(args);
            var st := Total(Lines(InputText(ResolveSource(o), stdin, files)));
            r.Ok? ==> r.value == ShowStats(st, o) && ParseReport(r.value) == Some(Selected(st, o))
  {
    var options := NewOptions(args);
    var stats: Stats;
    if options.filename == StdinName {
      stats := ProcessStdin(stdin);
    } else {
      var counted := ProcessFile(files, options.filename);
      if counted.Err? {
        return Err(counted.error);
      }
      stats := counted.value;
    }
    r := Ok(ShowStats(stats, options));
    ReportRoundTrip(stats, options);
  }

  /**
    Standard input is read exactly when the last argument after the
    program name that is not a flag is "stdin", or when there is none.
   */
  lemma StandardInputIffLastOperand(args: seq<string>)
    ensures ResolveSource(Parse(args)) == StandardInput
            <==> IsLastOperand(Operands(args), StdinName, StdinName)
  {
    var o := Parse(args);
    ScanFilename(Initial(args), Operands(args));
    if IsLastOperand(Operands(args), StdinName, StdinName) {
      LastOperandUnique(Operands(args), StdinName, StdinName, o.filename);
    }
  }

  /** Naming "stdin" last reads standard input, exactly as naming no file does. */
  lemma StdinArgumentIsStandardInput(args: seq<string>)
    ensures ResolveSource(Parse(args + [StdinName])) == StandardInput
  {
    var rest := Operands(args + [StdinName]);
    if args != [] {
      assert rest == Operands(args) + [StdinName];
      assert rest[..|rest| - 1] == Operands(args);
      assert !IsFlag(StdinName) by { assert StdinName[1] == 't'; }
    }
  }

  /** An unknown flag is taken as a file name, so a run with `-x` and no such file fails to open it. */
  lemma UnknownFlagIsFileName(name: string)
    ensures ResolveSource(Parse([name, "-x"])) == FileSource("-x")
  {
    assert Operands([name, "-x"]) == ["-x"] && ["-x"][..0] == [];
    assert !IsFlag("-x") by { assert "-x"[1] == 'x'; }
  }

  /** For the same counts, the output line does not depend on the order of the arguments after the program name. */
  lemma OutputIgnoresArgumentOrder(st: Stats, a1: seq<string>, a2: seq<string>)
    requires |a1| == |a2|
    requires multiset(Operands(a1)) == multiset(Operands(a2))
    ensures ShowStats(st, Parse(a1)) == ShowStats(st, Parse(a2))
  {
    PermutedArgumentsSameReports(a1, a2);
    var o1, o2 := Parse(a1), Parse(a2);
    assert o1.lines == o2.lines && o1.words == o2.words && o1.bytes == o2.bytes && o1.chars == o2.chars;
  }

  /** An empty input has no lines, so every counter is zero. */
  lemma EmptyInput()
    ensures Total(Lines("")) == Zero
  {}

  /** A word holds neither '\n' nor '\r', both being whitespace. */
  lemma WordHasNoTerminator(x: string)
    requires NoWhitespace(x)
    ensures '\n' !in x && '\r' !in x && Newlines(x) == 0
  {
    assert IsWhitespace('\n') && IsWhitespace('\r');
  }

  /** A word followed by a whitespace character adds one word, and a '\n' among the newlines. */
  lemma WordThen(x: string, w: char, rest: string)
    requires x != [] && NoWhitespace(x) && IsWhitespace(w)
    ensures WordCount(x + [w] + rest) == 1 + WordCount(rest)
    ensures Newlines(x + [w] + rest) == (if w == '\n' then 1 else 0) + Newlines(rest)
    ensures '\r' !in rest && w != '\r' ==> '\r' !in x + [w] + rest
  {
    WordCountSplit(x, w, rest);
    OneWord(x);
    WordHasNoTerminator(x);
    assert multiset(x + [w] + rest) == multiset(x) + multiset{w} + multiset(rest);
  }

  lemma TwoWordsText(x: string, y: string)
    ensures x + " " + y + "\n" == x + [' '] + (y + ['\n'] + [])
  {}

  lemma TwoWordsCounts(x: string, y: string)
    requires x != [] && y != [] && NoWhitespace(x) && NoWhitespace(y)
    ensures Total(Lines(x + " " + y + "\n")).lines == 1
    ensures Total(Lines(x + " " + y + "\n")).words == 2
  {
    var text := x + " " + y + "\n";
    TwoWordsText(x, y);
    WordThen(y, '\n', []);
    WordThen(x, ' ', y + ['\n'] + []);
    TotalLinesOfText(text);
    TotalWordsOfLines(text);
    assert text[|text| - 1] == '\n';
  }

  lemma TwoWordsOptions(name: string, file: string)
    requires !IsFlag(file)
    ensures var o := Parse([name, "-w", "-l", file]);
            o.lines && o.words && !o.bytes && !o.chars
  {
    var rest := ["-w", "-l", file];
    assert Operands([name, "-w", "-l", file]) == rest;
    ScanFlags(Initial([name, "-w", "-l", file]), rest);
    assert "-c" != "-w" && "-c" != "-l" && "-m" != "-w" && "-m" != "-l";
  }

  lemma ShowLinesAndWords(st: Stats, o: Options)
    requires o.lines && o.words && !o.bytes && !o.chars
    requires st.lines == 1 && st.words == 2
    ensures ShowStats(st, o) == "   1   2\n"
  {
    assert Decimal(1) == "1" && Decimal(2) == "2";
  }

  /**
    A file holding one line of two words, such as "hello world\n", counted
    with `-w -l`: one line and two words, lines first whatever the flag
    order.
   */
  lemma TwoWordsScenario(name: string, file: string, x: string, y: string)
    requires !IsFlag(file)
    requires x != [] && y != [] && NoWhitespace(x) && NoWhitespace(y)
    ensures ShowStats(Total(Lines(x + " " + y + "\n")), Parse([name, "-w", "-l", file])) == "   1   2\n"
  {
    TwoWordsCounts(x, y);
    TwoWordsOptions(name, file);
    ShowLinesAndWords(Total(Lines(x + " " + y + "\n")), Parse([name, "-w", "-l", file]));
  }

  lemma ThreeWordsText(x: string, y: string, z: string)
    ensures x + " " + y + "\n" + z + "\n" == x + [' '] + (y + ['\n'] + (z + ['\n'] + []))
  {}

  lemma ThreeWordsShape(x: string, y: string, z: string)
    requires x != [] && y != [] && z != [] && NoWhitespace(x) && NoWhitespace(y) && NoWhitespace(z)
    ensures var text := x + " " + y + "\n" + z + "\n";
            WordCount(text) == 3 && Newlines(text) == 2 && '\r' !in text && Unterminated(text) == 0
  {
    var text := x + " " + y + "\n" + z + "\n";
    ThreeWordsText(x, y, z);
    assert '\r' !in [];
    WordThen(z, '\n', []);
    WordThen(y, '\n', z + ['\n'] + []);
    WordThen(x, ' ', y + ['\n'] + (z + ['\n'] + []));
    assert text[|text| - 1] == '\n';
  }

  lemma ThreeWordsCounts(x: string, y: string, z: string)
    requires x != [] && y != [] && z != [] && NoWhitespace(x) && NoWhitespace(y) && NoWhitespace(z)
    ensures var text := x + " " + y + "\n" + z + "\n";
            Total(Lines(text)) == Stats(Utf8Length(text), 2, 3, |text|)
  {
    var text := x + " " + y + "\n" + z + "\n";
    ThreeWordsShape(x, y, z);
    TotalLinesOfText(text);
    TotalWordsOfLines(text);
    TotalOfText(text);
  }

  lemma ShowDefaultReports(st: Stats)
    requires st.lines == 2 && st.words == 3
    ensures ShowStats(st, Options(true, true, true, false, StdinName)) == "   2   3   " + Decimal(st.bytes) + "\n"
  {
    assert Decimal(2) == "2" && Decimal(3) == "3";
  }

  /**
    No arguments and two lines of three words on standard input, such as
    "a b\nc\n": lines, words and bytes are reported, chars are not, and
    the byte count is the input's UTF-8 length.
   */
  lemma DefaultModeScenario(name: string, x: string, y: string, z: string)
    requires x != [] && y != [] && z != [] && NoWhitespace(x) && NoWhitespace(y) && NoWhitespace(z)
    ensures var text := x + " " + y + "\n" + z + "\n";
            ShowStats(Total(Lines(text)), Parse([name])) == "   2   3   " + Decimal(Utf8Length(text)) + "\n"
  {
    ThreeWordsCounts(x, y, z);
    NoArguments(name);
    ShowDefaultReports(Total(Lines(x + " " + y + "\n" + z + "\n")));
  }
}
