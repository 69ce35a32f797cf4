/**
  `Options::new`: the command line, program name first, read left to right
  into four report flags and a file name.
 */
module Args {

  datatype Options = Options(bytes: bool, lines: bool, words: bool, chars: bool, filename: string)

  /** The file name that means "read standard input". */
  const StdinName: string := "stdin"

  predicate IsFlag(arg: string) {
    arg == "-c" || arg == "-l" || arg == "-w" || arg == "-m"
  }

  /** The arguments after the program name (`args.iter().skip(1)`). */
  function Operands(args: seq<string>): seq<string> {
    if |args| == 0 then [] else args[1..]
  }

  /** Default mode: the program name and at most one more argument. */
  predicate IsDefaultMode(args: seq<string>) {
    |args| < 3
  }

  /** The options before any argument is read. */
  function Initial(args: seq<string>): Options {
    var d := IsDefaultMode(args);
    Options(d, d, d, false, StdinName)
  }

  /** Reading one argument: a flag sets its report, anything else replaces the file name. */
  function Step(o: Options, arg: string): Options {
    if arg == "-c" then o.(bytes := true)
    else if arg == "-l" then o.(lines := true)
    else if arg == "-w" then o.(words := true)
    else if arg == "-m" then o.(chars := true)
    else o.(filename := arg)
  }

  /** Reading the arguments one after the other, from `o`. */
  function Scan(o: Options, rest: seq<string>): Options {
    if rest == [] then o else Step(Scan(o, rest[..|rest| - 1]), rest[|rest| - 1])
  }

  /** The options a command line yields. */
  function Parse(args: seq<string>): Options {
    Scan(Initial(args), Operands(args))
  }

  /**
    The file name is the last argument that is not a flag, or the
    starting name when there is none.
   */
  predicate IsLastOperand(rest: seq<string>, start: string, name: string) {
    || ((forall j | 0 <= j < |rest| :: IsFlag(rest[j])) && name == start)
    || (exists i | 0 <= i < |rest| ::
          !IsFlag(rest[i]) && rest[i] == name && forall j | i < j < |rest| :: IsFlag(rest[j]))
  }

  /** The report a flag turns on. */
  function Reports(o: Options, flag: string): bool
    requires IsFlag(flag)
  {
    if flag == "-c" then o.bytes else if flag == "-l" then o.lines
    else if flag == "-w" then o.words else o.chars
  }

  lemma {:induction false} ScanFlag(o: Options, rest: seq<string>, flag: string)
    requires IsFlag(flag)
    ensures Reports(Scan(o, rest), flag) == (Reports(o, flag) || flag in rest)
  {
    if rest != [] {
      var init := rest[..|rest| - 1];
      ScanFlag(o, init, flag);
      assert rest == init + [rest[|rest| - 1]];
    }
  }

  /**
    A flag is set after the scan exactly when it was set before or appears
    in the arguments; no step clears one.
   */
  lemma ScanFlags(o: Options, rest: seq<string>)
    ensures Scan(o, rest).bytes == (o.bytes || "-c" in rest)
    ensures Scan(o, rest).lines == (o.lines || "-l" in rest)
    ensures Scan(o, rest).words == (o.words || "-w" in rest)
    ensures Scan(o, rest).chars == (o.chars || "-m" in rest)
  {
    ScanFlag(o, rest, "-c");
    ScanFlag(o, rest, "-l");
    ScanFlag(o, rest, "-w");
    ScanFlag(o, rest, "-m");
  }

  /** Last writer wins for the file name. */
  lemma {:induction false} ScanFilename(o: Options, rest: seq<string>)
    ensures IsLastOperand(rest, o.filename, Scan(o, rest).filename)
  {
    if rest != [] {
      var n := |rest| - 1;
      var init := rest[..n];
      ScanFilename(o, init);
      if IsFlag(rest[n]) {
        var f := Scan(o, init).filename;
        assert Scan(o, rest).filename == f;
        if forall j | 0 <= j < |init| :: IsFlag(init[j]) {
          assert forall j | 0 <= j < |rest| :: IsFlag(rest[j]) by {
            forall j | 0 <= j < |rest| ensures IsFlag(rest[j]) {
              if j < n { assert rest[j] == init[j]; }
            }
          }
        } else {
          var i :| 0 <= i < |init| && !IsFlag(init[i]) && init[i] == f
                   && forall j | i < j < |init| :: IsFlag(init[j]);
          assert rest[i] == init[i];
          assert forall j | i < j < |rest| :: IsFlag(rest[j]) by {
            forall j | i < j < |rest| ensures IsFlag(rest[j]) {
              if j < n { assert rest[j] == init[j]; }
            }
          }
        }
      } else {
        assert Scan(o, rest).filename == rest[n];
      }
    }
  }

  /**
    `Options::new`. In default mode bytes, lines and words start set;
    otherwise all four start clear. Each flag present sets its report on
    top of that, and the file name is the last argument after the program
    name that is not a flag, or "stdin".
   */
  method NewOptions(args: seq<string>) returns (o: Options)
    ensures o == Parse(args)
    ensures o.bytes == (IsDefaultMode(args) || "-c" in Operands(args))
    ensures o.lines == (IsDefaultMode(args) || "-l" in Operands(args))
    ensures o.words == (IsDefaultMode(args) || "-w" in Operands(args))
    ensures o.chars == ("-m" in Operands(args))
    ensures IsLastOperand(Operands(args), StdinName, o.filename)
  {
    var rest := Operands(args);
    var default := |args| < 3;
    var bytes, lines, words, chars := default, default, default, false;
    var filename := StdinName;
    for i := 0 to |rest|
      invariant Options(bytes, lines, words, chars, filename) == Scan(Initial(args), rest[..i])
    {
      var arg := rest[i];
      assert rest[..i + 1][..i] == rest[..i];
      if arg == "-c" {
        bytes := true;
      } else if arg == "-l" {
        lines := true;
      } else if arg == "-w" {
        words := true;
      } else if arg == "-m" {
        chars := true;
      } else {
        filename := arg;
      }
    }
    assert rest[..|rest|] == rest;
    o := Options(bytes, lines, words, chars, filename);
    ScanFlags(Initial(args), rest);
    ScanFilename(Initial(args), rest);
  }

  /**
    The four reports depend only on whether the command line is in default
    mode and on which flags occur: repeating a flag or reordering the
    arguments changes none of them.
   */
  lemma SameFlagsSameReports(a1: seq<string>, a2: seq<string>)
    requires IsDefaultMode(a1) == IsDefaultMode(a2)
    requires forall f | IsFlag(f) :: f in Operands(a1) <==> f in Operands(a2)
    ensures Parse(a1).(filename := StdinName) == Parse(a2).(filename := StdinName)
  {
    ScanFlags(Initial(a1), Operands(a1));
    ScanFlags(Initial(a2), Operands(a2));
    assert IsFlag("-c") && IsFlag("-l") && IsFlag("-w") && IsFlag("-m");
  }

  /** Reordering the arguments after the program name changes none of the reports. */
  lemma PermutedArgumentsSameReports(a1: seq<string>, a2: seq<string>)
    requires |a1| == |a2|
    requires multiset(Operands(a1)) == multiset(Operands(a2))
    ensures Parse(a1).(filename := StdinName) == Parse(a2).(filename := StdinName)
  {
    forall f | IsFlag(f) ensures f in Operands(a1) <==> f in Operands(a2) {
      assert f in Operands(a1) <==> f in multiset(Operands(a1));
      assert f in Operands(a2) <==> f in multiset(Operands(a2));
    }
    SameFlagsSameReports(a1, a2);
  }

  /** The last-operand description pins the file name down: at most one name meets it. */
  lemma LastOperandUnique(rest: seq<string>, start: string, n1: string, n2: string)
    requires IsLastOperand(rest, start, n1) && IsLastOperand(rest, start, n2)
    ensures n1 == n2
  {
    if forall j | 0 <= j < |rest| :: IsFlag(rest[j]) {
    } else {
      var i1 :| 0 <= i1 < |rest| && !IsFlag(rest[i1]) && rest[i1] == n1
                && forall j | i1 < j < |rest| :: IsFlag(rest[j]);
      var i2 :| 0 <= i2 < |rest| && !IsFlag(rest[i2]) && rest[i2] == n2
                && forall j | i2 < j < |rest| :: IsFlag(rest[j]);
      assert i1 == i2;
    }
  }

  /**
    Within the scan, giving a flag again anywhere after it was first given
    changes nothing at all, the file name included.
   */
  lemma {:induction false} RepeatedFlag(o: Options, a: seq<string>, b: seq<string>, f: string)
    requires IsFlag(f) && f in a
    ensures Scan(o, a + [f] + b) == Scan(o, a + b)
  {
    if b == [] {
      assert a + [f] + b == a + [f] && a + b == a;
      assert (a + [f])[..|a|] == a;
      ScanFlag(o, a, f);
    } else {
      var n := |b| - 1;
      RepeatedFlag(o, a, b[..n], f);
      assert (a + [f] + b)[..|a + [f] + b| - 1] == a + [f] + b[..n];
      assert (a + b)[..|a + b| - 1] == a + b[..n];
    }
  }

  /**
    On a command line that is already past default mode, inserting a flag
    anywhere after an earlier copy of it changes nothing.
   */
  lemma RepeatedFlagOutsideDefaultMode(args: seq<string>, i: nat, f: string)
    requires IsFlag(f) && 1 <= i <= |args| && f in args[1..i] && !IsDefaultMode(args)
    ensures Parse(args[..i] + [f] + args[i..]) == Parse(args)
  {
    var longer := args[..i] + [f] + args[i..];
    assert Operands(longer) == args[1..i] + [f] + args[i..];
    assert Operands(args) == args[1..i] + args[i..];
    assert Initial(longer) == Initial(args);
    RepeatedFlag(Initial(args), args[1..i], args[i..], f);
  }

  /**
    On the command line, a repeated flag can end default mode: `-l` alone
    keeps bytes, lines and words on, while `-l -l` reports lines only.
   */
  lemma RepeatedFlagEndsDefaultMode(name: string)
    ensures Parse([name, "-l"]) == Options(true, true, true, false, StdinName)
    ensures Parse([name, "-l", "-l"]) == Options(false, true, false, false, StdinName)
  {
    assert Operands([name, "-l"]) == ["-l"] && ["-l"][..0] == [];
    var rest := ["-l", "-l"];
    assert Operands([name, "-l", "-l"]) == rest;
    assert rest[..1] == ["-l"] && rest[..1][..0] == [];
  }

  /** With only the program name, bytes, lines and words are reported from standard input. */
  lemma NoArguments(name: string)
    ensures Parse([name]) == Options(true, true, true, false, StdinName)
  {
    assert Operands([name]) == [];
  }

  /** In default mode an explicit flag adds to the defaults instead of replacing them. */
  lemma DefaultModeFlagAdds(name: string)
    ensures Parse([name, "-m"]) == Options(true, true, true, true, StdinName)
  {
    assert Operands([name, "-m"]) == ["-m"];
    assert ["-m"][..0] == [];
  }

  /** Two or more arguments leave only the flags given, and an unknown flag becomes the file name. */
  lemma ExplicitFlags(name: string)
    ensures Parse([name, "-w", "-x"]) == Options(false, false, true, false, "-x")
  {
    var rest := ["-w", "-x"];
    assert Operands([name, "-w", "-x"]) == rest;
    assert rest[..1] == ["-w"] && rest[..1][..0] == [];
    var o := Initial([name, "-w", "-x"]);
    assert o == Options(false, false, false, false, StdinName);
    assert Scan(o, rest[..1]) == o.(words := true);
    assert "-x"[1] == 'x';
    assert !IsFlag("-x");
  }
}
