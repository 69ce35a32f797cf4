/**
  `show_stats_for_options`: the output line, built as a string. Each
  enabled counter, in the fixed order lines, words, bytes, chars, is
  written as three spaces and its decimal value; a newline ends the line.
 */
module Report {
  import opened Wrappers
  import opened Args
  import opened Counting

  predicate IsDigit(c: char) {
    '0' <= c <= '9'
  }

  function DigitChar(d: nat): (c: char)
    requires d < 10
    ensures IsDigit(c)
  {
    ('0' as int + d) as char
  }

  /** Rust's `{}` for an unsigned integer: decimal digits, no leading zero. */
  function Decimal(n: nat): (s: string)
    ensures |s| >= 1
    ensures forall i | 0 <= i < |s| :: IsDigit(s[i])
  {
    if n < 10 then [DigitChar(n)] else Decimal(n / 10) + [DigitChar(n % 10)]
  }

  /** The value of a string of decimal digits. */
  function DecimalValue(s: string): nat
    requires forall i | 0 <= i < |s| :: IsDigit(s[i])
  {
    if s == [] then 0
    else
      assert IsDigit(s[|s| - 1]);
      10 * DecimalValue(s[..|s| - 1]) + (s[|s| - 1] as int - '0' as int)
  }

  /** Reading a printed number back gives the number. */
  lemma {:induction false} DecimalRoundTrip(n: nat)
    ensures DecimalValue(Decimal(n)) == n
  {
    if n >= 10 {
      var s := Decimal(n);
      assert s[..|s| - 1] == Decimal(n / 10);
      DecimalRoundTrip(n / 10);
    }
  }

  /** Only zero prints with a leading '0'. */
  lemma {:induction false} DecimalNoLeadingZero(n: nat)
    ensures Decimal(n)[0] == '0' <==> n == 0
  {
    if n >= 10 {
      DecimalNoLeadingZero(n / 10);
    }
  }

  /** One `print!("   {}", value)`, or nothing when the counter is not enabled. */
  function Field(enabled: bool, value: nat): string {
    if enabled then "   " + Decimal(value) else ""
  }

  /** The output line of `show_stats_for_options`. */
  function ShowStats(st: Stats, o: Options): string {
    Field(o.lines, st.lines) + Field(o.words, st.words) + Field(o.bytes, st.bytes)
      + Field(o.chars, st.chars) + "\n"
  }

  /** The enabled counters in the order the output uses. */
  function Selected(st: Stats, o: Options): seq<nat> {
    (if o.lines then [st.lines] else []) + (if o.words then [st.words] else [])
      + (if o.bytes then [st.bytes] else []) + (if o.chars then [st.chars] else [])
  }

  /** The fields for a list of values, each as three spaces and the number. */
  function Fields(vs: seq<nat>): string {
    if vs == [] then [] else "   " + Decimal(vs[0]) + Fields(vs[1..])
  }

  /** Length of the run of digits at the start of `s`. */
  function DigitRun(s: string): (n: nat)
    ensures n <= |s|
    ensures forall i | 0 <= i < n :: IsDigit(s[i])
  {
    if s == [] || !IsDigit(s[0]) then 0 else 1 + DigitRun(s[1..])
  }

  /** Reads back a sequence of fields; `None` if the text is not one. */
  function ParseFields(s: string): Option<seq<nat>>
    decreases |s|
  {
    if s == [] then Some([])
    else if |s| < 4 || s[0] != ' ' || s[1] != ' ' || s[2] != ' ' then None
    else
      var k := DigitRun(s[3..]);
      if k == 0 then None
      else match ParseFields(s[3 + k..])
        case None => None
        case Some(rest) => Some([DecimalValue(s[3..3 + k])] + rest)
  }

  /** Reads back an output line: fields followed by one newline. */
  function ParseReport(s: string): Option<seq<nat>> {
    if s == [] || s[|s| - 1] != '\n' then None else ParseFields(s[..|s| - 1])
  }

  lemma {:induction false} DigitRunOfDecimal(d: string, rest: string)
    requires |d| >= 1 && forall i | 0 <= i < |d| :: IsDigit(d[i])
    requires rest == [] || rest[0] == ' '
    ensures DigitRun(d + rest) == |d|
    decreases |d|
  {
    assert (d + rest)[0] == d[0];
    if |d| == 1 {
      assert (d + rest)[1..] == rest;
    } else {
      assert (d + rest)[1..] == d[1..] + rest;
      DigitRunOfDecimal(d[1..], rest);
    }
  }

  /** One field in front of text that is empty or starts another field is read as that number. */
  lemma ParseFieldsStep(s: string, d: string, tail: string)
    requires |d| >= 1 && forall i | 0 <= i < |d| :: IsDigit(d[i])
    requires tail == [] || tail[0] == ' '
    requires s == "   " + d + tail
    ensures ParseFields(tail).None? ==> ParseFields(s).None?
    ensures ParseFields(tail).Some? ==> ParseFields(s) == Some([DecimalValue(d)] + ParseFields(tail).value)
  {
    assert |s| >= 4 && s[0] == ' ' && s[1] == ' ' && s[2] == ' ';
    var after := s[3..];
    assert after == d + tail;
    DigitRunOfDecimal(d, tail);
    assert after[..|d|] == d && after[|d|..] == tail;
    assert s[3..3 + |d|] == d;
    assert s[3 + |d|..] == tail;
  }

  lemma {:induction false} FieldsRoundTrip(vs: seq<nat>)
    ensures ParseFields(Fields(vs)) == Some(vs)
  {
    if vs != [] {
      var d := Decimal(vs[0]);
      var tail := Fields(vs[1..]);
      FieldsStartWithSpace(vs[1..]);
      ParseFieldsStep(Fields(vs), d, tail);
      DecimalRoundTrip(vs[0]);
      FieldsRoundTrip(vs[1..]);
      assert [vs[0]] + vs[1..] == vs;
    }
  }

  lemma FieldsStartWithSpace(vs: seq<nat>)
    ensures Fields(vs) == [] || Fields(vs)[0] == ' '
  {}

  lemma FieldsAppend(a: seq<nat>, b: seq<nat>)
    ensures Fields(a + b) == Fields(a) + Fields(b)
  {
    if a == [] {
      assert a + b == b;
    } else {
      assert (a + b)[0] == a[0] && (a + b)[1..] == a[1..] + b;
      FieldsAppend(a[1..], b);
    }
  }

  lemma ShowStatsFields(st: Stats, o: Options)
    ensures ShowStats(st, o) == Fields(Selected(st, o)) + "\n"
  {
    var l := if o.lines then [st.lines] else [];
    var w := if o.words then [st.words] else [];
    var b := if o.bytes then [st.bytes] else [];
    var c := if o.chars then [st.chars] else [];
    assert Fields([]) == "";
    forall v: nat ensures Fields([v]) == "   " + Decimal(v) {
      assert [v][1..] == [];
    }
    FieldsAppend(l, w);
    FieldsAppend(l + w, b);
    FieldsAppend(l + w + b, c);
  }

  /**
    The output line holds exactly the enabled counters, in the order
    lines, words, bytes, chars, and ends with one newline: reading it back
    gives them and nothing else. A disabled counter never appears.
   */
  lemma ReportRoundTrip(st: Stats, o: Options)
    ensures ParseReport(ShowStats(st, o)) == Some(Selected(st, o))
  {
    ShowStatsFields(st, o);
    var s := ShowStats(st, o);
    assert s[..|s| - 1] == Fields(Selected(st, o));
    FieldsRoundTrip(Selected(st, o));
  }

  lemma {:induction false} FieldsHaveNoNewline(vs: seq<nat>)
    ensures '\n' !in Fields(vs)
  {
    if vs != [] {
      FieldsHaveNoNewline(vs[1..]);
      var d := Decimal(vs[0]);
      assert forall i | 0 <= i < |d| :: d[i] != '\n';
    }
  }

  /** The output is one line: its only '\n' is the last character. */
  lemma ReportIsOneLine(st: Stats, o: Options)
    ensures |ShowStats(st, o)| > 0 && ShowStats(st, o)[|ShowStats(st, o)| - 1] == '\n'
    ensures '\n' !in ShowStats(st, o)[..|ShowStats(st, o)| - 1]
  {
    ShowStatsFields(st, o);
    var s := ShowStats(st, o);
    assert s[..|s| - 1] == Fields(Selected(st, o));
    FieldsHaveNoNewline(Selected(st, o));
  }
}
