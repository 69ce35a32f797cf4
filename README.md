# wc — a verified model of a small word-count utility

The program counts the lines, words, bytes and characters of a file, or of
standard input, and prints the counts that were asked for. It has three
steps, plus the `main` function that joins them.

1. **Argument interpretation.** `Options::new` reads the command line into
   four report flags and a file name:
   - `-c` turns on bytes, `-l` lines, `-w` words and `-m` chars.
   - Any other argument replaces the file name, which starts as `"stdin"`.
   - With at most one argument after the program name ("default mode"),
     bytes, lines and words start on.
2. **Line-wise accumulation.** `process_file` and `process_stdin` split the
   text into lines and add four amounts per line:
   - one line;
   - the line's UTF-8 length plus one byte;
   - its number of Unicode scalar values plus one;
   - its number of whitespace-separated words.
3. **Output.** `show_stats_for_options` prints, in the fixed order lines,
   words, bytes, chars, three spaces and the decimal value of each enabled
   counter, and then a newline.

The Dafny modules follow these steps:

- `Utf8` (utf8.dfy): the UTF-8 encoding form of RFC 3629, sections 3 and 4.
  `Encode` is what `str::as_bytes` returns. `Decode` is the validation that
  reading a `String` performs. Both directions of the round trip are proved.
  A Dafny `char` is a Unicode scalar value, so a Rust `String` is a Dafny
  `string`, and `chars().count()` is its length.
- `Text` (text.dfy): several per-line measures.
  - `char::is_whitespace` is the Unicode White_Space property, written out as
    its 25 code points.
  - `split_whitespace().count()` is `WordCount`, a scan over the text.
  - `Words` is an independent reference definition of the maximal runs, and
    `WordCount` is proved equal to its length.
  - `lines()` is `Lines`.
- `Args` (args.dfy): `Options` as a datatype. `NewOptions` is the loop of
  `Options::new`, proved against the fold `Scan` of the one-argument step
  `Step`. The fold's closed form is proved as lemmas.
- `Counting` (counting.dfy): `Stats` as a datatype.
  - `CountLines` is the shared counter loop of `process_file` and
    `process_stdin`, proved against `Total`, the sum of what each line adds.
  - `ProcessFile` and `ProcessStdin` are the two entry points, with their
    different failure behaviour.
- `Report` (report.dfy): `ShowStats` builds the output line as a string.
  `ParseReport` reads it back, and the round trip shows that the line holds
  exactly the enabled counters, in order.
- `Wc` (wc.dfy): `Run` is `main`. It parses the arguments, chooses between
  standard input and a file, counts the text and formats the result. Some
  lemmas work through concrete scenarios.

The environment is given as parameters:
- the argument list;
- the bytes waiting on standard input;
- the file system, as a map from readable paths to their contents.

### Behaviour the model fixes where the conventional reading of the tool differs from the code

- Default mode is `args.len() < 3` counted *with* the program name
  (wc/src/main.rs:32). So it means "at most one argument after the program
  name", not "fewer than two arguments in total, the program name
  included", which would leave only the bare program name in default mode.
- An empty input has **no** lines. Rust's `lines()` yields nothing for `""`,
  so every counter is 0 (`Wc.EmptyInput`), not lines=1, bytes=1 and
  chars=1 as one might expect from the "+1 per line" convention.
- Repeating a flag is harmless only inside the argument loop. On the
  command line the extra token also counts towards `args.len() < 3`, so
  `wc -l` reports lines, words and bytes while `wc -l -l` reports lines
  only (`Args.RepeatedFlagEndsDefaultMode`). Once the command line is past
  default mode, repeating a flag anywhere after an earlier copy of it
  changes nothing, the file name included
  (`Args.RepeatedFlagOutsideDefaultMode`).
- The "+1 per line" convention is kept as the code has it. A last line
  without `'\n'` still adds one byte and one char. `Counting.TotalOfText`
  states this exactly: for text without `'\r'`, bytes is the UTF-8 length
  plus 1 when the text is non-empty and does not end in `'\n'`.
- `lines()` strips a `'\r'` only when it stands right before a `'\n'`. A
  trailing `'\r'` with no `'\n'` after it stays in the line. This is how
  `BufRead::lines` and current `str::lines` behave.
- Invalid UTF-8 behaves differently on the two paths. In a file it panics:
  `line_result.unwrap()` at line 70. On standard input `read_to_string`
  fails and leaves the buffer empty, and the program ignores that error at
  line 86, so it prints zero counts. `Counting.CountBothWays` states both
  outcomes.

## Model

| member | source | states |
|---|---|---|
| `Utf8.EncodeLength` | wc/src/main.rs:73 | the number of bytes `as_bytes()` yields equals `Utf8Length`, the sum of the per-scalar widths of RFC 3629 |
| `Utf8.Utf8LengthBounds` | wc/src/main.rs:73-74 | each scalar value takes 1 to 4 bytes, so \|s\| <= byte length <= 4·\|s\| |
| `Utf8.Utf8LengthAscii` | wc/src/main.rs:73-74 | byte length equals scalar count if and only if every scalar is below 0x80 |
| `Utf8.Utf8LengthAppend` | wc/src/main.rs:73 | byte length is additive over concatenation |
| `Utf8.EncodeScalarShape` | wc/src/main.rs:73 | an encoded scalar's lead byte announces its width, and the following bytes are continuation bytes |
| `Utf8.DecodeEncodeScalar` | wc/src/main.rs:70 | decoding one encoded scalar value gives it back |
| `Utf8.EncodeDecodeScalar` | wc/src/main.rs:70 | every one-scalar byte sequence that decodes is the encoding of its value (no overlong form, surrogate or out-of-range value is accepted) |
| `Utf8.DecodeEncode` | wc/src/main.rs:69-70 | the text-level decoder inverts `as_bytes()` on every string |
| `Utf8.EncodeDecode` | wc/src/main.rs:86 | every byte sequence the decoder accepts is the encoding of the text it returns |
| `Text.WordCountIsWords` | wc/src/main.rs:75 | the scan-based word count equals the number of maximal non-whitespace runs that `split_whitespace` yields |
| `Text.WordsAreRuns` | wc/src/main.rs:75 | every word is non-empty and holds no whitespace |
| `Text.WordCountSplit` | wc/src/main.rs:75 | a whitespace character between two texts separates their words: the counts add |
| `Text.NoWordsIffAllWhitespace` | wc/src/main.rs:75 | a line has no words exactly when it is empty or all whitespace |
| `Text.ExtraWhitespace` | wc/src/main.rs:75 | leading, trailing or repeated whitespace does not change the word count |
| `Text.OneWord` | wc/src/main.rs:75 | a non-empty text without whitespace counts as one word |
| `Text.LinesCount` | wc/src/main.rs:69 | `lines()` yields one line per `'\n'` plus one for a non-empty unterminated tail; `""` gives none |
| `Text.LinesHaveNoNewline` | wc/src/main.rs:93 | no line returned by `lines()` contains `'\n'` |
| `Text.LinesRoundTrip` | wc/src/main.rs:93 | for text without `'\r'`, appending `'\n'` to each line rebuilds the text, plus one `'\n'` if it was missing at the end |
| `Counting.TotalAppend` | wc/src/main.rs:72-75 | processing one more line adds exactly that line's four amounts |
| `Counting.CountLines` | wc/src/main.rs:64-78 | the counter loop (shared by the stdin path, lines 88-102) returns the four sums over the lines; lines equals the number of lines, and lines <= chars <= bytes holds at every step |
| `Counting.TotalOrdering` | wc/src/main.rs:72-74 | after any line sequence, lines == \|L\| and lines <= chars <= bytes |
| `Counting.TotalAscii` | wc/src/main.rs:73-74 | bytes == chars if and only if every line is ASCII |
| `Counting.TotalMonotone` | wc/src/main.rs:64-76 | counters start at zero and never decrease as more lines are processed |
| `Counting.TotalOfTerminated` | wc/src/main.rs:73-74 | bytes and chars equal the UTF-8 length and the scalar count of the lines, each with a `'\n'` appended |
| `Counting.TotalWordsOfLines` | wc/src/main.rs:69-75 | the summed words of the lines equal the word count of the whole text (splitting into lines loses no word) |
| `Counting.TotalLinesOfText` | wc/src/main.rs:69-72 | the line counter is the number of `'\n'` plus one for an unterminated last line |
| `Counting.TotalOfText` | wc/src/main.rs:69-74 | for text without `'\r'`, bytes is its UTF-8 length and chars its length, each plus one when the last line lacks `'\n'` |
| `Counting.CountText` | wc/src/main.rs:93-102 | counting a decoded text yields those closed forms for all four counters |
| `Counting.ProcessFile` | wc/src/main.rs:60-79 | a missing file fails to open, a file that is not UTF-8 fails, and otherwise the result is the counts of its decoded lines |
| `Counting.ProcessStdin` | wc/src/main.rs:81-103 | valid UTF-8 input gives the counts of its decoded lines; invalid input leaves the buffer empty and gives all zeros |
| `Counting.FileByteCount` | wc/src/main.rs:60-78 | for a UTF-8 file without `'\r'`, bytes is the file size plus one when the last line has no `'\n'` |
| `Counting.CountBothWays` | wc/src/main.rs:60-103 | the file path and the stdin path give the same `Stats` for the same valid bytes; on invalid bytes the file path fails and the stdin path counts nothing |
| `Args.NewOptions` | wc/src/main.rs:31-50 | each flag is on exactly when it is a default (`args.len() < 3`, not for `-m`) or appears after the program name; the file name is the last non-flag argument, or `"stdin"` |
| `Args.ScanFlag` | wc/src/main.rs:39-47 | after any arguments, a report is on exactly when it was on before or its flag appears; no step clears it |
| `Args.ScanFlags` | wc/src/main.rs:39-47 | the same for all four reports |
| `Args.ScanFilename` | wc/src/main.rs:37-47 | last writer wins: the file name is the last non-flag argument, or the starting name if every argument is a flag |
| `Args.SameFlagsSameReports` | wc/src/main.rs:32-47 | the four reports depend only on default mode and on which flags occur |
| `Args.PermutedArgumentsSameReports` | wc/src/main.rs:39-47 | permuting the arguments after the program name yields the same four reports |
| `Args.RepeatedFlag` | wc/src/main.rs:41-44 | within the scan, giving a flag again anywhere after its first occurrence leaves the whole options value, file name included, unchanged |
| `Args.RepeatedFlagOutsideDefaultMode` | wc/src/main.rs:32-47 | on a command line past default mode, inserting a flag at any position after an earlier copy of it leaves the options unchanged |
| `Args.RepeatedFlagEndsDefaultMode` | wc/src/main.rs:32-44 | `-l` alone reports lines, words and bytes, but `-l -l` reports lines only, because the extra token ends default mode |
| `Args.LastOperandUnique` | wc/src/main.rs:37-45 | at most one file name is the last non-flag argument (or the starting name), so the file name is determined by the arguments |
| `Args.NoArguments` | wc/src/main.rs:32-37 | with only the program name: bytes, lines and words on, chars off, standard input |
| `Args.DefaultModeFlagAdds` | wc/src/main.rs:32-44 | in default mode an explicit `-m` adds to the defaults instead of replacing them |
| `Args.ExplicitFlags` | wc/src/main.rs:32-45 | with two or more arguments nothing is on by default, and an unknown flag `-x` becomes the file name |
| `Report.DecimalRoundTrip` | wc/src/main.rs:106-109 | reading back a printed counter gives its value |
| `Report.DecimalNoLeadingZero` | wc/src/main.rs:106-109 | a printed counter starts with `'0'` only when it is zero |
| `Report.ShowStatsFields` | wc/src/main.rs:105-111 | the output is the enabled counters' fields, in the order lines, words, bytes, chars, followed by `"\n"` |
| `Report.ReportRoundTrip` | wc/src/main.rs:105-111 | parsing the output line yields exactly the enabled counters in the fixed order, so a disabled counter never appears |
| `Report.ReportIsOneLine` | wc/src/main.rs:110 | the output ends in `'\n'` and has no other newline |
| `Wc.Run` | wc/src/main.rs:7-20 | a run fails only when the named file is missing or not UTF-8; otherwise it outputs the formatted counts of the chosen input, and that output parses back to the enabled counters |
| `Wc.StandardInputIffLastOperand` | wc/src/main.rs:13-17 | for every command line, standard input is read exactly when the last non-flag argument after the program name is `stdin` or there is none |
| `Wc.StdinArgumentIsStandardInput` | wc/src/main.rs:13-17 | for every command line, appending a literal `stdin` argument selects standard input, the same source as giving no file name |
| `Wc.UnknownFlagIsFileName` | wc/src/main.rs:45 | an unknown flag `-x` is taken as a file to open, not rejected |
| `Wc.OutputIgnoresArgumentOrder` | wc/src/main.rs:105-110 | for the same counts, the output line does not depend on the order of the arguments (which file is read still can) |
| `Wc.EmptyInput` | wc/src/main.rs:93-102 | an empty input has no lines, so all four counters are zero |
| `Wc.WordThen` | wc/src/main.rs:75 | a word followed by whitespace adds one word, and one line break if it is `'\n'` |
| `Wc.TwoWordsScenario` | wc/src/main.rs:105-110 | one line of two words (for example `"hello world\n"`) counted with `-w -l` prints `"   1   2\n"` |
| `Wc.DefaultModeScenario` | wc/src/main.rs:32-36 | with no arguments, two lines of three words (for example `"a b\nc\n"`) print lines 2, words 3 and the byte count, and not chars |

## Left out

- Operating-system I/O is not modelled: `env::args`, `File::open`, `BufReader`, `io::stdin` and `print!`. The arguments, the standard-input bytes and a map from readable paths to file contents are parameters, and the output is a returned string.
- The two `unwrap()` panics (an open failure, invalid UTF-8 in a file) are modelled as `Err` results. The panic message and the exit status are not modelled.
- Read errors other than invalid UTF-8 are not modelled (a disk error in mid-file, or a failing standard input). The ignored `read_to_string` result is modelled only for invalid UTF-8.
- A file is split on the byte 0x0A and then decoded line by line; the model decodes the whole file and then splits it. The result is the same: 0x0A never occurs inside a multi-byte sequence, and any invalid line makes the run panic before anything is printed.
- Counters are unbounded naturals; `usize` overflow is not modelled. On a 32-bit target a streamed file can overflow `bytes` (wc/src/main.rs:64, 73) once the count passes `usize::MAX`, which panics in a debug build and wraps in a release build. For a file without `'\r'` `bytes` is its size plus one for a missing final `'\n'` (`Counting.FileByteCount`), so this happens exactly when that sum reaches 2^32, that is for a file of 4 GiB or more, or of 4 GiB less one byte with no final `'\n'`. Each stripped `'\r'` lowers the count by one, so a file with `"\r\n"` endings may be larger before it overflows. On a 64-bit target every counter is at most twice the input size, so the limit cannot be reached.
- Counting.TotalOfText: the closed forms for bytes and chars are stated only for text without `'\r'`. With `"\r\n"` endings each stripped `'\r'` is also left out of bytes and chars, and that case is not stated as a closed form. `Counting.CountLines` still gives the exact sums for every input.
- Counting.FileByteCount: stated only for files without `'\r'`, for the same reason.
