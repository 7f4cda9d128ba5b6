# SapirStats input parsing and outcome rule, in Dafny

SapirStats is a one-page Streamlit form. It takes one or two comma-separated
lists of numbers and shows descriptive statistics for each list. When two
lists are given, it also shows two-sample "combination" statistics. This
project models the exact, non-floating-point part of `main.py`:

- `parse_numbers_input` (module `NumbersInput`) accepts a text only when
  `re.match(r'^\d+(,\d+)*$', text)` succeeds. It then splits the text at its
  commas, strips each piece and converts each piece with `float`. Any other
  text gives the empty list, which the caller treats as "invalid". The
  model keeps every step:
  - the regex match is a left-to-right recogniser (`ScanGroups`), and
    `RegexMatch` adds the way Python's `$` also matches before one final
    newline;
  - `str.split(',')`, `str.strip()` and `','.join` are in module `PyText`;
  - the value `float` gives a digit string is `Decimal.Value`, a natural
    number.
- The empty-list guard and the `size` entry of `calculate_stats` are in
  module `Stats`, with the `size - 1` divisor of the sample estimate.
- The accept/reject rule `main()` applies to the two texts is in module
  `App`, with the combined degrees of freedom `n1 + n2 - 2`.

The parser and the decision rule are compared with independent
definitions:
- `IsNumberList` is the language of `\d+(,\d+)*`, written over characters:
  digits and commas only, a digit at both ends, and a digit before every
  comma.
- `Accepted` is that language, optionally followed by one final newline.
- `NumberListPieces` restates the language as "one or more digit runs
  joined by single commas".
- `FormatNumbers` (`','.join(str(x) ...)`) is the printer for the
  round-trip lemma.

The regex forbids spaces, so `"1, 2"` gives the empty list even though
`strip` would trim the space; `ParseRejects` proves this. The `strip` call
only has an effect in the trailing-newline case, which is modelled.

## Model

| member | source | states |
|---|---|---|
| PyText.Split | main.py:12 | `text.split(',')` returns one piece per comma plus one, and no piece contains a comma |
| PyText.JoinSplit | main.py:12 | joining the pieces of `text.split(',')` with ',' gives the text back, so the pieces are the text's comma-separated parts in order |
| PyText.SplitJoin | main.py:12 | splitting the ','-join of comma-free pieces gives those pieces back, so split and join are inverses |
| PyText.IsSpaceChars | main.py:12 | the ASCII characters `str.isspace` accepts, written as ranges in `IsSpace`, are exactly space, \t, \n, \v, \f, \r and \x1c-\x1f |
| PyText.StripLeading | main.py:12 | the leading half of `strip`: a suffix of the piece that is empty or starts with a non-space, and everything removed before it is whitespace |
| PyText.StripTrailing | main.py:12 | the trailing half of `strip`: a prefix of the piece that is empty or ends with a non-space, and everything removed after it is whitespace |
| PyText.Strip | main.py:12 | `piece.strip()` is the piece with its leading and trailing whitespace removed: a slice of the piece preceded and followed only by whitespace, and empty or starting and ending with a non-space; a piece that already starts and ends with a non-space comes back unchanged |
| PyText.StripFinalNewline | main.py:12 | stripping a piece plus a final newline gives back the piece |
| Decimal.LeadingZero | main.py:12 | a leading '0' does not change the value `float` reads from a digit string ("007" is 7) |
| Decimal.Value | main.py:12 | the number `float` reads from a run of `k` ASCII digits, most significant first, is below ten to the `k` |
| Decimal.Render | main.py:12 | `str(n)` is a non-empty digit string, with no leading zero unless it is "0", whose value is `n`: reading it back gives `n` |
| NumbersInput.RecogniserDecidesGrammar | main.py:9 | the regex recogniser accepts exactly the number lists (digits and commas, a digit at both ends, a digit before every comma) |
| NumbersInput.ScanGroups | main.py:9 | the left-to-right pass of `\d+(,\d+)*` accepts only texts of digits and commas that end in a digit (or are empty with a group open) and whose leading comma needs an open group |
| NumbersInput.RegexMatch | main.py:9 | a text that `re.match(r'^\d+(,\d+)*$', s)` accepts is non-empty, starts with a digit, holds only digits and commas before its last character, and ends in a digit or in the one newline `$` allows |
| NumbersInput.RegexMatchAccepted | main.py:9 | `re.match(r'^\d+(,\d+)*$', s)` succeeds exactly on number lists, with or without one final newline |
| NumbersInput.NumberListPieces | main.py:9-12 | a text is a number list exactly when every comma-separated piece is a non-empty run of digits |
| NumbersInput.PiecesAreDigitRuns | main.py:9-12 | on a matching text every stripped piece is a non-empty digit string, so every `float` call succeeds |
| NumbersInput.ParseNumbersInput | main.py:8-14 | the result is non-empty exactly when the regex matches; a non-empty result has one number per comma plus one |
| NumbersInput.ParseAccepts | main.py:9-14 | the parser returns a non-empty list exactly on accepted texts (the grammar, plus an optional final newline) and the empty list on every other text |
| NumbersInput.ParseGroups | main.py:12 | `[float(n.strip()) for n in s.split(',')]` on a number list: the result has comma count plus one elements, and the i-th element is the decimal value of the i-th digit group, in input order |
| NumbersInput.ParseFinalNewline | main.py:9-12 | a number list followed by one newline parses to the same list as the number list itself |
| NumbersInput.FormatIsNumberList | main.py:9 | the ','-join of the decimal renderings of a non-empty list is in the grammar, with one comma fewer than the list has numbers |
| NumbersInput.ParseFormat | main.py:9-12 | round trip: parsing the ','-join of the decimal renderings of any non-empty list of naturals gives the list back |
| NumbersInput.ParseRejects | main.py:9-14 | "", "1,,2", "-1,2", "1, 2", ",1", "1,", "1.5" and "1,2\n\n" all parse to the empty list |
| NumbersInput.ParseExampleList | main.py:9-12 | "1,2,3" is in the grammar and parses to [1, 2, 3] |
| NumbersInput.ParseExampleLeadingZeros | main.py:12 | "007" parses to [7] |
| NumbersInput.ParseExampleFinalNewline | main.py:9-12 | "1,2,3\n" parses to [1, 2, 3] |
| Stats.CalculateStats | main.py:17-23 | `calculate_stats` gives the empty result exactly for the empty list; otherwise its size is the list's length, which is positive |
| Stats.EstimateDivisor | main.py:25 | the estimate's divisor `size - 1` is never negative for a non-empty list, and is zero exactly when the list holds one number |
| App.DegreesOfFreedom | main.py:84 | `df = n1 + n2 - 2` is the sum of the two lists' estimate divisors; it is never negative, and it is zero exactly when both lists hold one number |
| App.Calculate | main.py:53-70 | first list empty -> first-list error; else non-empty second text that parses empty -> second-list error; else empty second text -> first-list stats only; else both lists and the combination block. The sizes shown are the parsed lengths, and df is their sum minus 2 |
| App.CalculateByGrammar | main.py:53-70 | the same rule over the texts: an error exactly for a text outside the grammar (for the second text, only when it is not the empty string); each size shown is the text's comma count plus one, and df is the two comma counts added |
| App.SingleNumberEstimate | main.py:25 | the estimate of a shown list divides by zero exactly when its text has no comma |
| App.SingleNumberPooled | main.py:74-84 | the pooled variance's divisor df is zero exactly when neither text has a comma |
| App.CalculateExamples | main.py:53-70 | "" is a first-list error; a second text "1,,2" or " " is a second-list error; ("1,2,3", "") shows size 3 only; ("1,2,3", "1,2,3") shows sizes 3 and 3 with df 4 |

## Left out

- Floating-point statistics are not modelled: `std`, `mean`, the estimate
  `sqrt(sum((n - mean)^2) / (size - 1))`, and the combination formulas
  (pooled variance under equal and unequal variances, Welch–Satterthwaite
  df). They are numpy float arithmetic with `sqrt`, and Dafny has no exact
  model of them. Only their integer divisors are kept: `EstimateDivisor`
  and `DegreesOfFreedom`.
- The nan/inf that numpy produces, with a warning, when those divisors are
  zero is not modelled. The lemmas `SingleNumberEstimate` and
  `SingleNumberPooled` say exactly when the divisors are zero.
- Rounding to 4 places for display (`round(..., 4)`) is not modelled,
  because it only affects float display.
- Streamlit I/O is not modelled: page configuration, title, text inputs,
  the button, balloons, subheaders and markdown output, and the header
  strings such as "First list (3)". `Calculate` returns the outcome that
  one button press would show; if the button is not pressed, nothing
  happens.
- `float` is not modelled as floating point. Each element is the exact
  natural number its digits denote, so float's precision loss for integers
  above 2^53 is not modelled, nor its overflow to `inf` for digit runs
  denoting 2^1024 or more (about 309 digits and longer).
- Unicode is not modelled. `\d` is restricted to the ASCII digits. Python
  also matches other Unicode decimal digits, which `float` accepts. `strip`
  only removes the ASCII characters `str.isspace` accepts. On accepted
  input, the only whitespace that ever reaches `strip` is the final newline.
- Running the same inputs twice giving the same output needs no lemma:
  every member is a function.
