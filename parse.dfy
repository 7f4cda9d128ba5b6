/**
 `parse_numbers_input`: a text is accepted when it matches
 `^\d+(,\d+)*$`; it is then split at its commas, each piece is stripped and
 converted to a number. Every other text yields the empty list, which is
 also how the caller recognises an invalid text.
 */
module NumbersInput {
  import opened PyText
  import opened Decimal

  /**
   The regex engine's left-to-right pass of `\d+(,\d+)*` up to the end of
   the text. `inGroup` is true once the current group holds a digit: a digit
   extends the group, a comma closes a non-empty group, anything else fails.
   */
  function ScanGroups(s: string, inGroup: bool): (ok: bool)
    ensures ok ==> forall i :: 0 <= i < |s| ==> IsDigit(s[i]) || s[i] == ','
    ensures ok ==> if s == [] then inGroup else IsDigit(s[|s| - 1]) && (s[0] == ',' ==> inGroup)
    decreases |s|
  {
    if s == [] then inGroup
    else if IsDigit(s[0]) then ScanGroups(s[1..], true)
    else if s[0] == ',' && inGroup then ScanGroups(s[1..], false)
    else false
  }

  /**
   `re.match(r'^\d+(,\d+)*$', s)` succeeds. Python's `$` matches at the end
   of the text and also just before a newline that ends it.
   */
  predicate RegexMatch(s: string): (matched: bool)
    ensures matched ==> |s| > 0 && IsDigit(s[0])
    ensures matched ==> IsDigit(s[|s| - 1]) || s[|s| - 1] == '\n'
    ensures matched ==> forall i :: 0 <= i < |s| - 1 ==> IsDigit(s[i]) || s[i] == ','
  {
    ScanGroups(s, false) || (|s| > 0 && s[|s| - 1] == '\n' && ScanGroups(s[..|s| - 1], false))
  }

  /**
   The language of `\d+(,\d+)*`: digits and commas only, a digit at both
   ends and a digit before every comma (so no sign, decimal point, space or
   empty group).
   */
  predicate IsNumberList(s: string)
  {
    && |s| > 0 && IsDigit(s[0]) && IsDigit(s[|s| - 1])
    && (forall i :: 0 <= i < |s| ==> IsDigit(s[i]) || s[i] == ',')
    && (forall i :: 0 < i < |s| && s[i] == ',' ==> IsDigit(s[i - 1]))
  }

  /** The texts the parser accepts: a number list, optionally followed by one newline. */
  predicate Accepted(s: string)
  {
    IsNumberList(s) || (|s| > 0 && s[|s| - 1] == '\n' && IsNumberList(s[..|s| - 1]))
  }

  /** What `ScanGroups(s, inGroup)` accepts, stated over the characters of `s`. */
  ghost predicate ScanAccepts(s: string, inGroup: bool)
  {
    && (forall i :: 0 <= i < |s| ==> IsDigit(s[i]) || s[i] == ',')
    && (forall i :: 0 < i < |s| && s[i] == ',' ==> IsDigit(s[i - 1]))
    && (if s == [] then inGroup else IsDigit(s[|s| - 1]) && (s[0] == ',' ==> inGroup))
  }

  lemma {:induction false} ScanGroupsChars(s: string, inGroup: bool)
    ensures ScanGroups(s, inGroup) <==> ScanAccepts(s, inGroup)
    decreases |s|
  {
    if s != [] {
      var s' := s[1..];
      var next := IsDigit(s[0]);
      ScanGroupsChars(s', next);
      assert forall i :: 0 < i < |s| ==> s[i] == s'[i - 1];
      if IsDigit(s[0]) || (s[0] == ',' && inGroup) {
        if ScanAccepts(s', next) {
          assert ScanAccepts(s, inGroup);
        }
        if ScanAccepts(s, inGroup) {
          assert ScanAccepts(s', next) by {
            if s' != [] {
              assert s'[0] == ',' ==> IsDigit(s[0]);
            }
          }
        }
      }
    }
  }

  /** The recogniser decides exactly the grammar of number lists. */
  lemma RecogniserDecidesGrammar(s: string)
    ensures ScanGroups(s, false) <==> IsNumberList(s)
  {
    ScanGroupsChars(s, false);
  }

  /** The regex accepts exactly the number lists, with or without one final newline. */
  lemma RegexMatchAccepted(s: string)
    ensures RegexMatch(s) <==> Accepted(s)
  {
    RecogniserDecidesGrammar(s);
    if |s| > 0 {
      RecogniserDecidesGrammar(s[..|s| - 1]);
    }
  }

  /**
   The pieces a successful scan leaves: the first piece is all digits (and
   non-empty unless a group is already open), every later piece is a digit run.
   */
  ghost predicate GroupPieces(p: seq<string>, inGroup: bool)
    requires |p| > 0
  {
    AllDigits(p[0]) && (inGroup || |p[0]| > 0) && (forall i :: 1 <= i < |p| ==> IsDigitRun(p[i]))
  }

  /** What `ScanGroups(s, inGroup)` accepts, stated over the comma-separated pieces of `s`. */
  lemma {:induction false} ScanGroupsPieces(s: string, inGroup: bool)
    ensures ScanGroups(s, inGroup) <==> GroupPieces(Split(s), inGroup)
    decreases |s|
  {
    if s != [] {
      var c, w := s[0], s[1..];
      assert s == [c] + w;
      SplitCons(c, w);
      var r := Split(w);
      ScanGroupsPieces(w, IsDigit(c));
      if c == ',' {
        GroupPiecesComma(r, inGroup);
      } else {
        GroupPiecesChar(c, r, inGroup);
      }
    }
  }

  /** A comma closes the first piece: it must be non-empty, unless a group was open. */
  lemma GroupPiecesComma(r: seq<string>, inGroup: bool)
    requires |r| > 0
    ensures GroupPieces([[]] + r, inGroup) <==> inGroup && GroupPieces(r, false)
  {
    var p := [[]] + r;
    assert forall i :: 1 <= i < |p| ==> p[i] == r[i - 1];
    assert forall j :: 0 <= j < |r| ==> r[j] == p[j + 1];
  }

  /** Any other character joins the first piece, which then needs it to be a digit. */
  lemma GroupPiecesChar(c: char, r: seq<string>, inGroup: bool)
    requires |r| > 0 && c != ','
    ensures GroupPieces([[c] + r[0]] + r[1..], inGroup) <==> IsDigit(c) && GroupPieces(r, true)
  {
    var p := [[c] + r[0]] + r[1..];
    assert p[0][0] == c;
    assert forall i :: 1 <= i < |p| ==> p[i] == r[i];
    if IsDigit(c) {
      assert forall j :: 0 < j < |p[0]| ==> p[0][j] == r[0][j - 1];
      assert forall j :: 0 <= j < |r[0]| ==> r[0][j] == p[0][j + 1];
    }
  }

  /** A number list is one or more digit runs joined by single commas. */
  lemma NumberListPieces(s: string)
    ensures IsNumberList(s) <==> forall i :: 0 <= i < |Split(s)| ==> IsDigitRun(Split(s)[i])
  {
    RecogniserDecidesGrammar(s);
    ScanGroupsPieces(s, false);
  }

  /** On an accepted text every stripped piece is a digit run, so `float` applies to it. */
  lemma PiecesAreDigitRuns(s: string)
    requires RegexMatch(s)
    ensures forall i :: 0 <= i < |Split(s)| ==> |Strip(Split(s)[i])| > 0 && AllDigits(Strip(Split(s)[i]))
  {
    var q := Split(s);
    if ScanGroups(s, false) {
      NumberListPieces(s);
      RecogniserDecidesGrammar(s);
      forall i | 0 <= i < |q|
        ensures |Strip(q[i])| > 0 && AllDigits(Strip(q[i]))
      {
        assert IsDigitRun(q[i]);
        StripDigitRun(q[i]);
      }
    } else {
      var t := s[..|s| - 1];
      NumberListPieces(t);
      RecogniserDecidesGrammar(t);
      assert s == t + ['\n'];
      SplitFinalNewline(t);
      var p := Split(t);
      forall i | 0 <= i < |q|
        ensures |Strip(q[i])| > 0 && AllDigits(Strip(q[i]))
      {
        assert Strip(q[i]) == p[i];
        assert IsDigitRun(p[i]);
      }
    }
  }

  /** Every piece of a number list is left unchanged by `strip`. */
  lemma StripDigitRuns(p: seq<string>)
    requires forall i :: 0 <= i < |p| ==> IsDigitRun(p[i])
    ensures forall i :: 0 <= i < |p| ==> Strip(p[i]) == p[i]
  {
    forall i | 0 <= i < |p|
      ensures Strip(p[i]) == p[i]
    {
      StripDigitRun(p[i]);
    }
  }

  /** After a number list, a final newline lands in the last piece, and `strip` removes it again. */
  lemma SplitFinalNewline(t: string)
    requires forall i :: 0 <= i < |Split(t)| ==> IsDigitRun(Split(t)[i])
    ensures var p, q := Split(t), Split(t + ['\n']);
      && |q| == |p|
      && forall i :: 0 <= i < |q| ==> Strip(q[i]) == p[i]
  {
    SplitCommaFreeSuffix(t, ['\n']);
    var p, q := Split(t), Split(t + ['\n']);
    assert ExtendsLast(p, q, ['\n']);
    forall i | 0 <= i < |q|
      ensures Strip(q[i]) == p[i]
    {
      StripDigitRun(p[i]);
      if i < |p| - 1 {
        assert q[i] == p[i];
      } else {
        assert q[i] == p[i] + ['\n'];
        StripFinalNewline(p[i]);
      }
    }
  }

  /** A digit run has no whitespace to strip. */
  lemma StripDigitRun(g: string)
    requires IsDigitRun(g)
    ensures !IsSpace(g[0]) && !IsSpace(g[|g| - 1])
    ensures Strip(g) == g
  {
    assert IsDigit(g[0]) && IsDigit(g[|g| - 1]);
    assert !IsSpace(g[0]) && !IsSpace(g[|g| - 1]);
  }

  /**
   `parse_numbers_input(s)`: on a text that matches, the value of each
   stripped comma-separated piece, in order; on any other text, the empty
   list. An accepted text yields one number per comma plus one.
   */
  function ParseNumbersInput(s: string): (numbers: seq<nat>)
    ensures numbers != [] <==> RegexMatch(s)
    ensures numbers != [] ==> |numbers| == CommaCount(s) + 1
  {
    if RegexMatch(s) then
      PiecesAreDigitRuns(s);
      ToNumbers(Split(s))
    else
      []
  }

  /** `[float(n.strip()) for n in pieces]`, on pieces that strip to digit runs. */
  function ToNumbers(pieces: seq<string>): (numbers: seq<nat>)
    requires forall i :: 0 <= i < |pieces| ==> AllDigits(Strip(pieces[i]))
    ensures |numbers| == |pieces|
    ensures forall i :: 0 <= i < |pieces| ==> numbers[i] == Value(Strip(pieces[i]))
  {
    seq(|pieces|, i requires 0 <= i < |pieces| => Value(Strip(pieces[i])))
  }

  /** Pieces that strip to the same digit strings convert to the same numbers. */
  lemma ToNumbersAgree(p: seq<string>, q: seq<string>)
    requires |p| == |q|
    requires forall i :: 0 <= i < |p| ==> AllDigits(Strip(p[i]))
    requires forall i :: 0 <= i < |q| ==> Strip(q[i]) == Strip(p[i])
    ensures forall i :: 0 <= i < |q| ==> AllDigits(Strip(q[i]))
    ensures ToNumbers(p) == ToNumbers(q)
  {
  }

  /** The parser returns a non-empty list exactly on the texts of the grammar. */
  lemma ParseAccepts(s: string)
    ensures ParseNumbersInput(s) != [] <==> Accepted(s)
  {
    RegexMatchAccepted(s);
  }

  /**
   On a number list the result has one element per comma plus one, and its
   i-th element is the value of the i-th digit group.
   */
  lemma ParseGroups(s: string)
    requires IsNumberList(s)
    ensures var numbers, groups := ParseNumbersInput(s), Split(s);
      && |numbers| == |groups| == CommaCount(s) + 1
      && forall i :: 0 <= i < |groups| ==> IsDigitRun(groups[i]) && numbers[i] == Value(groups[i])
  {
    var groups := Split(s);
    NumberListGroups(s);
    StripDigitRuns(groups);
    assert ParseNumbersInput(s) == ToNumbers(groups);
  }

  /** A number list matches the regex, and each of its pieces is a digit run. */
  lemma NumberListGroups(s: string)
    requires IsNumberList(s)
    ensures RegexMatch(s)
    ensures forall i :: 0 <= i < |Split(s)| ==> IsDigitRun(Split(s)[i])
  {
    RecogniserDecidesGrammar(s);
    NumberListPieces(s);
  }

  /** The regex matches a number list both as it is and with one newline after it. */
  lemma RegexMatchFinalNewline(s: string)
    requires IsNumberList(s)
    ensures RegexMatch(s) && RegexMatch(s + ['\n'])
  {
    var sn := s + ['\n'];
    assert sn[..|sn| - 1] == s;
    RecogniserDecidesGrammar(s);
  }

  /** A newline after a number list is accepted and ignored. */
  lemma ParseFinalNewline(s: string)
    requires IsNumberList(s)
    ensures ParseNumbersInput(s + ['\n']) == ParseNumbersInput(s)
  {
    var sn := s + ['\n'];
    RegexMatchFinalNewline(s);
    NumberListPieces(s);
    SplitFinalNewline(s);
    StripDigitRuns(Split(s));
    ToNumbersAgree(Split(s), Split(sn));
  }

  /** `','.join(str(x) for x in numbers)`: the text a user types for a list of numbers. */
  function FormatNumbers(numbers: seq<nat>): (s: string)
    requires |numbers| > 0
  {
    Join(RenderAll(numbers))
  }

  /** `[str(x) for x in numbers]`: digit runs, so free of commas. */
  function RenderAll(numbers: seq<nat>): (pieces: seq<string>)
    ensures |pieces| == |numbers|
    ensures forall i :: 0 <= i < |numbers| ==> pieces[i] == Render(numbers[i]) && ',' !in pieces[i]
    decreases |numbers|
  {
    if numbers == [] then []
    else
      var t, rest := Render(numbers[0]), RenderAll(numbers[1..]);
      DigitsCommaFree(t);
      var pieces := [t] + rest;
      assert forall i :: 1 <= i < |pieces| ==> pieces[i] == rest[i - 1];
      pieces
  }

  /** A digit string holds no comma. */
  lemma DigitsCommaFree(t: string)
    requires AllDigits(t)
    ensures ',' !in t
  {
    assert forall j :: 0 <= j < |t| ==> IsDigit(t[j]);
  }

  /** A formatted list is a number list with one comma between neighbours. */
  lemma FormatIsNumberList(numbers: seq<nat>)
    requires |numbers| > 0
    ensures IsNumberList(FormatNumbers(numbers))
    ensures CommaCount(FormatNumbers(numbers)) == |numbers| - 1
  {
    SplitJoin(RenderAll(numbers));
    NumberListPieces(FormatNumbers(numbers));
  }

  /** Round trip: parsing the formatted text of a non-empty list gives the list back. */
  lemma ParseFormat(numbers: seq<nat>)
    requires |numbers| > 0
    ensures ParseNumbersInput(FormatNumbers(numbers)) == numbers
  {
    var s := FormatNumbers(numbers);
    FormatIsNumberList(numbers);
    ParseGroups(s);
    SplitJoin(RenderAll(numbers));
  }

  /** Texts the grammar refuses, each for one reason: all of them parse to the empty list. */
  lemma ParseRejects()
    ensures ParseNumbersInput("") == []
    ensures ParseNumbersInput("1,,2") == []
    ensures ParseNumbersInput("-1,2") == []
    ensures ParseNumbersInput("1, 2") == []
    ensures ParseNumbersInput(",1") == []
    ensures ParseNumbersInput("1,") == []
    ensures ParseNumbersInput("1.5") == []
    ensures ParseNumbersInput("1,2\n\n") == []
  {
    ParseAccepts("");
    ParseAccepts("1,,2");
    assert "1,,2"[2] == ',';
    ParseAccepts("-1,2");
    ParseAccepts("1, 2");
    assert "1, 2"[2] == ' ';
    ParseAccepts(",1");
    ParseAccepts("1,");
    ParseAccepts("1.5");
    assert "1.5"[1] == '.';
    ParseAccepts("1,2\n\n");
    assert "1,2\n\n"[..4] == "1,2\n";
  }

  /** "1,2,3" is a number list and gives [1, 2, 3]. */
  lemma ParseExampleList()
    ensures IsNumberList("1,2,3")
    ensures ParseNumbersInput("1,2,3") == [1, 2, 3]
  {
    assert RenderAll([1, 2, 3]) == ["1", "2", "3"];
    assert FormatNumbers([1, 2, 3]) == "1,2,3";
    ParseFormat([1, 2, 3]);
    FormatIsNumberList([1, 2, 3]);
  }

  /** Leading zeros are allowed: "007" gives [7]. */
  lemma ParseExampleLeadingZeros()
    ensures ParseNumbersInput("007") == [7]
  {
    assert ['0'] + "7" == "07" && ['0'] + "07" == "007";
    LeadingZero("7");
    LeadingZero("07");
    assert Value("7") == 7;
    assert IsNumberList("007");
    assert Split("007") == ["007"] by {
      SplitCommaFreePrefix("007", []);
      assert "007" + [] == "007";
    }
    ParseGroups("007");
  }

  /** A final newline is accepted: "1,2,3" followed by a newline gives [1, 2, 3]. */
  lemma ParseExampleFinalNewline()
    ensures ParseNumbersInput("1,2,3" + "\n") == [1, 2, 3]
  {
    ParseExampleList();
    ParseFinalNewline("1,2,3");
  }
}
