/**
 What one press of the "Calculate!" button decides: both texts are parsed,
 an invalid first text or an invalid non-empty second text is reported, and
 otherwise the statistics of the first list are shown, together with those
 of the second list and the combination block when a second list is given.
 */
module App {
  import opened PyText
  import opened NumbersInput
  import opened Stats

  /** The exact part of the combination block: its degrees of freedom. */
  datatype Combination = Combination(df: int)

  datatype Outcome =
    | InvalidFirst     // "Invalid input (first list)!"
    | InvalidSecond    // "Invalid input (second list)!"
    | FirstOnly(first: Stats)
    | BothLists(first: Stats, second: Stats, combination: Combination)

  /**
   `df = n1 + n2 - 2`: the sum of the two samples' own estimate divisors;
   zero, which the pooled variance then divides by, exactly when both lists
   hold a single number.
   */
  function DegreesOfFreedom(first: Stats, second: Stats): (df: int)
    requires first.size > 0 && second.size > 0
    ensures df == EstimateDivisor(first) + EstimateDivisor(second)
    ensures df >= 0
    ensures df == 0 <==> first.size == 1 && second.size == 1
  {
    first.size + second.size - 2
  }

  /**
   The decision `main()` takes on the two texts. The four outcomes are told
   apart by the two parse results and by whether the second text is empty;
   the reported sizes are the lengths of the parsed lists.
   */
  function Calculate(firstText: string, secondText: string): (outcome: Outcome)
    ensures outcome.InvalidFirst? <==> ParseNumbersInput(firstText) == []
    ensures outcome.InvalidSecond? <==>
      ParseNumbersInput(firstText) != [] && secondText != "" && ParseNumbersInput(secondText) == []
    ensures outcome.FirstOnly? <==> ParseNumbersInput(firstText) != [] && secondText == ""
    ensures outcome.BothLists? <==> ParseNumbersInput(firstText) != [] && ParseNumbersInput(secondText) != []
    ensures outcome.FirstOnly? ==> outcome.first.size == |ParseNumbersInput(firstText)|
    ensures outcome.BothLists? ==>
      && outcome.first.size == |ParseNumbersInput(firstText)|
      && outcome.second.size == |ParseNumbersInput(secondText)|
      && outcome.combination.df == |ParseNumbersInput(firstText)| + |ParseNumbersInput(secondText)| - 2
  {
    var first := ParseNumbersInput(firstText);
    var second := ParseNumbersInput(secondText);
    if |first| == 0 then
      InvalidFirst
    else if secondText != "" && |second| == 0 then
      InvalidSecond
    else
      var statsFirst := CalculateStats(first);
      var statsSecond := CalculateStats(second);
      if statsSecond.Some? then
        BothLists(statsFirst.value, statsSecond.value,
                  Combination(DegreesOfFreedom(statsFirst.value, statsSecond.value)))
      else
        FirstOnly(statsFirst.value)
  }

  /**
   The decision stated over the grammar of the texts: a text outside the
   grammar is an error (the second one only when it is not empty), and each
   reported size is the text's comma count plus one, so the degrees of
   freedom are the two texts' comma counts added.
   */
  lemma CalculateByGrammar(firstText: string, secondText: string)
    ensures var outcome := Calculate(firstText, secondText);
      && (outcome.InvalidFirst? <==> !Accepted(firstText))
      && (outcome.InvalidSecond? <==> Accepted(firstText) && secondText != "" && !Accepted(secondText))
      && (outcome.FirstOnly? <==> Accepted(firstText) && secondText == "")
      && (outcome.BothLists? <==> Accepted(firstText) && Accepted(secondText))
      && (outcome.FirstOnly? ==> outcome.first.size == CommaCount(firstText) + 1)
      && (outcome.BothLists? ==>
            && outcome.first.size == CommaCount(firstText) + 1
            && outcome.second.size == CommaCount(secondText) + 1
            && outcome.combination.df == CommaCount(firstText) + CommaCount(secondText))
  {
    ParseAccepts(firstText);
    ParseAccepts(secondText);
  }

  /**
   The sample estimate of a shown list divides by zero exactly when its
   text has no comma, i.e. holds a single number.
   */
  lemma SingleNumberEstimate(firstText: string, secondText: string)
    ensures var outcome := Calculate(firstText, secondText);
      && (outcome.FirstOnly? || outcome.BothLists? ==>
            (EstimateDivisor(outcome.first) == 0 <==> CommaCount(firstText) == 0))
      && (outcome.BothLists? ==>
            (EstimateDivisor(outcome.second) == 0 <==> CommaCount(secondText) == 0))
  {
    CalculateByGrammar(firstText, secondText);
  }

  /**
   The pooled variance divides by the degrees of freedom, which are zero
   exactly when neither text has a comma.
   */
  lemma SingleNumberPooled(firstText: string, secondText: string)
    ensures var outcome := Calculate(firstText, secondText);
      outcome.BothLists? ==>
        (outcome.combination.df == 0 <==> CommaCount(firstText) == 0 && CommaCount(secondText) == 0)
  {
    CalculateByGrammar(firstText, secondText);
  }

  /** A few button presses, with the outcome each one shows. */
  lemma CalculateExamples()
    ensures Calculate("", "1,2").InvalidFirst?
    ensures Calculate("1,2,3", "1,,2").InvalidSecond?
    ensures Calculate("1,2,3", " ").InvalidSecond?
    ensures Calculate("1,2,3", "") == FirstOnly(Stats(3))
    ensures Calculate("1,2,3", "1,2,3") == BothLists(Stats(3), Stats(3), Combination(4))
  {
    ParseRejects();
    ParseExampleList();
    assert ParseNumbersInput(" ") == [] by {
      ParseAccepts(" ");
    }
  }
}
