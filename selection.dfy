/**
 * The steps both scripts take once the chapter list is known: looking a
 * chapter up, reading how many chapters to download, and the bound of the
 * download loop.
 */
module Selection {
  import opened Wrappers
  import opened Strings
  import opened Numerals

  /** `xs.findIndex((c) => c === target)`: the first position holding `target`, or -1. */
  function FindIndex(xs: seq<string>, target: string): (r: int)
    ensures -1 <= r < |xs|
    ensures r == -1 <==> target !in xs
    ensures r >= 0 ==> xs[r] == target && target !in xs[..r]
  {
    if |xs| == 0 then -1
    else if xs[0] == target then 0
    else
      var k := FindIndex(xs[1..], target);
      if k == -1 then -1
      else
        assert xs[..k + 1] == [xs[0]] + xs[1..][..k];
        k + 1
  }

  /**
   * `parseInt(answer || `${totalChapters}`)`, refused (`None`) when the result
   * is NaN or below 1; an empty or missing answer takes the default.
   */
  function HowMany(answer: Option<string>, totalChapters: nat): (r: Option<nat>)
    ensures r.Some? ==> r.value >= 1
    ensures answer.Some? && answer.value != "" ==>
      (r.Some? <==> ParseInt(answer.value).Some? && ParseInt(answer.value).value >= 1)
    ensures answer.Some? && answer.value != "" && r.Some? ==> r.value == ParseInt(answer.value).value
    ensures answer.None? || answer.value == "" ==> r == if totalChapters >= 1 then Some(totalChapters) else None
  {
    ParseIntOfIntToString(totalChapters);
    var text := if answer.Some? && answer.value != "" then answer.value else NatToString(totalChapters);
    match ParseInt(text)
    case None => None
    case Some(n) => if n < 1 then None else Some(n)
  }

  /** With no answer, the count is every chapter from the start to the end of the list. */
  lemma DefaultCountIsRemaining(answer: Option<string>, totalChapters: nat)
    requires answer == None || answer == Some("")
    requires totalChapters >= 1
    ensures HowMany(answer, totalChapters) == Some(totalChapters)
  {
    ParseIntOfIntToString(totalChapters);
  }

  /** A typed count is read leniently: "3 chapters" or "2.5" give their leading number. */
  lemma TypedCountReadsLeadingNumber(digits: string, rest: string, totalChapters: nat)
    requires digits != [] && AllDigits(digits) && DigitsValue(digits) >= 1
    requires rest == [] || (!IsDigit(rest[0]) && rest[0] != 'x' && rest[0] != 'X')
    ensures HowMany(Some(digits + rest), totalChapters) == Some(DigitsValue(digits))
  {
    ParseIntOfLeadingDigits(digits, rest);
  }

  /** A count that is zero, negative or not a number is refused. */
  lemma NonPositiveCountRefused(n: int, totalChapters: nat)
    requires n < 1
    ensures HowMany(Some(IntToString(n)), totalChapters) == None
  {
    ParseIntOfIntToString(n);
  }

  /** `Math.min(startIndex + howMany, chapters.length)`: the index the download loop stops before. */
  function RangeEnd(start: nat, howMany: nat, count: nat): (r: nat)
    requires start <= count
    ensures start <= r <= count && r - start <= howMany
    ensures r - start == howMany || r == count
  {
    if start + howMany < count then start + howMany else count
  }

  /** Accepting the default count downloads every chapter from the start to the end of the list. */
  lemma DefaultRangeRunsToEnd(start: nat, count: nat)
    requires start < count
    ensures HowMany(None, count - start).Some?
    ensures RangeEnd(start, HowMany(None, count - start).value, count) == count
  {
    DefaultCountIsRemaining(None, count - start);
  }
}
