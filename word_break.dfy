/**
 * StringExtensions.WordBreak: cutting a feed item's text into lines of at most
 * lineLength characters, preferring to end each line at a split character.
 */
module WordBreaking {
  import opened Strings

  /** The characters a line may end at. */
  const TextSplitChars: string := [' ', '-', '.', '?', ';', ',', '!']

  /**
   * The position of the split as written: the last split character among the
   * first lineLength characters, lineLength - 1 when that character is at
   * position 0, and -1 when there is none.
   */
  function SplitIndexAsWritten(input: string, lineLength: int): (i: int)
    requires 0 < lineLength < |input|
    ensures -1 <= i < lineLength
    ensures i == -1 <==> forall j :: 0 <= j < lineLength ==> input[j] !in TextSplitChars
  {
    var i := LastIndexOfAny(input, TextSplitChars, lineLength - 1);
    if i == 0 then lineLength - 1 else i
  }

  /**
   * With no split character among the first lineLength characters, the loop as
   * written yields an empty line and leaves the input as it was, so it never ends.
   */
  lemma WordBreakStalls(input: string, lineLength: int)
    requires 0 < lineLength < |input|
    requires forall j :: 0 <= j < lineLength ==> input[j] !in TextSplitChars
    ensures var i := SplitIndexAsWritten(input, lineLength);
      input[..i + 1] == "" && input[i + 1..] == input
  {
  }

  /** For instance WordBreak("abcdef", 3) yields "" again and again. */
  lemma WordBreakStallsOnExample()
    ensures SplitIndexAsWritten("abcdef", 3) == -1
  {
    WordBreakStalls("abcdef", 3);
  }

  /**
   * The length of the next line, with the hard break applied both when the
   * split character is at position 0 and when there is none.
   */
  function LineLength(input: string, lineLength: int): (k: nat)
    requires 0 < lineLength < |input|
    ensures 1 <= k <= lineLength
    ensures k < lineLength ==>
      (1 < k && input[k - 1] in TextSplitChars
       && forall j :: k <= j < lineLength ==> input[j] !in TextSplitChars)
    ensures k == lineLength ==>
      (input[k - 1] in TextSplitChars
       || forall j :: 1 <= j < lineLength ==> input[j] !in TextSplitChars)
  {
    var i := LastIndexOfAny(input, TextSplitChars, lineLength - 1);
    if i <= 0 then lineLength else i + 1
  }

  /** Wherever the loop as written makes progress, it cuts where LineLength does. */
  lemma AsWrittenAgrees(input: string, lineLength: int)
    requires 0 < lineLength < |input|
    requires SplitIndexAsWritten(input, lineLength) >= 0
    ensures SplitIndexAsWritten(input, lineLength) + 1 == LineLength(input, lineLength)
  {
  }

  /** The lines WordBreak yields. */
  function Lines(input: string, lineLength: int): seq<string>
    requires lineLength > 0
    decreases |input|
  {
    if |input| > lineLength then
      var k := LineLength(input, lineLength);
      [input[..k]] + Lines(input[k..], lineLength)
    else if |input| > 0 then [input]
    else []
  }

  /** Input no longer than lineLength yields itself, or nothing when it is empty. */
  lemma ShortInput(input: string, lineLength: int)
    requires 0 < lineLength && |input| <= lineLength
    ensures Lines(input, lineLength) == if input == "" then [] else [input]
  {
  }

  /** The lines put together give back the input. */
  lemma {:induction false} LinesConcat(input: string, lineLength: int)
    requires lineLength > 0
    ensures Concat(Lines(input, lineLength)) == input
    decreases |input|
  {
    if |input| > lineLength {
      var k := LineLength(input, lineLength);
      var rest := Lines(input[k..], lineLength);
      LinesConcat(input[k..], lineLength);
      assert ([input[..k]] + rest)[1..] == rest;
      assert input[..k] + input[k..] == input;
    }
  }

  /** Every line is non-empty and at most lineLength long. */
  lemma {:induction false} LinesBounded(input: string, lineLength: int)
    requires lineLength > 0
    ensures forall i :: 0 <= i < |Lines(input, lineLength)| ==>
      0 < |Lines(input, lineLength)[i]| <= lineLength
    decreases |input|
  {
    var lines := Lines(input, lineLength);
    if |input| > lineLength {
      var k := LineLength(input, lineLength);
      var rest := Lines(input[k..], lineLength);
      LinesBounded(input[k..], lineLength);
      assert lines == [input[..k]] + rest;
      forall i | 0 <= i < |lines|
        ensures 0 < |lines[i]| <= lineLength
      {
        if i > 0 {
          assert lines[i] == rest[i - 1];
        }
      }
    }
  }

  /** One turn of the outer loop: the line it yields and the input it keeps. */
  lemma LinesStep(input: string, lineLength: int, k: nat)
    requires 0 < lineLength < |input| && k == LineLength(input, lineLength)
    ensures Lines(input, lineLength) == [input[..k]] + Lines(input[k..], lineLength)
  {
  }

  /** The downward scan for a split character, with the hard break for positions 0 and -1. */
  method SplitIndex(input: string, lineLength: int) returns (i: int)
    requires 0 < lineLength < |input|
    ensures i + 1 == LineLength(input, lineLength)
  {
    i := lineLength - 1;
    while i >= 0 && IndexOf(TextSplitChars, input[i]) < 0
      invariant -1 <= i < lineLength
      invariant LastIndexOfAny(input, TextSplitChars, lineLength - 1) == LastIndexOfAny(input, TextSplitChars, i)
      decreases i + 1
    {
      i := i - 1;
    }
    if i <= 0 {
      i := lineLength - 1;
    }
  }

  /** StringExtensions.WordBreak, with the hard break also taken when no split character occurs. */
  method WordBreak(input: string, lineLength: int) returns (lines: seq<string>)
    requires lineLength > 0
    ensures lines == Lines(input, lineLength)
  {
    var rest := input;
    lines := [];
    while |rest| > lineLength
      invariant lines + Lines(rest, lineLength) == Lines(input, lineLength)
      decreases |rest|
    {
      var i := SplitIndex(rest, lineLength);
      LinesStep(rest, lineLength, i + 1);
      lines := lines + [rest[..i + 1]];
      rest := rest[i + 1..];
    }
    if |rest| > 0 {
      lines := lines + [rest];
    }
  }
}
