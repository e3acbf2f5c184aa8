/**
 * `parse_outcome` on the texts the bot's own prompts and comments mention
 * (bot.py:60-62, 74-78, 116-119). The word-to-number library is a parameter;
 * each lemma names the normalized text on which it raises, which is what the
 * library does for text holding no number word.
 */
module OutcomeExamples {
  import opened Wrappers
  import opened PyText
  import opened OutcomeParser

  lemma DigitsOf500()
    ensures IsDigits("500") && DigitsValue("500") == 500
  {
    assert "500"[..2] == "50" && "50"[..1] == "5" && "5"[..0] == [];
  }

  lemma DigitsOf200()
    ensures IsDigits("200") && DigitsValue("200") == 200
  {
    assert "200"[..2] == "20" && "20"[..1] == "2" && "2"[..0] == [];
  }

  /** "+500" is a profit of 500 (bot.py:61). */
  lemma PlusFiveHundred(wordToNum: string -> Option<int>)
    requires wordToNum("+500") == None
    ensures ParseOutcome("+500", wordToNum) == Number(500)
  {
    DigitsOf500();
    assert "+" + "500" == "+500";
    SignedLiteral("+", "500", wordToNum);
  }

  /** "-200" is a loss of 200 (bot.py:62). */
  lemma MinusTwoHundred(wordToNum: string -> Option<int>)
    requires wordToNum("-200") == None
    ensures ParseOutcome("-200", wordToNum) == Number(-200)
  {
    DigitsOf200();
    assert "-" + "200" == "-200";
    SignedLiteral("-", "200", wordToNum);
  }

  lemma LowerProfited()
    ensures Lower("I profited 500") == "i profited 500"
  {
  }

  lemma NoHundredInProfited()
    ensures ReplaceAll("i profited 500", "hundred", "00") == "i profited 500"
  {
    ReplaceAllAbsent("i profited 500", "hundred", "00");
  }

  lemma NoThousandInProfited()
    ensures ReplaceAll("i profited 500", "thousand", "000") == "i profited 500"
  {
    assert "i profited 500" == "i profi" + "ted 500";
    ReplaceAllSkips("i profi", "ted 500", "thousand", "000");
    ReplaceAllShort("ted 500", "thousand", "000");
  }

  lemma NormalizeProfited()
    ensures Normalize("I profited 500") == "i profited 500"
  {
    LowerProfited();
    NoHundredInProfited();
    NoThousandInProfited();
  }

  lemma SplitIProfited()
    ensures Split("i profited 500") == ["i", "profited", "500"]
  {
    assert "i profited 500" == "i" + " " + "profited" + " " + "500";
    SplitThreeTokens("i", "profited", "500");
  }

  /** Two words that are not numbers, then a number: the number is the outcome. */
  lemma ScanWordsThenDigits(a: string, b: string, n: string)
    requires !IsCandidate(a) && !IsCandidate(b) && IsDigits(n)
    ensures FromTokens([a, b, n]) == Number(DigitsValue(n))
  {
    assert [a, b, n] == [a] + [b, n];
    assert [b, n] == [b] + [n];
    UnsignedScan(n);
    SkipToken(b, [n]);
    SkipToken(a, [b, n]);
  }

  lemma ScanProfited()
    ensures FromTokens(["i", "profited", "500"]) == Number(500)
  {
    DigitsOf500();
    NotCandidate("i");
    NotCandidate("profited");
    ScanWordsThenDigits("i", "profited", "500");
  }

  /** "I profited 500" is a profit of 500 (bot.py:61). */
  lemma ProfitedFiveHundred(wordToNum: string -> Option<int>)
    requires wordToNum("i profited 500") == None
    ensures ParseOutcome("I profited 500", wordToNum) == Number(500)
  {
    NormalizeProfited();
    SplitIProfited();
    ScanProfited();
  }

  // "Lost 2 hundred" (bot.py:119): the unit word becomes a separate "00"
  // token and the loss word carries no sign, so the outcome is 2.

  lemma LowerLost()
    ensures Lower("Lost 2 hundred") == "lost 2 hundred"
  {
  }

  lemma HundredInLost()
    ensures ReplaceAll("lost 2 hundred", "hundred", "00") == "lost 2 00"
  {
    assert "lost 2 hundred" == "lost 2 " + "hundred";
    ReplaceAllAtEnd("lost 2 ", "hundred", "00");
    assert "lost 2 " + "00" == "lost 2 00";
  }

  lemma ThousandInLost()
    ensures ReplaceAll("lost 2 00", "thousand", "000") == "lost 2 00"
  {
    ReplaceAllNoPair("lost 2 00", "thousand", "000");
  }

  lemma NormalizeLost()
    ensures Normalize("Lost 2 hundred") == "lost 2 00"
  {
    LowerLost();
    HundredInLost();
    ThousandInLost();
  }

  lemma SplitLost()
    ensures Split("lost 2 00") == ["lost", "2", "00"]
  {
    assert "lost 2 00" == "lost" + " " + "2" + " " + "00";
    SplitThreeTokens("lost", "2", "00");
  }

  lemma Scan00()
    ensures FromTokens(["00"]).Number?
  {
    assert IsDigits("00");
    UnsignedScan("00");
  }

  /** A digit token followed by "00" is read as the digit alone. */
  lemma ScanDigit00(d: string)
    requires IsDigits(d)
    ensures FromTokens([d, "00"]) == Number(DigitsValue(d))
  {
    assert [d, "00"] == [d] + ["00"];
    UnsignedToken(d);
    Scan00();
    TakeToken(d, ["00"]);
  }

  /** A word that is not a number in front of a token list: the list decides the outcome. */
  lemma ScanWordThenPair(a: string, d: string, z: string, n: int)
    requires !IsCandidate(a) && FromTokens([d, z]) == Number(n)
    ensures FromTokens([a, d, z]) == Number(n)
  {
    assert [a, d, z][1..] == [d, z];
    assert Candidates([a, d, z]) == Candidates([d, z]);
  }

  lemma ScanLost()
    ensures FromTokens(["lost", "2", "00"]) == Number(2)
  {
    assert DigitsValue("2") == 2 by { assert "2"[..0] == []; }
    NotCandidate("lost");
    ScanDigit00("2");
    ScanWordThenPair("lost", "2", "00", 2);
  }

  /** The retry prompt's own "Lost 2 hundred" is recorded as an outcome of 2 (bot.py:119). */
  lemma LostTwoHundredIsTwo(wordToNum: string -> Option<int>)
    requires wordToNum("lost 2 00") == None
    ensures ParseOutcome("Lost 2 hundred", wordToNum) == Number(2)
  {
    NormalizeLost();
    SplitLost();
    ScanLost();
  }

  // "3 hundred" (bot.py:77) is read as 3, for the same reason.

  lemma HundredInThree()
    ensures ReplaceAll("3 hundred", "hundred", "00") == "3 00"
  {
    assert "3 hundred" == "3 " + "hundred";
    ReplaceAllAtEnd("3 ", "hundred", "00");
    assert "3 " + "00" == "3 00";
  }

  lemma NormalizeThree()
    ensures Normalize("3 hundred") == "3 00"
  {
    assert Lower("3 hundred") == "3 hundred";
    HundredInThree();
    ReplaceAllAbsent("3 00", "thousand", "000");
  }

  lemma SplitThree()
    ensures Split("3 00") == ["3", "00"]
  {
    assert "3 00" == "3" + " " + "00";
    SplitTwoTokens("3", "00");
  }

  lemma ScanThree()
    ensures FromTokens(["3", "00"]) == Number(3)
  {
    assert DigitsValue("3") == 3 by { assert "3"[..0] == []; }
    ScanDigit00("3");
  }

  /** "3 hundred", the mixed format the fallback's comment names, gives 3 (bot.py:77-79). */
  lemma ThreeHundredIsThree(wordToNum: string -> Option<int>)
    requires wordToNum("3 00") == None
    ensures ParseOutcome("3 hundred", wordToNum) == Number(3)
  {
    NormalizeThree();
    SplitThree();
    ScanThree();
  }

  // Tokens with two signs pass the filter but make `int` raise.

  lemma ScanDoubleSign()
    ensures FromTokens(["+-5"]) == IntRaised
  {
    assert ["+-5"] + [] == ["+-5"];
    assert "+-5"[2..] == "5";
    TwoSigns("+-5");
    RaiseToken("+-5", []);
  }

  /** "+-5" makes `parse_outcome` raise rather than return `None` (bot.py:78). */
  lemma DoubleSignRaises(wordToNum: string -> Option<int>)
    requires wordToNum("+-5") == None
    ensures ParseOutcome("+-5", wordToNum) == IntRaised
  {
    NormalizeOfLiteral("+-5");
    assert IsToken("+-5");
    SplitOfToken("+-5");
    ScanDoubleSign();
  }

  // Text with no digit token gives None.

  lemma NormalizeNoIdea()
    ensures Normalize("no idea") == "no idea"
  {
    LowerOfLower("no idea");
    ReplaceAllAbsent("no idea", "hundred", "00");
    ReplaceAllAbsent("no idea", "thousand", "000");
  }

  lemma SplitNoIdea()
    ensures Split("no idea") == ["no", "idea"]
  {
    assert "no idea" == "no" + " " + "idea";
    SplitTwoTokens("no", "idea");
  }

  lemma ScanNoIdea()
    ensures FromTokens(["no", "idea"]) == NoNumber
  {
    assert ["idea"] + [] == ["idea"];
    assert ["no", "idea"] == ["no"] + ["idea"];
    NotCandidate("no");
    NotCandidate("idea");
    assert FromTokens([]) == NoNumber;
    SkipToken("idea", []);
    SkipToken("no", ["idea"]);
  }

  /** A reply with no number in it is not an outcome (bot.py:79, 114). */
  lemma NoIdeaIsNoNumber(wordToNum: string -> Option<int>)
    requires wordToNum("no idea") == None
    ensures ParseOutcome("no idea", wordToNum) == NoNumber
  {
    NormalizeNoIdea();
    SplitNoIdea();
    ScanNoIdea();
  }
}
