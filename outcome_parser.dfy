/**
 * `parse_outcome` (bot.py:70-79): the trade outcome typed by the user.
 *
 * The text is lower-cased and `hundred` / `thousand` are replaced, as
 * substrings, by `00` / `000`. The word-to-number library is then tried on
 * that normalized text; it is a foreign call, so it is a parameter here
 * (`None` where it raises). When it raises, every whitespace-separated token
 * that is sign characters followed by digits is converted with `int`, and the
 * first result is the outcome.
 */
module OutcomeParser {
  import opened Wrappers
  import opened PyText

  /** What `parse_outcome` does: return a number, return `None`, or raise (from `int`). */
  datatype Parsed = Number(value: int) | NoNumber | IntRaised

  const SignChars: set<char> := {'-', '+'}

  /**
   * bot.py:71: the text the word-to-number library and the fallback scan both
   * see. No ASCII capital and no "hundred" or "thousand" is left in it.
   */
  function Normalize(text: string): (r: string)
    ensures forall i :: 0 <= i < |r| ==> !('A' <= r[i] <= 'Z')
    ensures !Contains(r, "hundred") && !Contains(r, "thousand")
  {
    UnitsReplaced(Lower(text));
    ReplaceAll(ReplaceAll(Lower(text), "hundred", "00"), "thousand", "000")
  }

  lemma UnitsReplaced(lowered: string)
    requires forall i :: 0 <= i < |lowered| ==> !('A' <= lowered[i] <= 'Z')
    ensures var r := ReplaceAll(ReplaceAll(lowered, "hundred", "00"), "thousand", "000");
      && (forall i :: 0 <= i < |r| ==> !('A' <= r[i] <= 'Z'))
      && !Contains(r, "hundred") && !Contains(r, "thousand")
  {
    var once := ReplaceAll(lowered, "hundred", "00");
    var r := ReplaceAll(once, "thousand", "000");
    ReplaceAllRemoves(lowered, "hundred", "00");
    ReplaceAllKeepsAbsent(once, "thousand", "000", "hundred");
    ReplaceAllRemoves(once, "thousand", "000");
    forall i | 0 <= i < |r| ensures !('A' <= r[i] <= 'Z') {
      var c := r[i];
      if 'A' <= c <= 'Z' {
        assert c !in lowered && c !in "00" && c !in "000";
        ReplaceAllKeepsOut(lowered, "hundred", "00", c);
        ReplaceAllKeepsOut(once, "thousand", "000", c);
      }
    }
  }

  /** The filter of bot.py:78: `s.lstrip('-+').isdigit()`. */
  predicate IsCandidate(tok: string) {
    IsDigits(LStrip(tok, SignChars))
  }

  /** How many sign characters lead a token. */
  function SignCount(tok: string): nat {
    |tok| - |LStrip(tok, SignChars)|
  }

  /** The tokens that pass the filter, in their order. */
  function Candidates(tokens: seq<string>): seq<string>
  {
    if tokens == [] then []
    else if IsCandidate(tokens[0]) then [tokens[0]] + Candidates(tokens[1..])
    else Candidates(tokens[1..])
  }

  /** `[int(s) for s in cands]`: `None` if `int` raises on any of them. */
  function Numbers(cands: seq<string>): (r: Option<seq<int>>)
    ensures r.Some? ==> |r.value| == |cands|
    ensures r.Some? ==> forall k :: 0 <= k < |cands| ==> IntOfToken(cands[k]) == Some(r.value[k])
    ensures r.None? <==> exists k :: 0 <= k < |cands| && IntOfToken(cands[k]).None?
  {
    if cands == [] then Some([])
    else match (IntOfToken(cands[0]), Numbers(cands[1..]))
      case (Some(n), Some(ns)) => Some([n] + ns)
      case _ => None
  }

  /** bot.py:78-79 on the tokens of the normalized text. */
  function FromTokens(tokens: seq<string>): (r: Parsed)
    ensures r == NoNumber <==> Candidates(tokens) == []
    ensures r == IntRaised <==>
      exists k :: 0 <= k < |Candidates(tokens)| && IntOfToken(Candidates(tokens)[k]).None?
    ensures r.Number? ==> Candidates(tokens) != [] && IntOfToken(Candidates(tokens)[0]) == Some(r.value)
  {
    match Numbers(Candidates(tokens))
    case None => IntRaised
    case Some(numbers) => if |numbers| > 0 then Number(numbers[0]) else NoNumber
  }

  /** bot.py:70-79. */
  function ParseOutcome(text: string, wordToNum: string -> Option<int>): (r: Parsed)
    ensures wordToNum(Normalize(text)).Some? ==> r == Number(wordToNum(Normalize(text)).value)
    ensures wordToNum(Normalize(text)).None? ==>
      var tokens := Split(Normalize(text));
      && (r == IntRaised <==> SomeBadCandidate(tokens))
      && (r == NoNumber <==> NoCandidate(tokens))
      && (forall k: nat :: FirstCandidateAt(tokens, k) && !SomeBadCandidate(tokens) ==>
            r == Number(TokenValue(tokens[k])))
  {
    var normalized := Normalize(text);
    match wordToNum(normalized)
    case Some(n) => Number(n)
    case None => FromTokensSpec(Split(normalized)); FromTokens(Split(normalized))
  }

  // ----- The fallback scan, stated token by token -----

  /** The value a candidate token stands for when it has at most one sign. */
  function TokenValue(tok: string): int
    requires IsCandidate(tok) && SignCount(tok) <= 1
  {
    var digits := LStrip(tok, SignChars);
    if SignCount(tok) == 1 && tok[0] == '-' then -(DigitsValue(digits) as int) else DigitsValue(digits)
  }

  /** No token passes the filter. */
  ghost predicate NoCandidate(tokens: seq<string>) {
    forall j :: 0 <= j < |tokens| ==> !IsCandidate(tokens[j])
  }

  /** Some token passes the filter but carries two or more signs, so `int` raises on it. */
  ghost predicate SomeBadCandidate(tokens: seq<string>) {
    exists j :: 0 <= j < |tokens| && IsCandidate(tokens[j]) && SignCount(tokens[j]) >= 2
  }

  /** `k` is the position of the first token that passes the filter. */
  ghost predicate FirstCandidateAt(tokens: seq<string>, k: nat) {
    k < |tokens| && IsCandidate(tokens[k]) && forall j :: 0 <= j < k ==> !IsCandidate(tokens[j])
  }

  /** `int` accepts a candidate token exactly when at most one sign leads it, with its signed value. */
  lemma IntOfCandidate(tok: string)
    requires IsCandidate(tok)
    ensures IntOfToken(tok).None? <==> SignCount(tok) >= 2
    ensures SignCount(tok) <= 1 ==> IntOfToken(tok) == Some(TokenValue(tok))
  {
    var digits := LStrip(tok, SignChars);
    if SignCount(tok) == 0 {
      assert digits == tok;
    } else if SignCount(tok) == 1 {
      assert digits == tok[1..];
      assert !IsDigit(tok[0]);
    } else {
      assert tok[0] in SignChars && tok[1] in SignChars;
      assert !IsDigits(tok);
      assert !IsDigits(tok[1..]) by { assert tok[1..][0] == tok[1]; }
    }
  }

  /** A bad candidate is the head one or one in the tail. */
  lemma BadCandidateCons(tokens: seq<string>)
    requires tokens != []
    ensures SomeBadCandidate(tokens) <==>
      (IsCandidate(tokens[0]) && SignCount(tokens[0]) >= 2) || SomeBadCandidate(tokens[1..])
  {
    if SomeBadCandidate(tokens[1..]) {
      var j :| 0 <= j < |tokens[1..]| && IsCandidate(tokens[1..][j]) && SignCount(tokens[1..][j]) >= 2;
      assert tokens[j + 1] == tokens[1..][j];
    }
    if SomeBadCandidate(tokens) {
      var j :| 0 <= j < |tokens| && IsCandidate(tokens[j]) && SignCount(tokens[j]) >= 2;
      if j > 0 {
        assert tokens[1..][j - 1] == tokens[j];
      }
    }
  }

  /** `int` raises on some candidate exactly when some token is a candidate with two or more signs. */
  lemma {:induction false} NumbersRaise(tokens: seq<string>)
    ensures Numbers(Candidates(tokens)).None? <==> SomeBadCandidate(tokens)
  {
    if tokens != [] {
      NumbersRaise(tokens[1..]);
      BadCandidateCons(tokens);
      var t := tokens[0];
      var rest := Candidates(tokens[1..]);
      if IsCandidate(t) {
        IntOfCandidate(t);
        var c := Candidates(tokens);
        assert c == [t] + rest;
        assert c[0] == t && c[1..] == rest;
        assert Numbers(c).None? <==> IntOfToken(t).None? || Numbers(rest).None?;
      } else {
        assert Candidates(tokens) == rest;
      }
    }
  }

  /** With no token passing the filter, the scan finds nothing; and only then. */
  lemma {:induction false} CandidatesEmpty(tokens: seq<string>)
    ensures Candidates(tokens) == [] <==> NoCandidate(tokens)
  {
    if tokens != [] {
      CandidatesEmpty(tokens[1..]);
      if NoCandidate(tokens[1..]) && !IsCandidate(tokens[0]) {
        forall j | 0 <= j < |tokens| ensures !IsCandidate(tokens[j]) {
          if j > 0 { assert tokens[j] == tokens[1..][j - 1]; }
        }
      }
      if NoCandidate(tokens) {
        forall j | 0 <= j < |tokens[1..]| ensures !IsCandidate(tokens[1..][j]) {
          assert tokens[1..][j] == tokens[j + 1];
        }
      }
    }
  }

  /** The filter keeps a lone token exactly when it passes `lstrip('-+').isdigit()`. */
  lemma CandidatesOfOne(tok: string)
    ensures Candidates([tok]) == if IsCandidate(tok) then [tok] else []
  {
    assert [tok][1..] == [];
  }

  /** The filter works token by token: it keeps order and drops only tokens that fail the test. */
  lemma {:induction false} CandidatesAppend(a: seq<string>, b: seq<string>)
    ensures Candidates(a + b) == Candidates(a) + Candidates(b)
  {
    if a == [] {
      assert a + b == b;
    } else {
      assert (a + b)[0] == a[0];
      assert (a + b)[1..] == a[1..] + b;
      CandidatesAppend(a[1..], b);
    }
  }

  /** The first candidate token is the first element of the filtered list. */
  lemma {:induction false} CandidatesHead(tokens: seq<string>, k: nat)
    requires FirstCandidateAt(tokens, k)
    ensures Candidates(tokens) != [] && Candidates(tokens)[0] == tokens[k]
  {
    if k > 0 {
      assert FirstCandidateAt(tokens[1..], k - 1) by {
        forall j | 0 <= j < k - 1 ensures !IsCandidate(tokens[1..][j]) {
          assert tokens[1..][j] == tokens[j + 1];
        }
      }
      CandidatesHead(tokens[1..], k - 1);
    }
  }

  /** The first element of `Numbers` is `int` of the first candidate. */
  lemma NumbersHead(cands: seq<string>)
    requires cands != [] && Numbers(cands).Some?
    ensures Numbers(cands).value[0] == IntOfToken(cands[0]).value
  {
  }

  /**
   * What the fallback of bot.py:78-79 returns, stated over the tokens:
   * it raises exactly when some candidate has two or more signs, it returns
   * `None` exactly when no token is a candidate, and otherwise it returns the
   * value of the first candidate.
   */
  lemma FromTokensSpec(tokens: seq<string>)
    ensures FromTokens(tokens) == IntRaised <==> SomeBadCandidate(tokens)
    ensures FromTokens(tokens).Number? ==>
              exists k: nat :: FirstCandidateAt(tokens, k) && SignCount(tokens[k]) <= 1 &&
                               FromTokens(tokens).value == TokenValue(tokens[k])
    ensures FromTokens(tokens) == NoNumber <==> NoCandidate(tokens) && !SomeBadCandidate(tokens)
    ensures forall k: nat :: FirstCandidateAt(tokens, k) && !SomeBadCandidate(tokens) ==>
              IsCandidate(tokens[k]) && SignCount(tokens[k]) <= 1 &&
              FromTokens(tokens) == Number(TokenValue(tokens[k]))
  {
    NumbersRaise(tokens);
    CandidatesEmpty(tokens);
    if !NoCandidate(tokens) {
      FirstCandidateExists(tokens);
    }
    forall k: nat | FirstCandidateAt(tokens, k) && !SomeBadCandidate(tokens)
      ensures IsCandidate(tokens[k]) && SignCount(tokens[k]) <= 1
      ensures FromTokens(tokens) == Number(TokenValue(tokens[k]))
    {
      CandidatesHead(tokens, k);
      IntOfCandidate(tokens[k]);
      NumbersHead(Candidates(tokens));
    }
  }

  /** When some token passes the filter, a first one does. */
  lemma {:induction false} FirstCandidateExists(tokens: seq<string>)
    requires !NoCandidate(tokens)
    ensures exists k: nat :: FirstCandidateAt(tokens, k)
  {
    if IsCandidate(tokens[0]) {
      assert FirstCandidateAt(tokens, 0);
    } else {
      assert !NoCandidate(tokens[1..]) by {
        var j :| 0 <= j < |tokens| && IsCandidate(tokens[j]);
        assert tokens[1..][j - 1] == tokens[j];
      }
      FirstCandidateExists(tokens[1..]);
      var k: nat :| FirstCandidateAt(tokens[1..], k);
      assert FirstCandidateAt(tokens, k + 1) by {
        forall j | 0 <= j < k + 1 ensures !IsCandidate(tokens[j]) {
          if j > 0 { assert tokens[j] == tokens[1..][j - 1]; }
        }
      }
    }
  }

  // ----- Properties of parse_outcome -----

  /**
   * A bare integer literal, with at most one sign, parses to its own value
   * whenever the word-to-number library raises on it or agrees with it.
   */
  lemma SignedLiteral(sign: string, digits: string, wordToNum: string -> Option<int>)
    requires sign == "" || sign == "+" || sign == "-"
    requires IsDigits(digits)
    requires var value := if sign == "-" then -(DigitsValue(digits) as int) else DigitsValue(digits);
      wordToNum(sign + digits) == None || wordToNum(sign + digits) == Some(value)
    ensures ParseOutcome(sign + digits, wordToNum) ==
      Number(if sign == "-" then -(DigitsValue(digits) as int) else DigitsValue(digits))
  {
    var tok := sign + digits;
    LiteralChars(sign, digits);
    NormalizeOfLiteral(tok);
    if wordToNum(tok) == None {
      LiteralFallback(sign, digits);
    }
  }

  /** Every character of a signed literal is a sign or a digit. */
  lemma LiteralChars(sign: string, digits: string)
    requires sign == "" || sign == "+" || sign == "-"
    requires IsDigits(digits)
    ensures forall i :: 0 <= i < |sign + digits| ==> (sign + digits)[i] in SignChars || IsDigit((sign + digits)[i])
  {
    forall i | 0 <= i < |sign + digits|
      ensures (sign + digits)[i] in SignChars || IsDigit((sign + digits)[i])
    {
      if i >= |sign| {
        assert (sign + digits)[i] == digits[i - |sign|];
      }
    }
  }

  /** The fallback scan of bot.py:76-79 on a signed literal gives its value. */
  lemma LiteralFallback(sign: string, digits: string)
    requires sign == "" || sign == "+" || sign == "-"
    requires IsDigits(digits)
    ensures FromTokens(Split(sign + digits)) ==
      Number(if sign == "-" then -(DigitsValue(digits) as int) else DigitsValue(digits))
  {
    SplitOfLiteral(sign, digits);
    ScanOfLiteral(sign, digits);
  }

  lemma SplitOfLiteral(sign: string, digits: string)
    requires sign == "" || sign == "+" || sign == "-"
    requires IsDigits(digits)
    ensures Split(sign + digits) == [sign + digits]
  {
    LiteralChars(sign, digits);
    assert IsToken(sign + digits);
    SplitOfToken(sign + digits);
  }

  lemma ScanOfLiteral(sign: string, digits: string)
    requires sign == "" || sign == "+" || sign == "-"
    requires IsDigits(digits)
    ensures FromTokens([sign + digits]) ==
      Number(if sign == "-" then -(DigitsValue(digits) as int) else DigitsValue(digits))
  {
    TokenValueOfLiteral(sign, digits);
    LoneCandidate(sign + digits);
  }

  lemma TokenValueOfLiteral(sign: string, digits: string)
    requires sign == "" || sign == "+" || sign == "-"
    requires IsDigits(digits)
    ensures IsCandidate(sign + digits) && SignCount(sign + digits) <= 1
    ensures TokenValue(sign + digits) ==
      (if sign == "-" then -(DigitsValue(digits) as int) else DigitsValue(digits))
  {
    StripSign(sign, digits);
  }

  /** `lstrip('-+')` removes exactly the sign in front of a digit string. */
  lemma StripSign(sign: string, digits: string)
    requires sign == "" || sign == "+" || sign == "-"
    requires IsDigits(digits)
    ensures LStrip(sign + digits, SignChars) == digits
    ensures SignCount(sign + digits) == |sign|
    ensures (sign + digits)[0] == '-' <==> sign == "-"
  {
    assert digits[0] !in SignChars;
    assert LStrip(digits, SignChars) == digits;
    if sign != "" {
      var tok := sign + digits;
      assert tok[0] in SignChars;
      assert tok[1..] == digits;
    } else {
      assert sign + digits == digits;
    }
  }

  /** Two signs in front of digits pass the filter (and make `int` raise). */
  lemma TwoSigns(tok: string)
    requires |tok| >= 3 && tok[0] in SignChars && tok[1] in SignChars && IsDigits(tok[2..])
    ensures IsCandidate(tok) && SignCount(tok) == 2
  {
    var digits := tok[2..];
    assert digits[0] !in SignChars;
    assert LStrip(digits, SignChars) == digits;
    assert tok[1..][1..] == digits;
    assert LStrip(tok[1..], SignChars) == digits;
  }

  /** A token that starts with neither a sign nor a digit is not a candidate. */
  lemma NotCandidate(w: string)
    requires w != [] && w[0] !in SignChars && !IsDigit(w[0])
    ensures !IsCandidate(w)
  {
    assert LStrip(w, SignChars) == w;
  }

  /** Normalization leaves text made only of signs and digits alone. */
  lemma NormalizeOfLiteral(tok: string)
    requires forall i :: 0 <= i < |tok| ==> tok[i] in SignChars || IsDigit(tok[i])
    ensures Normalize(tok) == tok
  {
    LowerOfLower(tok);
    ReplaceAllAbsent(tok, "hundred", "00");
    ReplaceAllAbsent(tok, "thousand", "000");
  }

  // The scan one token at a time, for evaluating it on given token lists.

  /** A token that fails the filter is passed over. */
  lemma SkipToken(tok: string, rest: seq<string>)
    requires !IsCandidate(tok)
    ensures FromTokens([tok] + rest) == FromTokens(rest)
  {
    assert ([tok] + rest)[1..] == rest;
  }

  /** A leading candidate with at most one sign is the outcome, unless a later candidate makes `int` raise. */
  lemma TakeToken(tok: string, rest: seq<string>)
    requires IsCandidate(tok) && SignCount(tok) <= 1
    requires FromTokens(rest) != IntRaised
    ensures FromTokens([tok] + rest) == Number(TokenValue(tok))
  {
    IntOfCandidate(tok);
    assert ([tok] + rest)[1..] == rest;
    var cands := Candidates([tok] + rest);
    assert cands == [tok] + Candidates(rest);
    assert cands[1..] == Candidates(rest);
  }

  /** A candidate with two or more signs makes the whole scan raise. */
  lemma RaiseToken(tok: string, rest: seq<string>)
    requires IsCandidate(tok) && SignCount(tok) >= 2
    ensures FromTokens([tok] + rest) == IntRaised
  {
    IntOfCandidate(tok);
    assert ([tok] + rest)[1..] == rest;
  }

  /** A token of digits only is a candidate standing for its decimal value. */
  lemma UnsignedToken(digits: string)
    requires IsDigits(digits)
    ensures IsCandidate(digits) && SignCount(digits) <= 1 && TokenValue(digits) == DigitsValue(digits)
  {
    assert "" + digits == digits;
    TokenValueOfLiteral("", digits);
  }

  /** The scan over a single token of digits. */
  lemma UnsignedScan(digits: string)
    requires IsDigits(digits)
    ensures FromTokens([digits]) == Number(DigitsValue(digits))
  {
    UnsignedToken(digits);
    LoneCandidate(digits);
  }

  /** The scan over a single candidate token with at most one sign. */
  lemma LoneCandidate(tok: string)
    requires IsCandidate(tok) && SignCount(tok) <= 1
    ensures FromTokens([tok]) == Number(TokenValue(tok))
  {
    assert [tok] + [] == [tok];
    assert FromTokens([]) == NoNumber;
    TakeToken(tok, []);
  }

  /** `lower` introduces no minus sign. */
  lemma LowerKeepsOutMinus(s: string)
    requires '-' !in s
    ensures '-' !in Lower(s)
  {
  }

  /**
   * There is no sign inference from words: when the word-to-number library
   * raises, an outcome is negative only if the text holds a minus sign
   * ("Lost 2 hundred" is never a loss).
   */
  lemma NegativeNeedsMinus(text: string, wordToNum: string -> Option<int>)
    requires wordToNum(Normalize(text)) == None
    requires '-' !in text
    ensures ParseOutcome(text, wordToNum).Number? ==> ParseOutcome(text, wordToNum).value >= 0
  {
    LowerKeepsOutMinus(text);
    ReplaceAllKeepsOut(Lower(text), "hundred", "00", '-');
    ReplaceAllKeepsOut(ReplaceAll(Lower(text), "hundred", "00"), "thousand", "000", '-');
    var tokens := Split(Normalize(text));
    FromTokensSpec(tokens);
    if FromTokens(tokens).Number? {
      var k: nat :| FirstCandidateAt(tokens, k) && SignCount(tokens[k]) <= 1 &&
                    FromTokens(tokens).value == TokenValue(tokens[k]);
      SplitKeepsOut(Normalize(text), '-', k);
    }
  }
}
