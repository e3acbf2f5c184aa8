/**
 * The few Python `str` operations the bot relies on, written as functions over
 * `seq<char>`: `lower`, `strip`, `split()`, `replace`, `lstrip('-+')`,
 * `isdigit`, `in` (substring test) and `int` on a whitespace-free token.
 */
module PyText {
  import opened Wrappers

  /** Python's `str.isspace` on one character. */
  predicate IsSpace(c: char) {
    c == ' ' || ('\t' <= c <= '\r') || ('\U{1C}' <= c <= '\U{1F}')
    || c == '\U{85}' || c == '\U{A0}' || c == '\U{1680}'
    || ('\U{2000}' <= c <= '\U{200A}') || c == '\U{2028}' || c == '\U{2029}'
    || c == '\U{202F}' || c == '\U{205F}' || c == '\U{3000}'
  }

  predicate HasNoSpace(s: string) {
    forall i :: 0 <= i < |s| ==> !IsSpace(s[i])
  }

  /** `str.lower` on one character (ASCII letters only). */
  function LowerChar(c: char): (r: char)
    ensures 'A' <= c <= 'Z' ==> 'a' <= r <= 'z' && r as int == c as int + 32
    ensures !('A' <= c <= 'Z') ==> r == c
  {
    if 'A' <= c <= 'Z' then (c as int + 32) as char else c
  }

  /** `str.lower`: every ASCII capital becomes its small letter, nothing else moves. */
  function Lower(s: string): (r: string)
    ensures |r| == |s|
    ensures forall i :: 0 <= i < |s| ==> r[i] == LowerChar(s[i])
  {
    seq(|s|, i requires 0 <= i < |s| => LowerChar(s[i]))
  }

  /** `sub` occurs in `s` starting at position `i`. */
  predicate OccursAt(s: string, sub: string, i: nat) {
    i + |sub| <= |s| && s[i..i + |sub|] == sub
  }

  /** `sub in s`: `sub` occurs in `s` at some position. */
  predicate Contains(s: string, sub: string) {
    exists i: nat | i <= |s| :: OccursAt(s, sub, i)
  }

  /**
   * `s.replace(pat, rep)`: scanning from the left, every occurrence of `pat`
   * that does not overlap an earlier replaced one becomes `rep`.
   */
  function ReplaceAll(s: string, pat: string, rep: string): (r: string)
    requires |pat| > 0
    decreases |s|
  {
    if |s| == 0 then []
    else if |pat| <= |s| && s[..|pat|] == pat then rep + ReplaceAll(s[|pat|..], pat, rep)
    else [s[0]] + ReplaceAll(s[1..], pat, rep)
  }

  /** The whitespace at the front of `s` removed (`lstrip()`). */
  function DropSpace(s: string): (r: string)
    ensures |r| <= |s| && r == s[|s| - |r|..]
    ensures r == [] || !IsSpace(r[0])
    ensures forall i :: 0 <= i < |s| - |r| ==> IsSpace(s[i])
  {
    if s != [] && IsSpace(s[0]) then DropSpace(s[1..]) else s
  }

  /** The whitespace at the end of `s` removed (`rstrip()`). */
  function DropTrailingSpace(s: string): (r: string)
    ensures |r| <= |s| && r == s[..|r|]
    ensures r == [] || !IsSpace(r[|r| - 1])
    ensures forall i :: |r| <= i < |s| ==> IsSpace(s[i])
  {
    if s != [] && IsSpace(s[|s| - 1]) then DropTrailingSpace(s[..|s| - 1]) else s
  }

  /** `str.strip()`: the whitespace at both ends removed (see `StripShape`). */
  function Strip(s: string): string {
    DropTrailingSpace(DropSpace(s))
  }

  /**
   * `strip()` returns a stretch of `s` that neither starts nor ends with
   * whitespace, with only whitespace before and after it.
   */
  lemma StripShape(s: string)
    ensures Strip(s) == [] || (!IsSpace(Strip(s)[0]) && !IsSpace(Strip(s)[|Strip(s)| - 1]))
    ensures exists i :: StrippedAt(s, Strip(s), i)
  {
    var front := DropSpace(s);
    var r := DropTrailingSpace(front);
    StrippedFrom(s, front, r);
  }

  /**
   * A front part `r` of a suffix `front` of `s`, each cut at whitespace only,
   * is stripped from `s`.
   */
  lemma StrippedFrom(s: string, front: string, r: string)
    requires |front| <= |s| && front == s[|s| - |front|..]
    requires front == [] || !IsSpace(front[0])
    requires forall j :: 0 <= j < |s| - |front| ==> IsSpace(s[j])
    requires |r| <= |front| && r == front[..|r|]
    requires r == [] || !IsSpace(r[|r| - 1])
    requires forall j :: |r| <= j < |front| ==> IsSpace(front[j])
    ensures r == [] || (!IsSpace(r[0]) && !IsSpace(r[|r| - 1]))
    ensures exists i :: StrippedAt(s, r, i)
  {
    StrippedWithin(s, front, r);
    StrippedEnds(front, r);
    assert StrippedAt(s, r, |s| - |front|);
  }

  /** A front part of a text that does not start with whitespace, itself not ending with it, has no whitespace at either end. */
  lemma StrippedEnds(front: string, r: string)
    requires front == [] || !IsSpace(front[0])
    requires |r| <= |front| && r == front[..|r|]
    requires r == [] || !IsSpace(r[|r| - 1])
    ensures r == [] || (!IsSpace(r[0]) && !IsSpace(r[|r| - 1]))
  {
    if r != [] {
      assert r[0] == front[0];
    }
  }

  /**
   * A front part of a suffix of `s`, with only whitespace around it in `s`,
   * is stripped from `s`.
   */
  lemma StrippedWithin(s: string, front: string, r: string)
    requires |front| <= |s| && front == s[|s| - |front|..]
    requires forall j :: 0 <= j < |s| - |front| ==> IsSpace(s[j])
    requires |r| <= |front| && r == front[..|r|]
    requires forall j :: |r| <= j < |front| ==> IsSpace(front[j])
    ensures StrippedAt(s, r, |s| - |front|)
  {
    var i := |s| - |front|;
    forall j | i + |r| <= j < |s| ensures IsSpace(s[j]) {
      assert s[j] == front[j - i];
    }
  }

  /** `r` is `s` from position `i` on, with only whitespace before and after it. */
  predicate StrippedAt(s: string, r: string, i: nat) {
    i + |r| <= |s| && r == s[i..i + |r|] &&
    (forall j :: 0 <= j < i ==> IsSpace(s[j])) && (forall j :: i + |r| <= j < |s| ==> IsSpace(s[j]))
  }

  /** `strip()` leaves a text alone that neither starts nor ends with whitespace. */
  lemma StripUnpadded(s: string)
    requires s != [] && !IsSpace(s[0]) && !IsSpace(s[|s| - 1])
    ensures Strip(s) == s
  {
  }

  /** The longest prefix of `s` holding no whitespace. */
  function Word(s: string): (w: string)
    ensures |w| <= |s| && w == s[..|w|]
    ensures HasNoSpace(w)
    ensures |w| == |s| || IsSpace(s[|w|])
    ensures s != [] && !IsSpace(s[0]) ==> |w| > 0
  {
    if s == [] || IsSpace(s[0]) then [] else [s[0]] + Word(s[1..])
  }

  /** A piece `str.split()` can return: non-empty, without whitespace. */
  predicate IsToken(w: string) {
    w != [] && HasNoSpace(w)
  }

  /** `str.split()` with no separator: the maximal runs of non-whitespace, in order. */
  function Split(s: string): (tokens: seq<string>)
    ensures forall k :: 0 <= k < |tokens| ==> IsToken(tokens[k])
    decreases |s|
  {
    if s == [] then []
    else if IsSpace(s[0]) then Split(s[1..])
    else
      var w := Word(s);
      assert IsToken(w);
      [w] + Split(s[|w|..])
  }

  /** `s.lstrip(chars)`. */
  function LStrip(s: string, chars: set<char>): (r: string)
    ensures |r| <= |s| && r == s[|s| - |r|..]
    ensures r == [] || r[0] !in chars
    ensures forall i :: 0 <= i < |s| - |r| ==> s[i] in chars
  {
    if s != [] && s[0] in chars then LStrip(s[1..], chars) else s
  }

  predicate IsDigit(c: char) {
    '0' <= c <= '9'
  }

  /** `str.isdigit` (ASCII digits): non-empty and digits only. */
  predicate IsDigits(s: string) {
    |s| > 0 && forall i :: 0 <= i < |s| ==> IsDigit(s[i])
  }

  /** The decimal value of a string of digits. */
  function DigitsValue(s: string): (n: nat)
    requires forall i :: 0 <= i < |s| ==> IsDigit(s[i])
  {
    if s == [] then 0
    else
      assert IsDigit(s[|s| - 1]);
      DigitsValue(s[..|s| - 1]) * 10 + (s[|s| - 1] as int - '0' as int)
  }

  /**
   * Python's `int(tok)` for a token holding no whitespace and no underscore:
   * at most one sign, then at least one digit; `None` where `int` raises.
   */
  function IntOfToken(tok: string): (r: Option<int>)
  {
    if IsDigits(tok) then Some(DigitsValue(tok))
    else if |tok| > 0 && tok[0] == '-' && IsDigits(tok[1..]) then Some(-(DigitsValue(tok[1..]) as int))
    else if |tok| > 0 && tok[0] == '+' && IsDigits(tok[1..]) then Some(DigitsValue(tok[1..]))
    else None
  }

  // Facts used to evaluate these operations on particular texts.

  /** A string without ASCII capitals is its own lower-case form. */
  lemma LowerOfLower(s: string)
    requires forall i :: 0 <= i < |s| ==> !('A' <= s[i] <= 'Z')
    ensures Lower(s) == s
  {
  }

  /** `replace` copies a prefix holding no first character of the pattern unchanged. */
  lemma {:induction false} ReplaceAllSkips(a: string, b: string, pat: string, rep: string)
    requires |pat| > 0
    requires forall i :: 0 <= i < |a| ==> a[i] != pat[0]
    ensures ReplaceAll(a + b, pat, rep) == a + ReplaceAll(b, pat, rep)
  {
    if a != [] {
      assert (a + b)[1..] == a[1..] + b;
      assert (a + b)[0] == a[0] != pat[0];
      assert |pat| <= |a + b| ==> (a + b)[..|pat|][0] != pat[0];
      ReplaceAllSkips(a[1..], b, pat, rep);
      calc {
        ReplaceAll(a + b, pat, rep);
        [a[0]] + ReplaceAll(a[1..] + b, pat, rep);
        [a[0]] + (a[1..] + ReplaceAll(b, pat, rep));
        { assert [a[0]] + a[1..] == a; }
        a + ReplaceAll(b, pat, rep);
      }
    } else {
      assert a + b == b;
    }
  }

  /** `replace` turns a leading occurrence of the pattern into the replacement. */
  lemma ReplaceAllHit(pat: string, b: string, rep: string)
    requires |pat| > 0
    ensures ReplaceAll(pat + b, pat, rep) == rep + ReplaceAll(b, pat, rep)
  {
    assert (pat + b)[..|pat|] == pat;
    assert (pat + b)[|pat|..] == b;
  }

  /** `sub in s` is false when `sub` holds a character `s` does not. */
  lemma MissingCharNotContained(s: string, sub: string, c: char)
    requires c in sub && c !in s
    ensures !Contains(s, sub)
  {
  }

  /** `sub in s` holds when `sub` occurs at `i`, written out character by character. */
  lemma ContainsAt(s: string, sub: string, i: nat)
    requires i + |sub| <= |s|
    requires forall k :: 0 <= k < |sub| ==> s[i + k] == sub[k]
    ensures Contains(s, sub)
  {
    assert s[i..i + |sub|] == sub;
    assert OccursAt(s, sub, i);
  }

  /** `replace` on a text whose only occurrence of the pattern ends it. */
  lemma ReplaceAllAtEnd(a: string, pat: string, rep: string)
    requires |pat| > 0
    requires forall i :: 0 <= i < |a| ==> a[i] != pat[0]
    ensures ReplaceAll(a + pat, pat, rep) == a + rep
  {
    ReplaceAllSkips(a, pat, pat, rep);
    ReplaceAllHit(pat, [], rep);
    assert pat + [] == pat;
    assert rep + [] == rep;
  }

  /** `replace` leaves a string holding no first character of the pattern unchanged. */
  lemma ReplaceAllAbsent(s: string, pat: string, rep: string)
    requires |pat| > 0
    requires forall i :: 0 <= i < |s| ==> s[i] != pat[0]
    ensures ReplaceAll(s, pat, rep) == s
  {
    ReplaceAllSkips(s, [], pat, rep);
    assert s + [] == s;
  }

  /** `replace` leaves a text shorter than the pattern unchanged. */
  lemma {:induction false} ReplaceAllShort(s: string, pat: string, rep: string)
    requires 0 < |pat| && |s| < |pat|
    ensures ReplaceAll(s, pat, rep) == s
  {
    if s != [] {
      ReplaceAllShort(s[1..], pat, rep);
      assert s == [s[0]] + s[1..];
    }
  }

  /**
   * `replace` leaves a string alone when the pattern's first two characters
   * never stand next to each other in it.
   */
  lemma {:induction false} ReplaceAllNoPair(s: string, pat: string, rep: string)
    requires |pat| >= 2
    requires forall i :: 0 <= i < |s| - 1 ==> !(s[i] == pat[0] && s[i + 1] == pat[1])
    ensures ReplaceAll(s, pat, rep) == s
  {
    if |s| > 0 {
      ReplaceAllNoPair(s[1..], pat, rep);
      assert s == [s[0]] + s[1..];
    }
  }

  /** `replace` brings in no character that is neither in the text nor in the replacement. */
  lemma {:induction false} ReplaceAllKeepsOut(s: string, pat: string, rep: string, c: char)
    requires |pat| > 0
    requires c !in s && c !in rep
    ensures c !in ReplaceAll(s, pat, rep)
  {
    if |s| == 0 {
    } else if |pat| <= |s| && s[..|pat|] == pat {
      assert forall x :: x in s[|pat|..] ==> x in s;
      ReplaceAllKeepsOut(s[|pat|..], pat, rep, c);
    } else {
      assert forall x :: x in s[1..] ==> x in s;
      ReplaceAllKeepsOut(s[1..], pat, rep, c);
    }
  }

  /** Leading whitespace does not change `split()`. */
  lemma SplitSkipsSpace(c: char, rest: string)
    requires IsSpace(c)
    ensures Split([c] + rest) == Split(rest)
  {
    assert ([c] + rest)[1..] == rest;
  }

  /** A token followed by whitespace (or by nothing) is the first piece of `split()`. */
  lemma SplitToken(w: string, rest: string)
    requires IsToken(w)
    requires rest == [] || IsSpace(rest[0])
    ensures Split(w + rest) == [w] + Split(rest)
  {
    var s := w + rest;
    assert s[0] == w[0];
    WordOfToken(w, rest);
    assert s[|w|..] == rest;
  }

  /** A token and one blank in front of the rest of the text. */
  lemma SplitWord(w: string, rest: string)
    requires IsToken(w)
    ensures Split(w + [' '] + rest) == [w] + Split(rest)
  {
    assert w + [' '] + rest == w + ([' '] + rest);
    SplitToken(w, [' '] + rest);
    SplitSkipsSpace(' ', rest);
  }

  /** Two tokens with one blank between them. */
  lemma SplitTwoTokens(a: string, b: string)
    requires IsToken(a) && IsToken(b)
    ensures Split(a + " " + b) == [a, b]
  {
    assert [a] + [b] == [a, b];
    assert a + " " + b == a + [' '] + b;
    SplitWord(a, b);
    SplitOfToken(b);
  }

  /** Three tokens with one blank between each. */
  lemma SplitThreeTokens(a: string, b: string, c: string)
    requires IsToken(a) && IsToken(b) && IsToken(c)
    ensures Split(a + " " + b + " " + c) == [a, b, c]
  {
    assert [a] + [b, c] == [a, b, c];
    assert a + " " + b + " " + c == a + [' '] + (b + " " + c);
    SplitWord(a, b + " " + c);
    SplitTwoTokens(b, c);
  }

  /** `Word` stops exactly at the end of a token followed by whitespace or nothing. */
  lemma {:induction false} WordOfToken(w: string, rest: string)
    requires HasNoSpace(w)
    requires rest == [] || IsSpace(rest[0])
    ensures Word(w + rest) == w
  {
    if w != [] {
      assert (w + rest)[1..] == w[1..] + rest;
      WordOfToken(w[1..], rest);
    } else {
      assert w + rest == rest;
    }
  }

  /** A single token splits to itself. */
  lemma SplitOfToken(w: string)
    requires IsToken(w)
    ensures Split(w) == [w]
  {
    SplitToken(w, []);
    assert w + [] == w;
  }

  /** A slice holds no character its string does not. */
  lemma SliceKeepsOut(s: string, i: nat, j: nat, c: char)
    requires i <= j <= |s| && c !in s
    ensures c !in s[i..j]
  {
  }

  /** Every character of every piece of `split()` comes from the text. */
  lemma {:induction false} SplitKeepsOut(s: string, c: char, k: nat)
    requires c !in s && k < |Split(s)|
    ensures c !in Split(s)[k]
    decreases |s|
  {
    if IsSpace(s[0]) {
      SliceKeepsOut(s, 1, |s|, c);
      SplitKeepsOut(s[1..], c, k);
    } else {
      var w := Word(s);
      if k == 0 {
        SliceKeepsOut(s, 0, |w|, c);
      } else {
        SliceKeepsOut(s, |w|, |s|, c);
        SplitKeepsOut(s[|w|..], c, k - 1);
      }
    }
  }

  // ----- `split()` fully determined -----

  /** The characters of `s` that are not whitespace, in order. */
  function NonSpace(s: string): (r: string)
    ensures HasNoSpace(r)
  {
    if s == [] then [] else (if IsSpace(s[0]) then [] else [s[0]]) + NonSpace(s[1..])
  }

  /** The pieces joined without separators. */
  function Concat(pieces: seq<string>): string {
    if pieces == [] then [] else pieces[0] + Concat(pieces[1..])
  }

  lemma {:induction false} NonSpaceAppend(a: string, b: string)
    ensures NonSpace(a + b) == NonSpace(a) + NonSpace(b)
  {
    if a == [] {
      assert a + b == b;
    } else {
      assert (a + b)[0] == a[0];
      assert (a + b)[1..] == a[1..] + b;
      NonSpaceAppend(a[1..], b);
    }
  }

  lemma {:induction false} NonSpaceOfToken(w: string)
    requires HasNoSpace(w)
    ensures NonSpace(w) == w
  {
    if w != [] {
      assert HasNoSpace(w[1..]) by {
        forall i | 0 <= i < |w[1..]| ensures !IsSpace(w[1..][i]) {
          assert w[1..][i] == w[i + 1];
        }
      }
      NonSpaceOfToken(w[1..]);
      assert w == [w[0]] + w[1..];
    }
  }

  /** Joined together, the pieces of `split()` are the text with its whitespace removed: nothing is lost. */
  lemma {:induction false} SplitConcat(s: string)
    ensures Concat(Split(s)) == NonSpace(s)
    decreases |s|
  {
    if s == [] {
    } else if IsSpace(s[0]) {
      SplitConcat(s[1..]);
    } else {
      var w := Word(s);
      var rest := s[|w|..];
      assert s == w + rest;
      SplitConcat(rest);
      NonSpaceAppend(w, rest);
      NonSpaceOfToken(w);
      var pieces := Split(s);
      assert pieces == [w] + Split(rest);
      assert pieces[0] == w && pieces[1..] == Split(rest);
    }
  }

  /** `Word` stops at the first whitespace character. */
  lemma {:induction false} WordBeforeSpace(a: string, c: char, b: string)
    requires IsSpace(c)
    ensures Word(a + [c] + b) == Word(a)
    decreases |a|
  {
    var s := a + [c] + b;
    if a == [] {
      assert s[0] == c;
    } else if IsSpace(a[0]) {
      assert s[0] == a[0];
    } else {
      assert s[0] == a[0];
      assert s[1..] == a[1..] + [c] + b;
      WordBeforeSpace(a[1..], c, b);
    }
  }

  /**
   * Any whitespace character separates pieces: `split()` of `a`, a blank,
   * then `b` is the pieces of `a` followed by the pieces of `b`. With
   * `Split([]) == []` and `SplitOfToken` this fixes `split()` on every text.
   */
  lemma {:induction false} SplitAtSpace(a: string, c: char, b: string)
    requires IsSpace(c)
    ensures Split(a + [c] + b) == Split(a) + Split(b)
    decreases |a|
  {
    if a == [] {
      assert a + [c] + b == [c] + b;
      assert ([c] + b)[1..] == b;
    } else if IsSpace(a[0]) {
      SplitAtSpace(a[1..], c, b);
      SplitAtSpaceBlankStep(a, c, b);
    } else {
      SplitAtSpace(a[|Word(a)|..], c, b);
      SplitAtSpaceWordStep(a, c, b);
    }
  }

  /** The step of `SplitAtSpace` when `a` starts with whitespace. */
  lemma SplitAtSpaceBlankStep(a: string, c: char, b: string)
    requires IsSpace(c) && a != [] && IsSpace(a[0])
    requires Split(a[1..] + [c] + b) == Split(a[1..]) + Split(b)
    ensures Split(a + [c] + b) == Split(a) + Split(b)
  {
    assert (a + [c] + b)[0] == a[0];
    DropAround(a, c, b, 1);
  }

  /** The step of `SplitAtSpace` when `a` starts with a word. */
  lemma SplitAtSpaceWordStep(a: string, c: char, b: string)
    requires IsSpace(c) && a != [] && !IsSpace(a[0])
    requires Split(a[|Word(a)|..] + [c] + b) == Split(a[|Word(a)|..]) + Split(b)
    ensures Split(a + [c] + b) == Split(a) + Split(b)
  {
    var w := Word(a);
    WordBeforeSpace(a, c, b);
    SplitOfWord(a + [c] + b);
    SplitOfWord(a);
    DropAround(a, c, b, |w|);
    Regroup([w], Split(a[|w|..]), Split(b));
  }

  /** `split()` of a text starting with a non-blank: its first word, then the rest split. */
  lemma SplitOfWord(s: string)
    requires s != [] && !IsSpace(s[0])
    ensures Split(s) == [Word(s)] + Split(s[|Word(s)|..])
  {
  }

  /** Dropping a prefix of the part before the blank. */
  lemma DropAround(a: string, c: char, b: string, n: nat)
    requires n <= |a|
    ensures (a + [c] + b)[n..] == a[n..] + [c] + b
  {
  }

  /** Concatenation of token lists regrouped. */
  lemma Regroup(x: seq<string>, y: seq<string>, z: seq<string>)
    ensures x + (y + z) == (x + y) + z
  {
  }

  // ----- What `replace` removes -----

  /** The part of `replace`'s result before any replacement text is copied from the input. */
  lemma {:induction false} ReplaceAllCopiedPrefix(t: string, pat: string, rep: string, n: nat)
    requires |pat| > 0 && rep != []
    ensures (n <= |ReplaceAll(t, pat, rep)| && forall j :: 0 <= j < n ==> ReplaceAll(t, pat, rep)[j] !in rep)
              ==> n <= |t| && ReplaceAll(t, pat, rep)[..n] == t[..n]
    decreases |t|
  {
    var r := ReplaceAll(t, pat, rep);
    if n > 0 && t != [] {
      if |pat| <= |t| && t[..|pat|] == pat {
        assert r[0] == rep[0];
      } else {
        var r' := ReplaceAll(t[1..], pat, rep);
        assert r == [t[0]] + r';
        ReplaceAllCopiedPrefix(t[1..], pat, rep, n - 1);
        if n <= |r| && forall j :: 0 <= j < n ==> r[j] !in rep {
          assert forall j :: 0 <= j < n - 1 ==> r'[j] == r[j + 1];
          assert r[..n] == [t[0]] + r'[..n - 1];
          assert t[..n] == [t[0]] + t[1..][..n - 1];
        }
      }
    }
  }

  /** A result that starts with a string free of replacement characters: the input starts with it too. */
  lemma StartsWithCopied(s: string, pat: string, rep: string, q: string)
    requires |pat| > 0 && rep != []
    requires forall j :: 0 <= j < |q| ==> q[j] !in rep
    ensures OccursAt(ReplaceAll(s, pat, rep), q, 0) ==> OccursAt(s, q, 0)
  {
    var r := ReplaceAll(s, pat, rep);
    ReplaceAllCopiedPrefix(s, pat, rep, |q|);
    if OccursAt(r, q, 0) {
      assert r[..|q|] == q;
      assert forall j :: 0 <= j < |q| ==> r[j] == q[j];
    }
  }

  /** An occurrence one place in is an occurrence in the tail. */
  lemma OccursAfterHead(x: char, s: string, q: string, i: nat)
    requires 0 < i
    ensures OccursAt([x] + s, q, i) <==> OccursAt(s, q, i - 1)
  {
    if i + |q| <= |[x] + s| {
      assert ([x] + s)[i..i + |q|] == s[i - 1..i - 1 + |q|];
    }
  }

  /** An occurrence past a prefix is an occurrence in the rest. */
  lemma OccursAfterPrefix(p: string, s: string, q: string, i: nat)
    requires |p| <= i
    ensures OccursAt(p + s, q, i) <==> OccursAt(s, q, i - |p|)
  {
    if i + |q| <= |p + s| {
      assert (p + s)[i..i + |q|] == s[i - |p|..i - |p| + |q|];
    }
  }

  /** A string that does not occur in `s` does not occur in any suffix of it. */
  lemma NotInSuffix(s: string, q: string, k: nat)
    requires k <= |s| && !Contains(s, q)
    ensures !Contains(s[k..], q)
  {
    forall i: nat | i <= |s[k..]| ensures !OccursAt(s[k..], q, i) {
      assert !OccursAt(s, q, i + k);
      if i + |q| <= |s[k..]| {
        assert s[k..][i..i + |q|] == s[i + k..i + k + |q|];
      }
    }
  }

  /**
   * When the replacement shares no character with the pattern, `replace`
   * leaves no occurrence of the pattern behind.
   */
  lemma {:induction false} ReplaceAllRemoves(s: string, pat: string, rep: string)
    requires |pat| > 0 && rep != []
    requires forall j :: 0 <= j < |pat| ==> pat[j] !in rep
    ensures !Contains(ReplaceAll(s, pat, rep), pat)
    decreases |s|
  {
    var r := ReplaceAll(s, pat, rep);
    if |s| > 0 {
      if |pat| <= |s| && s[..|pat|] == pat {
        var r' := ReplaceAll(s[|pat|..], pat, rep);
        assert r == rep + r';
        ReplaceAllRemoves(s[|pat|..], pat, rep);
        forall i: nat | i <= |r| ensures !OccursAt(r, pat, i) {
          if i < |rep| {
            assert r[i] == rep[i];
          } else {
            OccursAfterPrefix(rep, r', pat, i);
          }
        }
      } else {
        var r' := ReplaceAll(s[1..], pat, rep);
        assert r == [s[0]] + r';
        ReplaceAllRemoves(s[1..], pat, rep);
        forall i: nat | i <= |r| ensures !OccursAt(r, pat, i) {
          if i == 0 {
            StartsWithCopied(s, pat, rep, pat);
          } else {
            OccursAfterHead(s[0], r', pat, i);
          }
        }
      }
    }
  }

  /**
   * `replace` creates no occurrence of a string that holds no character of
   * the replacement.
   */
  lemma {:induction false} ReplaceAllKeepsAbsent(s: string, pat: string, rep: string, q: string)
    requires |pat| > 0 && rep != [] && q != []
    requires forall j :: 0 <= j < |q| ==> q[j] !in rep
    requires !Contains(s, q)
    ensures !Contains(ReplaceAll(s, pat, rep), q)
    decreases |s|
  {
    var r := ReplaceAll(s, pat, rep);
    if |s| > 0 {
      if |pat| <= |s| && s[..|pat|] == pat {
        var r' := ReplaceAll(s[|pat|..], pat, rep);
        assert r == rep + r';
        NotInSuffix(s, q, |pat|);
        ReplaceAllKeepsAbsent(s[|pat|..], pat, rep, q);
        forall i: nat | i <= |r| ensures !OccursAt(r, q, i) {
          if i < |rep| {
            assert r[i] == rep[i];
          } else {
            OccursAfterPrefix(rep, r', q, i);
          }
        }
      } else {
        var r' := ReplaceAll(s[1..], pat, rep);
        assert r == [s[0]] + r';
        NotInSuffix(s, q, 1);
        ReplaceAllKeepsAbsent(s[1..], pat, rep, q);
        forall i: nat | i <= |r| ensures !OccursAt(r, q, i) {
          if i == 0 {
            StartsWithCopied(s, pat, rep, q);
            assert !OccursAt(s, q, 0);
          } else {
            OccursAfterHead(s[0], r', q, i);
          }
        }
      }
    }
  }
}
