/**
 * The text operations the assistant applies to a query: ASCII lower-casing,
 * substring containment, trimming, and the three pattern extractions
 * `(\d+)%`, `\b(\d+)\b` and `in ([a-z]+)`, written out as scans with the
 * leftmost-match semantics of JavaScript's `String.prototype.match`.
 */
module Text {
  import opened Optional

  predicate IsDigit(c: char) { '0' <= c <= '9' }

  predicate IsUpper(c: char) { 'A' <= c <= 'Z' }

  /** `[a-z]` as it applies to lower-cased text. */
  predicate IsLetter(c: char) { 'a' <= c <= 'z' }

  /** `\w` in a JavaScript regular expression. */
  predicate IsWordChar(c: char) { IsLetter(c) || IsUpper(c) || IsDigit(c) || c == '_' }

  /** The white space and line terminators that `String.prototype.trim` removes. */
  predicate IsSpace(c: char)
  {
    c == ' ' || c == '\t' || c == '\n' || c == '\r' || c == '\U{000B}' || c == '\U{000C}' ||
    c == '\U{00A0}' || c == '\U{1680}' || ('\U{2000}' <= c <= '\U{200A}') ||
    c == '\U{2028}' || c == '\U{2029}' || c == '\U{202F}' || c == '\U{205F}' ||
    c == '\U{3000}' || c == '\U{FEFF}'
  }

  function LowerChar(c: char): char
  {
    if IsUpper(c) then (c as int + 32) as char else c
  }

  /** `toLowerCase`, restricted to the ASCII letters. */
  function Lower(s: string): (r: string)
    ensures |r| == |s|
    ensures forall i :: 0 <= i < |r| ==> !IsUpper(r[i])
    ensures forall i :: 0 <= i < |s| && !IsUpper(s[i]) ==> r[i] == s[i]
    ensures forall i :: 0 <= i < |s| && IsUpper(s[i]) ==> r[i] as int == s[i] as int + 32
  {
    seq(|s|, i requires 0 <= i < |s| => LowerChar(s[i]))
  }

  /** A string is the lower-casing of s when it agrees with s lower-cased character by character. */
  lemma LowerPointwise(s: string, t: string)
    requires |s| == |t| && forall i :: 0 <= i < |s| ==> LowerChar(s[i]) == t[i]
    ensures Lower(s) == t
  {
  }

  /** Lower-casing twice is lower-casing once. */
  lemma LowerIdempotent(s: string)
    ensures Lower(Lower(s)) == Lower(s)
  {
  }

  // ---------------------------------------------------------------------------
  // Substring containment (`includes`)

  /** w occurs in s starting at index i. */
  predicate OccursAt(s: string, w: string, i: int)
  {
    0 <= i && i + |w| <= |s| && s[i..i + |w|] == w
  }

  /** `s.includes(w)`, as a scan from the left. */
  predicate Contains(s: string, w: string)
    decreases |s|
  {
    (|w| <= |s| && s[..|w|] == w) || (|s| > 0 && Contains(s[1..], w))
  }

  /** The scan agrees with the positional definition of an occurrence. */
  lemma {:induction false} ContainsIff(s: string, w: string)
    ensures Contains(s, w) <==> exists i :: OccursAt(s, w, i)
    decreases |s|
  {
    if |s| > 0 {
      ContainsIff(s[1..], w);
      forall i | OccursAt(s[1..], w, i) ensures OccursAt(s, w, i + 1) {
        assert s[1..][i..i + |w|] == s[i + 1..i + 1 + |w|];
      }
      forall i | 1 <= i && OccursAt(s, w, i) ensures OccursAt(s[1..], w, i - 1) {
        assert s[1..][i - 1..i - 1 + |w|] == s[i..i + |w|];
      }
    }
    if |w| <= |s| && s[..|w|] == w {
      assert OccursAt(s, w, 0);
    }
  }

  /** A word with a character that s lacks does not occur in s. */
  lemma MissingCharNotContained(s: string, w: string, k: nat)
    requires k < |w| && w[k] !in s
    ensures !Contains(s, w)
  {
    ContainsIff(s, w);
  }

  /** Containing a word implies containing each of its prefixes. */
  lemma ContainsPrefix(s: string, w: string, x: string)
    requires Contains(s, w + x)
    ensures Contains(s, w)
  {
    ContainsIff(s, w + x);
    var i :| OccursAt(s, w + x, i);
    assert s[i..i + |w|] == (w + x)[..|w|] == w;
    ContainsIff(s, w);
  }

  // ---------------------------------------------------------------------------
  // Trimming (`input.trim() === ''`)

  function TrimStart(s: string): (r: string)
    ensures r == [] || !IsSpace(r[0])
    decreases |s|
  {
    if s != [] && IsSpace(s[0]) then TrimStart(s[1..]) else s
  }

  function TrimEnd(s: string): string
    decreases |s|
  {
    if s != [] && IsSpace(s[|s| - 1]) then TrimEnd(s[..|s| - 1]) else s
  }

  /** `String.prototype.trim`. */
  function Trim(s: string): string
  {
    TrimEnd(TrimStart(s))
  }

  predicate IsBlank(s: string) { forall i :: 0 <= i < |s| ==> IsSpace(s[i]) }

  lemma {:induction false} TrimStartEmpty(s: string)
    ensures TrimStart(s) == [] <==> IsBlank(s)
    decreases |s|
  {
    if s != [] && IsSpace(s[0]) {
      TrimStartEmpty(s[1..]);
      assert forall i :: 1 <= i < |s| ==> s[i] == s[1..][i - 1];
    }
  }

  lemma {:induction false} TrimEndKeepsHead(s: string)
    requires s != [] && !IsSpace(s[0])
    ensures TrimEnd(s) != []
    decreases |s|
  {
    if IsSpace(s[|s| - 1]) {
      TrimEndKeepsHead(s[..|s| - 1]);
    }
  }

  /** A query trims to the empty string exactly when it is all white space. */
  lemma TrimEmptyIff(s: string)
    ensures Trim(s) == [] <==> IsBlank(s)
  {
    TrimStartEmpty(s);
    if TrimStart(s) != [] {
      TrimEndKeepsHead(TrimStart(s));
    }
  }

  // ---------------------------------------------------------------------------
  // Runs of digits and their values

  /** The end of the maximal digit run starting at i. */
  function RunEnd(s: string, i: nat): (j: nat)
    requires i <= |s|
    ensures i <= j <= |s|
    ensures forall k :: i <= k < j ==> IsDigit(s[k])
    ensures j == |s| || !IsDigit(s[j])
    decreases |s| - i
  {
    if i < |s| && IsDigit(s[i]) then RunEnd(s, i + 1) else i
  }

  /** `parseInt` of a run of decimal digits. */
  function DigitValue(d: string): nat
    requires forall k :: 0 <= k < |d| ==> IsDigit(d[k])
    decreases |d|
  {
    if d == [] then 0
    else
      var last := d[|d| - 1];
      assert IsDigit(last);
      10 * DigitValue(d[..|d| - 1]) + (last as int - '0' as int)
  }

  /** i does not lie strictly inside a run of digits. */
  predicate NotMidRun(s: string, i: nat)
  {
    i == 0 || i >= |s| || !IsDigit(s[i - 1]) || !IsDigit(s[i])
  }

  /** Two maximal digit runs from the same start end at the same place. */
  lemma RunEndUnique(s: string, i: nat, b: nat)
    requires i < b <= |s|
    requires forall k :: i <= k < b ==> IsDigit(s[k])
    requires b == |s| || !IsDigit(s[b])
    ensures RunEnd(s, i) == b
  {
  }

  // ---------------------------------------------------------------------------
  // `(\d+)%`: the first digit run immediately followed by '%'

  /** /\d+%/ can match: some digit is immediately followed by '%'. */
  predicate HasPercentNumber(s: string)
  {
    exists k | 0 <= k < |s| - 1 :: IsDigit(s[k]) && s[k + 1] == '%'
  }

  /** /\d+/ can match: some character is a digit. */
  predicate HasDigit(s: string)
  {
    exists k | 0 <= k < |s| :: IsDigit(s[k])
  }

  /** A match of /(\d+)%/ with its group at s[a..b]: a maximal digit run ended by '%'. */
  predicate PercentMatch(s: string, a: int, b: int)
  {
    0 <= a < b < |s| && (forall k :: a <= k < b ==> IsDigit(s[k])) &&
    (a == 0 || !IsDigit(s[a - 1])) && s[b] == '%'
  }

  function PercentNumberFrom(s: string, i: nat): Option<nat>
    requires i <= |s|
    decreases |s| - i
  {
    if i == |s| then None
    else if IsDigit(s[i]) then
      var j := RunEnd(s, i);
      if j < |s| && s[j] == '%' then Some(DigitValue(s[i..j])) else PercentNumberFrom(s, j)
    else PercentNumberFrom(s, i + 1)
  }

  /** The number that `s.match(/(\d+)%/)` captures, if any. */
  function FirstPercentNumber(s: string): Option<nat>
  {
    PercentNumberFrom(s, 0)
  }

  lemma {:induction false} PercentNumberFromSpec(s: string, i: nat)
    requires i <= |s| && NotMidRun(s, i)
    ensures PercentNumberFrom(s, i).Some? <==> exists a, b :: i <= a && PercentMatch(s, a, b)
    ensures PercentNumberFrom(s, i).Some? ==>
      exists a, b :: i <= a && PercentMatch(s, a, b) &&
        PercentNumberFrom(s, i).value == DigitValue(s[a..b]) &&
        forall a', b' :: i <= a' && PercentMatch(s, a', b') ==> a <= a'
    decreases |s| - i
  {
    if i == |s| {
    } else if IsDigit(s[i]) {
      var j := RunEnd(s, i);
      if j < |s| && s[j] == '%' {
        assert PercentMatch(s, i, j);
      } else {
        forall a, b | i <= a < j && PercentMatch(s, a, b) ensures false {
          if a == i {
            RunEndUnique(s, i, b);
          }
        }
        PercentNumberFromSpec(s, j);
      }
    } else {
      PercentNumberFromSpec(s, i + 1);
    }
  }

  /**
   * The extraction finds a number exactly when /\d+%/ matches, and the number
   * is the whole digit run before the leftmost such '%'.
   */
  lemma FirstPercentNumberSpec(s: string)
    ensures FirstPercentNumber(s).Some? <==> HasPercentNumber(s)
    ensures FirstPercentNumber(s).Some? ==>
      exists a, b :: PercentMatch(s, a, b) && FirstPercentNumber(s).value == DigitValue(s[a..b]) &&
        forall a', b' :: PercentMatch(s, a', b') ==> a <= a'
  {
    PercentNumberFromSpec(s, 0);
    if HasPercentNumber(s) {
      var k :| 0 <= k < |s| - 1 && IsDigit(s[k]) && s[k + 1] == '%';
      var a := RunStart(s, k);
      assert PercentMatch(s, a, k + 1);
    }
  }

  /** The start of the maximal digit run through index k. */
  function RunStart(s: string, k: nat): (a: nat)
    requires k < |s| && IsDigit(s[k])
    ensures a <= k && (a == 0 || !IsDigit(s[a - 1]))
    ensures forall m :: a <= m <= k ==> IsDigit(s[m])
  {
    if k > 0 && IsDigit(s[k - 1]) then RunStart(s, k - 1) else k
  }

  /** The threshold or target of a query: the `%` number, 75 when there is none. */
  function PercentOr75(s: string): nat
  {
    match FirstPercentNumber(s)
    case Some(n) => n
    case None => 75
  }

  // ---------------------------------------------------------------------------
  // `\b(\d+)\b`: the first digit run with a word boundary on both sides

  /** A match of /\b(\d+)\b/ with its group at s[a..b]. */
  predicate StandaloneMatch(s: string, a: int, b: int)
  {
    0 <= a < b <= |s| && (forall k :: a <= k < b ==> IsDigit(s[k])) &&
    (a == 0 || !IsWordChar(s[a - 1])) && (b == |s| || !IsWordChar(s[b]))
  }

  function StandaloneNumberFrom(s: string, i: nat): Option<nat>
    requires i <= |s|
    decreases |s| - i
  {
    if i == |s| then None
    else if IsDigit(s[i]) then
      var j := RunEnd(s, i);
      if (i == 0 || !IsWordChar(s[i - 1])) && (j == |s| || !IsWordChar(s[j])) then
        Some(DigitValue(s[i..j]))
      else StandaloneNumberFrom(s, j)
    else StandaloneNumberFrom(s, i + 1)
  }

  /** The number that `s.match(/\b(\d+)\b/)` captures, if any. */
  function FirstStandaloneNumber(s: string): Option<nat>
  {
    StandaloneNumberFrom(s, 0)
  }

  lemma {:induction false} StandaloneNumberFromSpec(s: string, i: nat)
    requires i <= |s| && NotMidRun(s, i)
    ensures StandaloneNumberFrom(s, i).Some? <==> exists a, b :: i <= a && StandaloneMatch(s, a, b)
    ensures StandaloneNumberFrom(s, i).Some? ==>
      exists a, b :: i <= a && StandaloneMatch(s, a, b) &&
        StandaloneNumberFrom(s, i).value == DigitValue(s[a..b]) &&
        forall a', b' :: i <= a' && StandaloneMatch(s, a', b') ==> a <= a'
    decreases |s| - i
  {
    if i == |s| {
    } else if IsDigit(s[i]) {
      var j := RunEnd(s, i);
      if (i == 0 || !IsWordChar(s[i - 1])) && (j == |s| || !IsWordChar(s[j])) {
        assert StandaloneMatch(s, i, j);
      } else {
        forall a, b | i <= a < j && StandaloneMatch(s, a, b) ensures false {
          if a == i {
            RunEndUnique(s, i, b);
          }
        }
        StandaloneNumberFromSpec(s, j);
      }
    } else {
      StandaloneNumberFromSpec(s, i + 1);
    }
  }

  /**
   * The extraction finds a number exactly when some digit run stands alone,
   * and it is the leftmost such run.
   */
  lemma FirstStandaloneNumberSpec(s: string)
    ensures FirstStandaloneNumber(s).Some? <==> exists a, b :: StandaloneMatch(s, a, b)
    ensures FirstStandaloneNumber(s).Some? ==>
      exists a, b :: StandaloneMatch(s, a, b) && FirstStandaloneNumber(s).value == DigitValue(s[a..b]) &&
        forall a', b' :: StandaloneMatch(s, a', b') ==> a <= a'
  {
    StandaloneNumberFromSpec(s, 0);
  }

  /** A standalone number is in particular a digit, so /\d+/ matches too. */
  lemma StandaloneHasDigit(s: string)
    requires FirstStandaloneNumber(s).Some?
    ensures HasDigit(s)
  {
    FirstStandaloneNumberSpec(s);
    var a, b :| StandaloneMatch(s, a, b);
    assert IsDigit(s[a]);
  }

  /** The count of a query, with the intent's default. */
  function CountOr(s: string, default: nat): nat
  {
    match FirstStandaloneNumber(s)
    case Some(n) => n
    case None => default
  }

  // ---------------------------------------------------------------------------
  // `in ([a-z]+)`: the word after the first "in "

  /** "in " followed by a letter starts at index i. */
  predicate InPhrase(s: string, i: int)
  {
    0 <= i && i + 3 < |s| && s[i] == 'i' && s[i + 1] == 'n' && s[i + 2] == ' ' && IsLetter(s[i + 3])
  }

  /** The end of the maximal run of letters starting at i. */
  function LetterRunEnd(s: string, i: nat): (j: nat)
    requires i <= |s|
    ensures i <= j <= |s|
    ensures forall k :: i <= k < j ==> IsLetter(s[k])
    ensures j == |s| || !IsLetter(s[j])
    decreases |s| - i
  {
    if i < |s| && IsLetter(s[i]) then LetterRunEnd(s, i + 1) else i
  }

  function SubjectFrom(s: string, i: nat): Option<string>
    requires i <= |s|
    decreases |s| - i
  {
    if i + 3 >= |s| then None
    else if InPhrase(s, i) then Some(s[i + 3..LetterRunEnd(s, i + 3)])
    else SubjectFrom(s, i + 1)
  }

  /** a is the leftmost start of "in " followed by a letter, among starts from i on. */
  predicate LeftmostInPhrase(s: string, i: int, a: int)
  {
    i <= a && InPhrase(s, a) && forall a' :: i <= a' && InPhrase(s, a') ==> a <= a'
  }

  lemma {:induction false} SubjectFromSpec(s: string, i: nat)
    requires i <= |s|
    ensures SubjectFrom(s, i).Some? <==> exists a :: i <= a && InPhrase(s, a)
    ensures SubjectFrom(s, i).Some? ==>
      exists a :: LeftmostInPhrase(s, i, a) && SubjectFrom(s, i).value == s[a + 3..LetterRunEnd(s, a + 3)]
    decreases |s| - i
  {
    if i + 3 >= |s| {
      assert forall a :: i <= a ==> !InPhrase(s, a);
    } else if InPhrase(s, i) {
      assert LeftmostInPhrase(s, i, i);
    } else {
      SubjectFromSpec(s, i + 1);
      assert forall a :: i <= a && InPhrase(s, a) ==> i + 1 <= a;
      if SubjectFrom(s, i + 1).Some? {
        var a :| LeftmostInPhrase(s, i + 1, a) && SubjectFrom(s, i + 1).value == s[a + 3..LetterRunEnd(s, a + 3)];
        assert LeftmostInPhrase(s, i, a);
      }
    }
  }

  /** The word captured at an "in " phrase: a maximal, non-empty run of letters. */
  lemma CapturedWord(s: string, a: int)
    requires InPhrase(s, a)
    ensures var w := s[a + 3..LetterRunEnd(s, a + 3)];
      |w| >= 1 && (forall k :: 0 <= k < |w| ==> IsLetter(w[k])) &&
      OccursAt(s, "in " + w, a) && (a + 3 + |w| == |s| || !IsLetter(s[a + 3 + |w|]))
  {
    var e := LetterRunEnd(s, a + 3);
    var w := s[a + 3..e];
    assert forall k :: 0 <= k < |w| ==> w[k] == s[a + 3 + k];
    calc {
      s[a..a + 3 + |w|];
      s[a..a + 3] + w;
      { assert s[a..a + 3] == "in "; }
      "in " + w;
    }
  }

  /**
   * The subject `s.match(/in ([a-z]+)/i)` captures: the whole letter run after
   * the leftmost "in ", which is never empty.
   */
  lemma FirstSubjectSpec(s: string)
    ensures SubjectFrom(s, 0).Some? <==> exists a :: InPhrase(s, a)
    ensures SubjectFrom(s, 0).Some? ==>
      var w := SubjectFrom(s, 0).value;
      |w| >= 1 && (forall k :: 0 <= k < |w| ==> IsLetter(w[k])) &&
      exists a :: LeftmostInPhrase(s, 0, a) && OccursAt(s, "in " + w, a) &&
        (a + 3 + |w| == |s| || !IsLetter(s[a + 3 + |w|]))
  {
    SubjectFromSpec(s, 0);
    if SubjectFrom(s, 0).Some? {
      var w := SubjectFrom(s, 0).value;
      var a :| LeftmostInPhrase(s, 0, a) && w == s[a + 3..LetterRunEnd(s, a + 3)];
      CapturedWord(s, a);
    }
  }

  /** The subject of a query, "this course" when none is named. */
  function SubjectOf(s: string): string
  {
    match SubjectFrom(s, 0)
    case Some(w) => w
    case None => "this course"
  }
}
