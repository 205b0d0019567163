/**
 * Character classes, ASCII case mapping and the literal-string searches that
 * the classifier, the selector and the fetcher build their regular
 * expressions from. Python's `\w`, `\s`, `\d` and `\b` are read on ASCII
 * characters; `str.lower`/`str.upper` map only `A`-`Z` and `a`-`z`.
 */
module Text {
  import opened Wrappers

  // ---------------------------------------------------------------------
  // Character classes
  // ---------------------------------------------------------------------

  predicate IsUpperChar(c: char) { 'A' <= c <= 'Z' }

  predicate IsLowerChar(c: char) { 'a' <= c <= 'z' }

  predicate IsLetter(c: char) { IsUpperChar(c) || IsLowerChar(c) }

  predicate IsDigit(c: char) { '0' <= c <= '9' }

  /** Regex `\w`: letters, digits and the underscore. */
  predicate IsWordChar(c: char) { IsLetter(c) || IsDigit(c) || c == '_' }

  /** Regex `\s` and `str.isspace` on ASCII: space, \t \n \v \f \r and \x1c-\x1f. */
  predicate IsSpace(c: char) {
    c == ' ' || ('\t' <= c <= '\r') || ('\U{001C}' <= c <= '\U{001F}')
  }

  function LowerChar(c: char): (r: char)
    ensures IsUpperChar(c) ==> IsLowerChar(r)
    ensures !IsUpperChar(c) ==> r == c
  {
    if IsUpperChar(c) then (c as int + 32) as char else c
  }

  function UpperChar(c: char): (r: char)
    ensures IsLowerChar(c) ==> IsUpperChar(r)
    ensures !IsLowerChar(c) ==> r == c
  {
    if IsLowerChar(c) then (c as int - 32) as char else c
  }

  /** `str.lower()` */
  function ToLower(s: string): (r: string)
    ensures |r| == |s|
    ensures forall i :: 0 <= i < |s| ==> r[i] == LowerChar(s[i])
  {
    seq(|s|, i requires 0 <= i < |s| => LowerChar(s[i]))
  }

  /** `str.upper()` */
  function ToUpper(s: string): (r: string)
    ensures |r| == |s|
    ensures forall i :: 0 <= i < |s| ==> r[i] == UpperChar(s[i])
  {
    seq(|s|, i requires 0 <= i < |s| => UpperChar(s[i]))
  }

  /** No character of `s` is changed by lower-casing it. */
  predicate IsLowerCase(s: string) {
    forall i :: 0 <= i < |s| ==> LowerChar(s[i]) == s[i]
  }

  /** Lower-casing leaves no upper-case letter. */
  lemma ToLowerIsLowerCase(s: string)
    ensures IsLowerCase(ToLower(s))
  {
  }

  // ---------------------------------------------------------------------
  // Literal substring search
  // ---------------------------------------------------------------------

  /** `p` occurs in `s` starting at index `i`. */
  predicate OccursAt(s: string, p: string, i: int) {
    0 <= i && i + |p| <= |s| && s[i..i + |p|] == p
  }

  /** Python's `p in s`. */
  predicate Contains(s: string, p: string) {
    exists i | 0 <= i <= |s| - |p| :: OccursAt(s, p, i)
  }

  /** `s.startswith(p)` */
  predicate StartsWith(s: string, p: string) {
    |p| <= |s| && s[..|p|] == p
  }

  /** `s.endswith(p)` */
  predicate EndsWith(s: string, p: string) {
    |p| <= |s| && s[|s| - |p|..] == p
  }

  /** Leftmost occurrence of `p` in `s` at or after `from`. */
  function FindFrom(s: string, p: string, from: nat): (r: Option<nat>)
    decreases |s| - from
    ensures r.Some? ==> from <= r.value && OccursAt(s, p, r.value)
    ensures r.Some? ==> forall j :: from <= j < r.value ==> !OccursAt(s, p, j)
    ensures r.None? ==> forall j :: from <= j ==> !OccursAt(s, p, j)
  {
    if from + |p| > |s| then None
    else if OccursAt(s, p, from) then Some(from)
    else FindFrom(s, p, from + 1)
  }

  /** Searching from the start finds the pattern exactly when it occurs. */
  lemma FindFromContains(s: string, p: string)
    ensures FindFrom(s, p, 0).Some? <==> Contains(s, p)
  {
    if Contains(s, p) {
      var i :| 0 <= i <= |s| - |p| && OccursAt(s, p, i);
      assert !FindFrom(s, p, 0).None? by {
        assert OccursAt(s, p, i);
      }
    }
  }

  /** The search stops at the first occurrence. */
  lemma FindFromFirst(s: string, p: string, from: nat, i: nat)
    requires from <= i && OccursAt(s, p, i)
    requires forall j :: from <= j < i ==> !OccursAt(s, p, j)
    ensures FindFrom(s, p, from) == Some(i)
  {
  }

  /** A slice inside the left operand of a concatenation is a slice of that operand. */
  lemma PrefixSlice(a: string, b: string, i: nat, j: nat)
    requires i <= j <= |a|
    ensures (a + b)[i..j] == a[i..j]
  {
  }

  /** An occurrence of `p` carries an occurrence of each piece `q` of `p`. */
  lemma OccursInside(s: string, p: string, i: int, q: string, d: nat)
    requires OccursAt(s, p, i) && d + |q| <= |p| && p[d..d + |q|] == q
    ensures OccursAt(s, q, i + d) && Contains(s, q)
  {
    forall k | 0 <= k < |q| ensures s[i + d + k] == q[k] {
      assert s[i + d + k] == s[i..i + |p|][d + k];
      assert q[k] == p[d..d + |q|][k];
    }
    assert s[i + d..i + d + |q|] == q;
    ContainsExtend(s, q, i + d);
  }

  /** A literal occurrence inside a longer string is still an occurrence. */
  lemma ContainsExtend(s: string, p: string, i: int)
    requires OccursAt(s, p, i)
    ensures Contains(s, p)
  {
  }

  // ---------------------------------------------------------------------
  // Whole-word search: the regex `\bp\b` for a literal word `p`
  // ---------------------------------------------------------------------

  /** Regex `\b` at position `i` of `s`. */
  predicate Boundary(s: string, i: int)
    requires 0 <= i <= |s|
  {
    (i > 0 && IsWordChar(s[i - 1])) != (i < |s| && IsWordChar(s[i]))
  }

  /** `\bp\b` matches at index `i`. */
  predicate WordAt(s: string, p: string, i: int) {
    OccursAt(s, p, i) && Boundary(s, i) && Boundary(s, i + |p|)
  }

  /** `re.search(r'\b' + p + r'\b', s)` succeeds. */
  predicate ContainsWord(s: string, p: string) {
    exists i | 0 <= i <= |s| :: WordAt(s, p, i)
  }

  /** Leftmost index at or after `from` where `\bp\b` matches. */
  function FindWordFrom(s: string, p: string, from: nat): (r: Option<nat>)
    decreases |s| - from
    ensures r.Some? ==> from <= r.value && WordAt(s, p, r.value)
    ensures r.Some? ==> forall j :: from <= j < r.value ==> !WordAt(s, p, j)
    ensures r.None? ==> forall j :: from <= j ==> !WordAt(s, p, j)
  {
    if from + |p| > |s| then None
    else if WordAt(s, p, from) then Some(from)
    else FindWordFrom(s, p, from + 1)
  }

  /** Searching from the start finds the word exactly when it occurs as a word. */
  lemma FindWordFromContainsWord(s: string, p: string)
    ensures FindWordFrom(s, p, 0).Some? <==> ContainsWord(s, p)
  {
    if ContainsWord(s, p) {
      var i :| 0 <= i <= |s| && WordAt(s, p, i);
      assert !FindWordFrom(s, p, 0).None? by {
        assert WordAt(s, p, i);
      }
    }
  }

  /** A whole-word match is in particular a substring match. */
  lemma ContainsWordContains(s: string, p: string)
    requires ContainsWord(s, p)
    ensures Contains(s, p)
  {
    var i :| 0 <= i <= |s| && WordAt(s, p, i);
    assert OccursAt(s, p, i);
  }

  // ---------------------------------------------------------------------
  // Runs of characters of one class
  // ---------------------------------------------------------------------

  /** End of the maximal run of characters satisfying `inClass` that starts at `i`. */
  function RunEnd(s: string, i: nat, inClass: char -> bool): (r: nat)
    requires i <= |s|
    decreases |s| - i
    ensures i <= r <= |s|
    ensures forall k :: i <= k < r ==> inClass(s[k])
    ensures r == |s| || !inClass(s[r])
  {
    if i < |s| && inClass(s[i]) then RunEnd(s, i + 1, inClass) else i
  }

  /** A run that provably stops at `m` ends at `m`. */
  lemma RunEndAt(s: string, i: nat, inClass: char -> bool, m: nat)
    requires i <= m <= |s|
    requires forall k :: i <= k < m ==> inClass(s[k])
    requires m == |s| || !inClass(s[m])
    ensures RunEnd(s, i, inClass) == m
  {
  }

  /** End of the maximal run of decimal digits starting at `i`. */
  function DigitsEnd(s: string, i: nat): (r: nat)
    requires i <= |s|
    ensures i <= r <= |s|
    ensures forall k :: i <= k < r ==> IsDigit(s[k])
    ensures r == |s| || !IsDigit(s[r])
  {
    RunEnd(s, i, IsDigit)
  }

  /** The number a string of decimal digits denotes. */
  function DigitsValue(s: string): (n: nat)
    requires forall k :: 0 <= k < |s| ==> IsDigit(s[k])
  {
    if s == [] then 0
    else
      assert IsDigit(s[|s| - 1]);
      DigitsValue(s[..|s| - 1]) * 10 + (s[|s| - 1] as int - '0' as int)
  }

  // ---------------------------------------------------------------------
  // Whitespace handling: strip, split, join, capitalize
  // ---------------------------------------------------------------------

  function StripLeft(s: string): (r: string)
    ensures |r| <= |s| && r == s[|s| - |r|..]
    ensures r == [] || !IsSpace(r[0])
    ensures forall k :: 0 <= k < |s| - |r| ==> IsSpace(s[k])
  {
    if s != [] && IsSpace(s[0]) then StripLeft(s[1..]) else s
  }

  function StripRight(s: string): (r: string)
    ensures |r| <= |s| && r == s[..|r|]
    ensures r == [] || !IsSpace(r[|r| - 1])
    ensures forall k :: |r| <= k < |s| ==> IsSpace(s[k])
  {
    if s != [] && IsSpace(s[|s| - 1]) then StripRight(s[..|s| - 1]) else s
  }

  /** `str.strip()` with no argument. */
  function Strip(s: string): (r: string)
    ensures r == [] || (!IsSpace(r[0]) && !IsSpace(r[|r| - 1]))
    ensures exists a, b :: 0 <= a <= b <= |s| && r == s[a..b]
  {
    var l := StripLeft(s);
    var r := StripRight(l);
    assert r == s[|s| - |l|..|s| - |l| + |r|];
    r
  }

  predicate NotSpace(c: char) { !IsSpace(c) }

  predicate NoSpace(w: string) {
    forall k :: 0 <= k < |w| ==> !IsSpace(w[k])
  }

  /** `str.split()` with no argument: the maximal runs of non-whitespace. */
  function SplitWhitespace(s: string): (ws: seq<string>)
    decreases |s|
    ensures AllWords(ws)
  {
    var t := StripLeft(s);
    if t == [] then []
    else
      var k := RunEnd(t, 0, NotSpace);
      assert NotSpace(t[0]);
      var rest := t[k..];
      assert |rest| < |s|;
      var w := t[..k];
      assert NoSpace(w) by {
        forall j | 0 <= j < |w| ensures !IsSpace(w[j]) {
          assert NotSpace(t[j]);
        }
      }
      var tail := SplitWhitespace(rest);
      ConsWord(w, tail);
      [w] + tail
  }

  /** Each element is a non-empty run without whitespace. */
  predicate AllWords(ws: seq<string>) {
    forall j :: 0 <= j < |ws| ==> ws[j] != [] && NoSpace(ws[j])
  }

  /** A word in front of a list of words gives a list of words. */
  lemma ConsWord(w: string, tail: seq<string>)
    requires w != [] && NoSpace(w) && AllWords(tail)
    ensures AllWords([w] + tail)
  {
    var ws := [w] + tail;
    forall j | 0 < j < |ws| ensures ws[j] != [] && NoSpace(ws[j]) {
      assert ws[j] == tail[j - 1];
    }
  }

  /** `sep.join(ws)` */
  function Join(ws: seq<string>, sep: string): string {
    if |ws| == 0 then []
    else if |ws| == 1 then ws[0]
    else ws[0] + sep + Join(ws[1..], sep)
  }

  /** `str.capitalize()`: first character upper-cased, the rest lower-cased. */
  function Capitalize(w: string): (r: string)
    ensures |r| == |w|
    ensures |w| > 0 ==> r[0] == UpperChar(w[0])
    ensures forall k :: 1 <= k < |w| ==> r[k] == LowerChar(w[k])
  {
    if |w| == 0 then [] else [UpperChar(w[0])] + ToLower(w[1..])
  }

  /** `s.replace(a, b)` for single characters. */
  function ReplaceChar(s: string, a: char, b: char): (r: string)
    ensures |r| == |s|
    ensures forall k :: 0 <= k < |s| ==> r[k] == (if s[k] == a then b else s[k])
  {
    seq(|s|, k requires 0 <= k < |s| => if s[k] == a then b else s[k])
  }

  /** Decimal rendering of a natural number, as `str(n)` / an f-string does. */
  function NatToString(n: nat): (r: string)
    ensures |r| > 0
    ensures forall k :: 0 <= k < |r| ==> IsDigit(r[k])
  {
    var d := ['0' + (n % 10) as char];
    if n < 10 then d else NatToString(n / 10) + d
  }
}
