/** The few Python string operations the agents rely on: str.find, slicing,
    str.strip, str.join, str.capitalize and str.lower (the last two on ASCII). */
module PyText {

  /** Python's str.isspace for one character: the characters str.strip()
      removes when called without arguments. */
  predicate IsSpace(c: char) {
    ('\t' <= c <= '\r') || ('\U{1c}' <= c <= '\U{1f}') || c == ' ' ||
    c == '\U{85}' || c == '\U{a0}' || c == '\U{1680}' ||
    ('\U{2000}' <= c <= '\U{200a}') || c == '\U{2028}' || c == '\U{2029}' ||
    c == '\U{202f}' || c == '\U{205f}' || c == '\U{3000}'
  }

  /** The pattern p occurs in s starting at index i. */
  predicate OccursAt(s: string, p: string, i: int) {
    0 <= i && i + |p| <= |s| && s[i..i + |p|] == p
  }

  /** str.find started at index i: the first occurrence at or after i, or -1. */
  function FindFrom(s: string, p: string, i: nat): (r: int)
    ensures r == -1 || (i <= r && OccursAt(s, p, r))
    ensures forall j :: i <= j && (r == -1 || j < r) ==> !OccursAt(s, p, j)
    decreases |s| + 1 - i
  {
    if i + |p| > |s| then -1
    else if s[i..i + |p|] == p then i
    else FindFrom(s, p, i + 1)
  }

  /** str.find: the index of the first occurrence of p in s, or -1 when there is none. */
  function Find(s: string, p: string): (r: int)
    ensures r == -1 <==> forall j :: !OccursAt(s, p, j)
    ensures r != -1 ==> OccursAt(s, p, r) && forall j :: 0 <= j < r ==> !OccursAt(s, p, j)
  {
    FindFrom(s, p, 0)
  }

  /** How Python resolves one bound of a slice against a sequence of length n:
      a negative bound counts from the end, and both are clamped to [0, n]. */
  function SliceBound(i: int, n: nat): (b: nat)
    ensures b <= n
    ensures 0 <= i <= n ==> b == i
    ensures -(n as int) <= i < 0 ==> b == n + i
  {
    if i < 0 then (if i + n < 0 then 0 else i + n)
    else if i > n then n
    else i
  }

  /** The Python slice s[start:end]. */
  function Slice(s: string, start: int, end: int): string {
    var a, b := SliceBound(start, |s|), SliceBound(end, |s|);
    if a < b then s[a..b] else ""
  }

  /** s[start:-1] with start inside s leaves out the last character of s. */
  lemma SliceToMinusOne(s: string, start: int)
    requires 0 <= start < |s|
    ensures Slice(s, start, -1) == s[start..|s| - 1]
  {
  }

  /** A slice whose (non-negative) end lies before its start is empty. */
  lemma SliceEndBeforeStart(s: string, start: int, end: int)
    requires 0 <= end <= start
    ensures Slice(s, start, end) == ""
  {
  }

  /** The leading-whitespace half of str.strip (str.lstrip). */
  function StripStart(s: string): (r: string)
    ensures |r| <= |s| && r == s[|s| - |r|..]
    ensures r != [] ==> !IsSpace(r[0])
    ensures forall i {:trigger IsSpace(s[i])} :: 0 <= i < |s| - |r| ==> IsSpace(s[i])
  {
    if s != [] && IsSpace(s[0]) then
      var r := StripStart(s[1..]);
      assert forall i :: 1 <= i < |s| - |r| ==> s[i] == s[1..][i - 1];
      r
    else s
  }

  /** The trailing-whitespace half of str.strip (str.rstrip). */
  function StripEnd(s: string): (r: string)
    ensures |r| <= |s| && r == s[..|r|]
    ensures r != [] ==> !IsSpace(r[|r| - 1])
    ensures forall i {:trigger IsSpace(s[i])} :: |r| <= i < |s| ==> IsSpace(s[i])
  {
    if s != [] && IsSpace(s[|s| - 1]) then
      var r := StripEnd(s[..|s| - 1]);
      assert forall i :: |r| <= i < |s| - 1 ==> s[i] == s[..|s| - 1][i];
      r
    else s
  }

  /** str.strip(): s without its leading and trailing whitespace. */
  function Strip(s: string): string {
    StripEnd(StripStart(s))
  }

  /** Stripping a text whose first character is not whitespace keeps that
      character in front: the result is not empty and starts with s[0]. */
  lemma StripKeepsHead(s: string)
    requires s != [] && !IsSpace(s[0])
    ensures Strip(s) != [] && Strip(s)[0] == s[0]
  {
    assert StripStart(s) == s;
  }

  /** Stripping keeps a prefix that ends in a non-whitespace character. */
  lemma {:induction false} StripKeepsPrefix(s: string, p: string)
    requires p != [] && p <= s
    requires !IsSpace(p[0]) && !IsSpace(p[|p| - 1])
    ensures p <= Strip(s)
  {
    assert StripStart(s) == s;
  }

  /** sep.join(parts). */
  function Join(parts: seq<string>, sep: string): (r: string)
    ensures parts == [] ==> r == ""
    ensures parts != [] ==> parts[0] <= r
    ensures |parts| >= 2 ==> parts[0] + sep <= r
    ensures parts != [] ==> |parts[|parts| - 1]| <= |r| && r[|r| - |parts[|parts| - 1]|..] == parts[|parts| - 1]
    ensures |parts| == 2 ==> r == parts[0] + sep + parts[1]
    ensures |parts| == 3 ==> r == parts[0] + sep + parts[1] + sep + parts[2]
  {
    if parts == [] then ""
    else if |parts| == 1 then parts[0]
    else
      var rest := Join(parts[1..], sep);
      assert parts[1..][|parts[1..]| - 1] == parts[|parts| - 1];
      parts[0] + sep + rest
  }

  /** A joined text is empty, or starts with the first character of the first
      part, or (when the first part is empty) with the separator. */
  lemma JoinHead(parts: seq<string>, sep: string)
    requires sep != []
    ensures var r := Join(parts, sep);
      r == "" || (parts[0] != "" && r[0] == parts[0][0]) || (parts[0] == "" && |parts| >= 2 && r[0] == sep[0])
  {
  }

  /** s.endswith(t). */
  predicate EndsWith(s: string, t: string) {
    |t| <= |s| && s[|s| - |t|..] == t
  }

  /** Appending the same text to both sides keeps a suffix a suffix. */
  lemma EndsWithAppend(s: string, t: string, u: string)
    requires EndsWith(s, t)
    ensures EndsWith(s + u, t + u)
  {
    assert (s + u)[|s + u| - |t + u|..] == s[|s| - |t|..] + u;
  }

  /** Every text ends with itself appended to something. */
  lemma EndsWithSelf(s: string, t: string)
    ensures EndsWith(s + t, t)
  {
    assert (s + t)[|s + t| - |t|..] == t;
  }

  /** ASCII upper-case mapping; other characters are left alone. */
  function ToUpper(c: char): (u: char)
    ensures 'a' <= c <= 'z' ==> 'A' <= u <= 'Z'
  {
    if 'a' <= c <= 'z' then (c as int - 32) as char else c
  }

  /** ASCII lower-case mapping; other characters are left alone. */
  function ToLower(c: char): (l: char)
    ensures 'A' <= c <= 'Z' ==> 'a' <= l <= 'z'
  {
    if 'A' <= c <= 'Z' then (c as int + 32) as char else c
  }

  /** str.lower(), on ASCII letters. */
  function Lower(s: string): (r: string)
    ensures |r| == |s| && forall i :: 0 <= i < |s| ==> r[i] == ToLower(s[i])
  {
    seq(|s|, i requires 0 <= i < |s| => ToLower(s[i]))
  }

  /** str.capitalize(), on ASCII letters: first character upper-cased, the rest lower-cased. */
  function Capitalize(s: string): (r: string)
    ensures |r| == |s|
    ensures s != [] ==> r[0] == ToUpper(s[0])
    ensures forall i :: 1 <= i < |s| ==> r[i] == ToLower(s[i])
  {
    if s == [] then [] else [ToUpper(s[0])] + Lower(s[1..])
  }

  /** A word in capitalised form: one ASCII capital followed by ASCII small letters. */
  predicate IsCapitalizedWord(w: string) {
    w != [] && 'A' <= w[0] <= 'Z' && forall i :: 1 <= i < |w| ==> 'a' <= w[i] <= 'z'
  }

  /** Capitalising s gives the capitalised word w exactly when s spells w with
      any mix of upper and lower case. */
  lemma CapitalizeMatches(s: string, w: string)
    requires IsCapitalizedWord(w)
    ensures Capitalize(s) == w <==> Lower(s) == Lower(w)
  {
    if Capitalize(s) == w {
      forall i | 0 <= i < |s| ensures Lower(s)[i] == Lower(w)[i] {
        if i > 0 {
          assert Capitalize(s)[i] == Lower(s[1..])[i - 1];
        }
      }
    }
    if Lower(s) == Lower(w) {
      forall i | 0 <= i < |s| ensures Capitalize(s)[i] == w[i] {
        assert ToLower(s[i]) == ToLower(w[i]);
        if i > 0 {
          assert Capitalize(s)[i] == Lower(s[1..])[i - 1];
        }
      }
    }
  }
}
