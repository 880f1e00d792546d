/** The few Python `str` operations the task manager and the splitter rely on,
    with the facts about them that the rest of the model uses. Strings are
    sequences of Unicode scalar values, as Python's `str` is. */
module Text {

  // ---------------------------------------------------------------------------
  // Character classes
  // ---------------------------------------------------------------------------

  /** `c.isspace()`: the characters Python's argument-less `strip()` and `split()` treat as whitespace. */
  predicate IsSpace(c: char) {
    c == ' ' || ('\t' <= c <= '\r') || ('\U{1c}' <= c <= '\U{1f}') || c == '\U{85}' || c == '\U{a0}'
    || c == '\U{1680}' || ('\U{2000}' <= c <= '\U{200a}') || c == '\U{2028}' || c == '\U{2029}'
    || c == '\U{202f}' || c == '\U{205f}' || c == '\U{3000}'
  }

  predicate IsDigit(c: char) { '0' <= c <= '9' }

  predicate AllDigits(s: string) { forall i :: 0 <= i < |s| ==> IsDigit(s[i]) }

  /** `c.isalnum()` for ASCII letters and digits and for CJK ideographs; other scripts are not covered. */
  predicate IsAlnum(c: char) {
    IsDigit(c) || ('a' <= c <= 'z') || ('A' <= c <= 'Z')
    || ('\U{3400}' <= c <= '\U{4dbf}') || ('\U{4e00}' <= c <= '\U{9fff}')
  }

  /** `s.lower()` on ASCII letters; every other character is kept. */
  function Lower(s: string): (r: string)
    ensures |r| == |s|
    ensures forall i :: 0 <= i < |s| ==> (('A' <= s[i] <= 'Z') ==> r[i] == s[i] - 'A' + 'a')
    ensures forall i :: 0 <= i < |s| ==> (!('A' <= s[i] <= 'Z') ==> r[i] == s[i])
  {
    seq(|s|, i requires 0 <= i < |s| => if 'A' <= s[i] <= 'Z' then s[i] - 'A' + 'a' else s[i])
  }

  // ---------------------------------------------------------------------------
  // Prefixes, suffixes, stripping
  // ---------------------------------------------------------------------------

  predicate StartsWith(s: string, p: string) { |p| <= |s| && s[..|p|] == p }

  predicate EndsWith(s: string, p: string) { |p| <= |s| && s[|s| - |p|..] == p }

  /** `p` occurs in `s` starting at index `i`. */
  predicate OccursAt(s: string, p: string, i: int) {
    0 <= i <= |s| - |p| && s[i..i + |p|] == p
  }

  /** `p in s`. */
  ghost predicate Contains(s: string, p: string) {
    exists i :: OccursAt(s, p, i)
  }

  /** The end of the run of whitespace that starts at index `i`. */
  function SpaceRun(s: string, i: int): (k: int)
    requires 0 <= i <= |s|
    ensures i <= k <= |s|
    decreases |s| - i
  {
    if i < |s| && IsSpace(s[i]) then SpaceRun(s, i + 1) else i
  }

  /** `SpaceRun` stops at the first character after `i` that is not whitespace. */
  lemma {:induction false} SpaceRunIsRun(s: string, i: int)
    requires 0 <= i <= |s|
    ensures var k := SpaceRun(s, i);
      && (forall x :: i <= x < k ==> IsSpace(s[x]))
      && (k == |s| || !IsSpace(s[k]))
    decreases |s| - i
  {
    if i < |s| && IsSpace(s[i]) {
      SpaceRunIsRun(s, i + 1);
    }
  }

  /** The start of the run of whitespace that ends just before index `j`. */
  function SpaceRunBack(s: string, j: int): (k: int)
    requires 0 <= j <= |s|
    ensures 0 <= k <= j
  {
    if j > 0 && IsSpace(s[j - 1]) then SpaceRunBack(s, j - 1) else j
  }

  /** `SpaceRunBack` stops at the last character before `j` that is not whitespace. */
  lemma {:induction false} SpaceRunBackIsRun(s: string, j: int)
    requires 0 <= j <= |s|
    ensures var k := SpaceRunBack(s, j);
      && (forall x :: k <= x < j ==> IsSpace(s[x]))
      && (k == 0 || !IsSpace(s[k - 1]))
  {
    if j > 0 && IsSpace(s[j - 1]) {
      SpaceRunBackIsRun(s, j - 1);
    }
  }

  /** The end of the run of copies of `c` that starts at index `i`. */
  function CharRun(s: string, i: int, c: char): (k: int)
    requires 0 <= i <= |s|
    ensures i <= k <= |s|
    decreases |s| - i
  {
    if i < |s| && s[i] == c then CharRun(s, i + 1, c) else i
  }

  /** `CharRun` stops at the first character after `i` that is not `c`. */
  lemma {:induction false} CharRunIsRun(s: string, i: int, c: char)
    requires 0 <= i <= |s|
    ensures var k := CharRun(s, i, c);
      && (forall x :: i <= x < k ==> s[x] == c)
      && (k == |s| || s[k] != c)
    decreases |s| - i
  {
    if i < |s| && s[i] == c {
      CharRunIsRun(s, i + 1, c);
    }
  }

  /** The end of the run of non-whitespace characters that starts at index `i`. */
  function WordRun(s: string, i: int): (k: int)
    requires 0 <= i <= |s|
    ensures i <= k <= |s|
    decreases |s| - i
  {
    if i < |s| && !IsSpace(s[i]) then WordRun(s, i + 1) else i
  }

  /** `WordRun` stops at the first whitespace character after `i`. */
  lemma {:induction false} WordRunIsRun(s: string, i: int)
    requires 0 <= i <= |s|
    ensures var k := WordRun(s, i);
      && (forall x :: i <= x < k ==> !IsSpace(s[x]))
      && (k == |s| || IsSpace(s[k]))
    decreases |s| - i
  {
    if i < |s| && !IsSpace(s[i]) {
      WordRunIsRun(s, i + 1);
    }
  }

  /** `s.lstrip()`: drops leading whitespace. */
  function LStrip(s: string): string {
    s[SpaceRun(s, 0)..]
  }

  /** `s.rstrip()`: drops trailing whitespace. */
  function RStrip(s: string): string {
    s[..SpaceRunBack(s, |s|)]
  }

  /** `s.strip()`. */
  function Strip(s: string): string {
    RStrip(LStrip(s))
  }

  /** `s.lstrip(c)` for a single character `c`. */
  function LStripChar(s: string, c: char): string {
    s[CharRun(s, 0, c)..]
  }

  /** The longest prefix of `s` without whitespace. */
  function TakeWord(s: string): string {
    s[..WordRun(s, 0)]
  }

  /** `s.split()[0]` when `s` holds a non-whitespace character: its first whitespace-separated token. */
  function FirstToken(s: string): string {
    TakeWord(LStrip(s))
  }

  // ---------------------------------------------------------------------------
  // Splitting and joining
  // ---------------------------------------------------------------------------

  /** `sep.join(parts)`. */
  function Join(parts: seq<string>, sep: string): string {
    if |parts| == 0 then ""
    else if |parts| == 1 then parts[0]
    else parts[0] + sep + Join(parts[1..], sep)
  }

  /** `s.split(c)` for a one-character separator: the pieces between the occurrences of `c`. */
  function Split(s: string, c: char): (r: seq<string>)
    ensures |r| >= 1
    ensures forall k :: 0 <= k < |r| ==> c !in r[k]
  {
    if |s| == 0 then [""]
    else
      var rest := Split(s[1..], c);
      if s[0] == c then [""] + rest else [[s[0]] + rest[0]] + rest[1..]
  }

  /** `s.split(sep)` for a separator of any non-zero length: occurrences are found left to right without overlap. */
  function SplitStr(s: string, sep: string): (r: seq<string>)
    requires |sep| > 0
    ensures |r| >= 1
    decreases |s|
  {
    if |s| < |sep| then [s]
    else if s[..|sep|] == sep then [""] + SplitStr(s[|sep|..], sep)
    else
      var rest := SplitStr(s[1..], sep);
      [[s[0]] + rest[0]] + rest[1..]
  }

  lemma JoinCons(x: string, rest: seq<string>, sep: string)
    requires |rest| >= 1
    ensures Join([x] + rest, sep) == x + sep + Join(rest, sep)
  {
    assert ([x] + rest)[1..] == rest;
  }

  /** Joining two non-empty lists is joining their joins. */
  lemma {:induction false} JoinAppend(xs: seq<string>, ys: seq<string>, sep: string)
    requires |xs| >= 1 && |ys| >= 1
    ensures Join(xs + ys, sep) == Join(xs, sep) + sep + Join(ys, sep)
  {
    if |xs| == 1 {
      JoinCons(xs[0], ys, sep);
      assert xs + ys == [xs[0]] + ys;
    } else {
      JoinAppend(xs[1..], ys, sep);
      assert xs + ys == [xs[0]] + (xs[1..] + ys);
      JoinCons(xs[0], xs[1..] + ys, sep);
      JoinCons(xs[0], xs[1..], sep);
      assert xs == [xs[0]] + xs[1..];
    }
  }

  /** Prepending a character to the first piece prepends it to the join. */
  lemma JoinPrependFirst(c: char, rest: seq<string>, sep: string)
    requires |rest| >= 1
    ensures Join([[c] + rest[0]] + rest[1..], sep) == [c] + Join(rest, sep)
  {
    if |rest| > 1 {
      JoinCons([c] + rest[0], rest[1..], sep);
      JoinCons(rest[0], rest[1..], sep);
      assert rest == [rest[0]] + rest[1..];
    }
  }

  /** `c.join(s.split(c)) == s`: splitting on one character loses nothing. */
  lemma {:induction false} SplitJoin(s: string, c: char)
    ensures Join(Split(s, c), [c]) == s
  {
    if |s| > 0 {
      var rest := Split(s[1..], c);
      SplitJoin(s[1..], c);
      if s[0] == c {
        JoinCons("", rest, [c]);
      } else {
        JoinPrependFirst(s[0], rest, [c]);
      }
      assert s == [s[0]] + s[1..];
    }
  }

  /** `sep.join(s.split(sep)) == s`. */
  lemma {:induction false} SplitStrJoin(s: string, sep: string)
    requires |sep| > 0
    ensures Join(SplitStr(s, sep), sep) == s
    decreases |s|
  {
    if |s| >= |sep| {
      if s[..|sep|] == sep {
        var rest := SplitStr(s[|sep|..], sep);
        SplitStrJoin(s[|sep|..], sep);
        JoinCons("", rest, sep);
        assert s == s[..|sep|] + s[|sep|..];
      } else {
        var rest := SplitStr(s[1..], sep);
        SplitStrJoin(s[1..], sep);
        JoinPrependFirst(s[0], rest, sep);
        assert s == [s[0]] + s[1..];
      }
    }
  }

  // ---------------------------------------------------------------------------
  // Replacing
  // ---------------------------------------------------------------------------

  /** `s.replace(a, b)` for single characters. */
  function ReplaceChar(s: string, a: char, b: char): (r: string)
    ensures |r| == |s|
    ensures a != b ==> a !in r
    ensures forall i :: 0 <= i < |s| ==> r[i] == (if s[i] == a then b else s[i])
  {
    seq(|s|, i requires 0 <= i < |s| => if s[i] == a then b else s[i])
  }

  /** `s.replace(p, '')`: every occurrence of `p`, found left to right without overlap, removed. */
  function RemoveAll(s: string, p: string): (r: string)
    ensures |r| <= |s|
    decreases |s|
  {
    if |p| == 0 then s
    else if StartsWith(s, p) then RemoveAll(s[|p|..], p)
    else if |s| == 0 then s
    else [s[0]] + RemoveAll(s[1..], p)
  }

  /** A string in which `p` does not occur is left alone by `replace(p, '')`. */
  lemma {:induction false} RemoveAllAbsent(s: string, p: string)
    requires |p| > 0 && !Contains(s, p)
    ensures RemoveAll(s, p) == s
    decreases |s|
  {
    if |s| > 0 {
      assert StartsWith(s, p) ==> OccursAt(s, p, 0);
      assert !Contains(s[1..], p) by {
        forall i | 0 <= i <= |s[1..]| - |p|
          ensures !OccursAt(s[1..], p, i)
        {
          assert s[1..][i..i + |p|] == s[i + 1..i + 1 + |p|];
          assert !OccursAt(s, p, i + 1);
        }
      }
      RemoveAllAbsent(s[1..], p);
    }
  }

  /** `(p + id).replace(p, '') == id` whenever `p` is non-empty and does not occur in `id`. */
  lemma RemovePrefixRecovers(p: string, id: string)
    requires |p| > 0 && !Contains(id, p)
    ensures RemoveAll(p + id, p) == id
  {
    assert StartsWith(p + id, p);
    assert (p + id)[|p|..] == id;
    RemoveAllAbsent(id, p);
  }

  // ---------------------------------------------------------------------------
  // Numbers as text
  // ---------------------------------------------------------------------------

  function DigitChar(d: nat): char
    requires d < 10
  {
    '0' + d as char
  }

  /** The value of a string of decimal digits (`int(s)` for such a string; 0 for the empty string). */
  function DigitsValue(s: string): nat
    requires AllDigits(s)
  {
    if |s| == 0 then 0 else 10 * DigitsValue(s[..|s| - 1]) + (s[|s| - 1] - '0') as nat
  }

  /** `str(n)` for a non-negative `n`. */
  function NatToString(n: nat): (r: string)
    ensures |r| >= 1 && AllDigits(r)
    ensures |r| > 1 ==> r[0] != '0'
  {
    if n < 10 then [DigitChar(n)] else NatToString(n / 10) + [DigitChar(n % 10)]
  }

  /** `str(n)` for any integer. */
  function IntToString(n: int): string {
    if n < 0 then "-" + NatToString(-n) else NatToString(n)
  }

  /** `int(str(n)) == n`. */
  lemma {:induction false} NatToStringValue(n: nat)
    ensures DigitsValue(NatToString(n)) == n
  {
    if n >= 10 {
      NatToStringValue(n / 10);
      var s := NatToString(n);
      assert s[..|s| - 1] == NatToString(n / 10);
    }
  }

  /** `s.zfill(w)`: pads with zeros after an optional sign up to width `w`. */
  function ZFill(s: string, w: nat): (r: string)
    ensures |r| == if |s| >= w then |s| else w
    ensures |s| >= w ==> r == s
  {
    if |s| >= w then s
    else if |s| > 0 && (s[0] == '-' || s[0] == '+') then [s[0]] + Zeros(w - |s|) + s[1..]
    else Zeros(w - |s|) + s
  }

  function Zeros(n: nat): (r: string)
    ensures |r| == n && AllDigits(r) && DigitsValue(r) == 0
  {
    if n == 0 then "" else
      var r := Zeros(n - 1) + "0";
      assert r[..|r| - 1] == Zeros(n - 1);
      r
  }

  /** Leading zeros do not change a digit string's value. */
  lemma {:induction false} ZerosPrefixValue(n: nat, s: string)
    requires AllDigits(s)
    ensures AllDigits(Zeros(n) + s)
    ensures DigitsValue(Zeros(n) + s) == DigitsValue(s)
    decreases |s|
  {
    if |s| == 0 {
      assert Zeros(n) + s == Zeros(n);
    } else {
      ZerosPrefixValue(n, s[..|s| - 1]);
      assert (Zeros(n) + s)[..|Zeros(n) + s| - 1] == Zeros(n) + s[..|s| - 1];
    }
  }
}
