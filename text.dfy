/** String helpers shared by the model: the exact Python string operations the
 *  source relies on (`str.split()`, `' '.join`, `str.split(',')`, `str.strip`,
 *  `str.isdigit`, `int(...)`, `str(int)`, `str.lower`, the `in` operator on
 *  strings, `round`, and slicing `s[:k]`). */
module Text {

  // ---------------------------------------------------------------------------
  // Characters

  /** The characters Python's `str.isspace()` accepts; `str.split()` and
   *  `str.strip()` with no argument split and strip on exactly these. */
  predicate IsSpace(c: char)
  {
    c == ' ' || ('\t' <= c <= '\r') || ('\U{1c}' <= c <= '\U{1f}')
    || c == '\U{85}' || c == '\U{a0}' || c == '\U{1680}'
    || ('\U{2000}' <= c <= '\U{200a}') || c == '\U{2028}' || c == '\U{2029}'
    || c == '\U{202f}' || c == '\U{205f}' || c == '\U{3000}'
  }

  predicate IsUpper(c: char) { 'A' <= c <= 'Z' }

  predicate IsDigit(c: char) { '0' <= c <= '9' }

  /** `str.lower()` restricted to ASCII letters. */
  function LowerChar(c: char): (l: char)
    ensures !IsUpper(l)
    ensures IsUpper(c) ==> l as int == c as int + 32
    ensures !IsUpper(c) ==> l == c
  {
    if IsUpper(c) then (c as int + 32) as char else c
  }

  function Lower(s: string): (l: string)
    ensures |l| == |s|
    ensures forall i :: 0 <= i < |s| ==> l[i] == LowerChar(s[i])
  {
    if s == [] then [] else [LowerChar(s[0])] + Lower(s[1..])
  }

  lemma {:induction false} LowerIdempotent(s: string)
    ensures Lower(Lower(s)) == Lower(s)
  {
    var l := Lower(s);
    assert forall i :: 0 <= i < |l| ==> LowerChar(l[i]) == l[i];
  }

  // ---------------------------------------------------------------------------
  // str.split() and ' '.join(...)

  /** A token `str.split()` can produce: non-empty and free of whitespace. */
  predicate IsWord(w: string)
  {
    |w| > 0 && forall i :: 0 <= i < |w| ==> !IsSpace(w[i])
  }

  /** Length of the longest whitespace-free prefix of `s`. */
  function WordLength(s: string): (n: nat)
    ensures n <= |s|
    ensures forall i :: 0 <= i < n ==> !IsSpace(s[i])
    ensures n < |s| ==> IsSpace(s[n])
  {
    if s == [] || IsSpace(s[0]) then 0 else 1 + WordLength(s[1..])
  }

  /** `s.split()`: the maximal whitespace-free runs of `s`, in order. */
  function Words(s: string): (ws: seq<string>)
    ensures forall i :: 0 <= i < |ws| ==> IsWord(ws[i])
    decreases |s|
  {
    if s == [] then []
    else if IsSpace(s[0]) then Words(s[1..])
    else
      var n := WordLength(s);
      [s[..n]] + Words(s[n..])
  }

  /** `sep.join(ws)` for a one-character separator. */
  function JoinWith(ws: seq<string>, sep: char): string
  {
    if ws == [] then "" else if |ws| == 1 then ws[0] else ws[0] + [sep] + JoinWith(ws[1..], sep)
  }

  function JoinSpace(ws: seq<string>): string
  {
    JoinWith(ws, ' ')
  }

  lemma {:induction false} WordLengthOfWord(w: string, rest: string)
    requires IsWord(w)
    requires rest == [] || IsSpace(rest[0])
    ensures WordLength(w + rest) == |w|
    decreases |w|
  {
    var s := w + rest;
    assert s[0] == w[0] && !IsSpace(w[0]);
    assert WordLength(s) == 1 + WordLength(s[1..]);
    if |w| > 1 {
      assert s[1..] == w[1..] + rest;
      assert forall i :: 0 <= i < |w[1..]| ==> w[1..][i] == w[i + 1];
      WordLengthOfWord(w[1..], rest);
    } else {
      assert s[1..] == rest;
    }
  }

  lemma WordsOfWordThen(w: string, rest: string)
    requires IsWord(w)
    requires rest == [] || IsSpace(rest[0])
    ensures Words(w + rest) == [w] + Words(rest)
  {
    var s := w + rest;
    WordLengthOfWord(w, rest);
    assert s[..|w|] == w;
    assert s[|w|..] == rest;
  }

  /** Splitting a space-joined list of words gives the words back. */
  lemma {:induction false} WordsOfJoin(ws: seq<string>)
    requires forall i :: 0 <= i < |ws| ==> IsWord(ws[i])
    ensures Words(JoinSpace(ws)) == ws
  {
    if ws == [] {
    } else if |ws| == 1 {
      WordsOfWordThen(ws[0], "");
      assert ws[0] + "" == ws[0];
    } else {
      var rest := JoinSpace(ws[1..]);
      assert JoinSpace(ws) == ws[0] + ([' '] + rest);
      WordsOfWordThen(ws[0], [' '] + rest);
      assert ([' '] + rest)[1..] == rest;
      WordsOfJoin(ws[1..]);
    }
  }

  /** Concatenation of a list of lists, used for the words of a list of lines. */
  function Flatten<T>(xss: seq<seq<T>>): seq<T>
  {
    if xss == [] then [] else xss[0] + Flatten(xss[1..])
  }

  lemma FlattenAppend<T>(xss: seq<seq<T>>, ys: seq<T>)
    ensures Flatten(xss + [ys]) == Flatten(xss) + ys
  {
    if xss == [] {
      assert [ys][1..] == [];
    } else {
      assert (xss + [ys])[1..] == xss[1..] + [ys];
      FlattenAppend(xss[1..], ys);
    }
  }

  // ---------------------------------------------------------------------------
  // str.split(sep) for a one-character separator

  /** `s.split(sep)`: the pieces between separators, empty pieces included. */
  function SplitOn(s: string, sep: char): (parts: seq<string>)
    ensures |parts| >= 1
    ensures forall i :: 0 <= i < |parts| ==> sep !in parts[i]
    ensures JoinWith(parts, sep) == s
  {
    if s == [] then [""]
    else if s[0] == sep then
      var rest := SplitOn(s[1..], sep);
      assert JoinWith([""] + rest, sep) == "" + [sep] + JoinWith(rest, sep);
      [""] + rest
    else
      var rest := SplitOn(s[1..], sep);
      var parts := [[s[0]] + rest[0]] + rest[1..];
      assert parts[1..] == rest[1..];
      assert JoinWith(parts, sep) == [s[0]] + JoinWith(rest, sep);
      parts
  }

  lemma {:induction false} SplitOnPiece(t: string, sep: char, rest: string)
    requires sep !in t
    ensures SplitOn(t + [sep] + rest, sep) == [t] + SplitOn(rest, sep)
  {
    var s := t + [sep] + rest;
    if t == [] {
      assert s == [sep] + rest && s[1..] == rest;
    } else {
      assert s[0] == t[0] != sep;
      assert s[1..] == t[1..] + [sep] + rest;
      SplitOnPiece(t[1..], sep, rest);
      var tail := SplitOn(s[1..], sep);
      assert tail == [t[1..]] + SplitOn(rest, sep);
      assert SplitOn(s, sep) == [[s[0]] + tail[0]] + tail[1..];
      assert [t[0]] + t[1..] == t;
      assert tail[1..] == SplitOn(rest, sep);
    }
  }

  lemma SplitOnNoSep(t: string, sep: char)
    requires sep !in t
    ensures SplitOn(t, sep) == [t]
  {
    if t != [] {
      SplitOnNoSep(t[1..], sep);
      assert [t[0]] + t[1..] == t;
    }
  }

  /** Splitting a joined list of separator-free pieces gives the pieces back. */
  lemma {:induction false} SplitOnJoin(ts: seq<string>, sep: char)
    requires |ts| >= 1
    requires forall i :: 0 <= i < |ts| ==> sep !in ts[i]
    ensures SplitOn(JoinWith(ts, sep), sep) == ts
  {
    if |ts| == 1 {
      SplitOnNoSep(ts[0], sep);
    } else {
      SplitOnPiece(ts[0], sep, JoinWith(ts[1..], sep));
      SplitOnJoin(ts[1..], sep);
    }
  }

  // ---------------------------------------------------------------------------
  // str.strip(chars)

  function StripLeft(s: string, drop: char -> bool): (r: string)
    ensures |r| <= |s| && r == s[|s| - |r|..]
    ensures forall i :: 0 <= i < |s| - |r| ==> drop(s[i])
    ensures r == [] || !drop(r[0])
  {
    if s != [] && drop(s[0]) then StripLeft(s[1..], drop) else s
  }

  function StripRight(s: string, drop: char -> bool): (r: string)
    ensures |r| <= |s| && r == s[..|r|]
    ensures forall i :: |r| <= i < |s| ==> drop(s[i])
    ensures r == [] || !drop(r[|r| - 1])
  {
    if s != [] && drop(s[|s| - 1]) then StripRight(s[..|s| - 1], drop) else s
  }

  /** `s.strip(...)`: removes the longest prefix and suffix made of dropped characters. */
  function StripBoth(s: string, drop: char -> bool): (r: string)
    ensures r == [] || (!drop(r[0]) && !drop(r[|r| - 1]))
  {
    StripRight(StripLeft(s, drop), drop)
  }

  lemma StripBothKeeps(s: string, drop: char -> bool)
    requires s == [] || (!drop(s[0]) && !drop(s[|s| - 1]))
    ensures StripBoth(s, drop) == s
  {
  }

  /** `s.strip()` with no argument. */
  function Strip(s: string): string
  {
    StripBoth(s, IsSpace)
  }

  // ---------------------------------------------------------------------------
  // str.isdigit(), int(...), str(int)

  /** `s.isdigit()` for ASCII digits: non-empty and all digits. */
  predicate IsDigits(s: string)
  {
    |s| > 0 && forall i :: 0 <= i < |s| ==> IsDigit(s[i])
  }

  function DecimalValue(s: string): nat
    requires forall i :: 0 <= i < |s| ==> IsDigit(s[i])
  {
    if s == [] then 0
    else
      assert IsDigit(s[|s| - 1]);
      10 * DecimalValue(s[..|s| - 1]) + (s[|s| - 1] as int - '0' as int)
  }

  function DigitChar(d: nat): (c: char)
    requires d < 10
    ensures IsDigit(c) && c as int - '0' as int == d
  {
    ('0' as int + d) as char
  }

  /** `str(n)` for a natural number: no leading zeros. */
  function NatToDecimal(n: nat): (s: string)
    ensures IsDigits(s)
    ensures s[0] == '0' ==> n == 0
  {
    if n < 10 then [DigitChar(n)] else NatToDecimal(n / 10) + [DigitChar(n % 10)]
  }

  /** `str(v)` for any integer, with a leading minus sign for negatives. */
  function IntToDecimal(v: int): (s: string)
    ensures v >= 0 ==> IsDigits(s)
    ensures v < 0 ==> |s| > 1 && s[0] == '-' && IsDigits(s[1..])
  {
    if v < 0 then "-" + NatToDecimal(-v) else NatToDecimal(v)
  }

  /** `int(str(n)) == n`. */
  lemma {:induction false} DecimalOfNat(n: nat)
    ensures DecimalValue(NatToDecimal(n)) == n
  {
    if n >= 10 {
      var s := NatToDecimal(n);
      assert s[..|s| - 1] == NatToDecimal(n / 10);
      DecimalOfNat(n / 10);
    }
  }

  // ---------------------------------------------------------------------------
  // `needle in hay` on strings

  predicate IsPrefix(p: string, s: string)
  {
    |p| <= |s| && s[..|p|] == p
  }

  /** Python's substring test `needle in hay`. */
  predicate Contains(hay: string, needle: string)
    decreases |hay|
  {
    IsPrefix(needle, hay) || (hay != [] && Contains(hay[1..], needle))
  }

  lemma {:induction false} ContainsAt(hay: string, needle: string, i: nat)
    requires i + |needle| <= |hay| && hay[i..i + |needle|] == needle
    ensures Contains(hay, needle)
  {
    if i > 0 {
      assert hay[1..][i - 1..i - 1 + |needle|] == hay[i..i + |needle|];
      ContainsAt(hay[1..], needle, i - 1);
    }
  }

  // ---------------------------------------------------------------------------
  // Numbers

  function Abs(x: int): nat { if x < 0 then -x else x }

  function Min(a: int, b: int): int { if a <= b then a else b }

  function Max(a: int, b: int): int { if a >= b then a else b }

  /** Python's `round(n / d)`: nearest integer, ties to the even neighbour. */
  function RoundHalfEven(n: int, d: int): (r: int)
    requires d > 0
    ensures 2 * Abs(n - r * d) <= d
    ensures 2 * Abs(n - r * d) == d ==> r % 2 == 0
  {
    var q := n / d;
    var m := n % d;
    assert n - q * d == m;
    assert n - (q + 1) * d == m - d;
    if 2 * m < d then q
    else if 2 * m > d then q + 1
    else if q % 2 == 0 then q
    else q + 1
  }

  // ---------------------------------------------------------------------------
  // Sequences

  /** No element of `s` occurs twice. */
  predicate Distinct<T(==)>(s: seq<T>)
  {
    forall i, j :: 0 <= i < j < |s| ==> s[i] != s[j]
  }

  /** `a` is `b` with some elements left out, the order kept. */
  predicate IsSubsequence<T(==)>(a: seq<T>, b: seq<T>)
    decreases |b|
  {
    a == [] || (b != [] && ((a[0] == b[0] && IsSubsequence(a[1..], b[1..])) || IsSubsequence(a, b[1..])))
  }

  /** Python's `s[:k]`, where a negative `k` counts from the end. */
  function PyPrefix<T>(s: seq<T>, k: int): (p: seq<T>)
    ensures k >= 0 ==> |p| == Min(k, |s|)
    ensures k < 0 ==> |p| == Max(0, |s| + k)
    ensures p == s[..|p|]
  {
    if k >= 0 then (if k <= |s| then s[..k] else s)
    else (if |s| + k >= 0 then s[..|s| + k] else [])
  }
}
