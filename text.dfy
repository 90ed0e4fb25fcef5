/**
 * The JavaScript string operations the core relies on, over `string` (a
 * sequence of Unicode scalar values, Dafny's `char`): `startsWith`, `includes`, `split`
 * with a non-empty separator, `trim`, `toLowerCase` (ASCII letters only),
 * `repeat`, and the decimal rendering of an integer inside a template
 * string.
 */
module Text {
  import opened Wrappers

  /** `s.startsWith(p)`. */
  predicate StartsWith(s: string, p: string) {
    |p| <= |s| && s[..|p|] == p
  }

  lemma StartsWithAppend(p: string, x: string)
    ensures StartsWith(p + x, p)
  {
    assert (p + x)[..|p|] == p;
  }

  lemma StartsWithTrans(s: string, p: string, q: string)
    requires StartsWith(s, p) && StartsWith(p, q)
    ensures StartsWith(s, q)
  {
    assert s[..|q|] == s[..|p|][..|q|];
  }

  /** `s.endsWith(p)`. */
  predicate EndsWith(s: string, p: string) {
    |p| <= |s| && s[|s| - |p|..] == p
  }

  /** `s.includes(sub)`: `sub` occurs somewhere in `s`. */
  predicate Contains(s: string, sub: string)
    decreases |s|
  {
    StartsWith(s, sub) || (s != [] && Contains(s[1..], sub))
  }

  /** `s.indexOf(sep)`: the first position at which `sep` occurs. */
  function IndexOf(s: string, sep: string): (r: Option<nat>)
    ensures r.Some? ==> r.value + |sep| <= |s| && s[r.value..r.value + |sep|] == sep
    decreases |s|
  {
    if StartsWith(s, sep) then Some(0)
    else if s == [] then None
    else
      match IndexOf(s[1..], sep)
      case None => None
      case Some(k) => Some(k + 1)
  }

  /** `indexOf` answers "not found" exactly when `sep` does not occur. */
  lemma {:induction false} IndexOfNoneIffAbsent(s: string, sep: string)
    ensures IndexOf(s, sep).None? <==> !Contains(s, sep)
    decreases |s|
  {
    if !StartsWith(s, sep) && s != [] {
      IndexOfNoneIffAbsent(s[1..], sep);
    }
  }

  /** `indexOf` finds the first occurrence: `sep` starts nowhere before it. */
  lemma {:induction false} IndexOfIsFirst(s: string, sep: string, j: nat)
    requires IndexOf(s, sep).Some? && j < IndexOf(s, sep).value
    ensures !StartsWith(s[j..], sep)
    decreases |s|
  {
    if j > 0 {
      IndexOfIsFirst(s[1..], sep, j - 1);
      assert s[j..] == s[1..][j - 1..];
    }
  }

  /** `s.split(sep)` for a non-empty separator: the pieces between the
      non-overlapping occurrences of `sep`, scanned from the left. */
  function Split(s: string, sep: string): (parts: seq<string>)
    requires sep != []
    ensures |parts| >= 1
    decreases |s|
  {
    match IndexOf(s, sep)
    case None => [s]
    case Some(k) => [s[..k]] + Split(s[k + |sep|..], sep)
  }

  /** `parts.join(sep)`. */
  function Join(parts: seq<string>, sep: string): string {
    if parts == [] then ""
    else if |parts| == 1 then parts[0]
    else parts[0] + sep + Join(parts[1..], sep)
  }

  /** Splitting loses nothing: joining the pieces with the separator gives
      the original string back. */
  lemma {:induction false} JoinSplit(s: string, sep: string)
    requires sep != []
    ensures Join(Split(s, sep), sep) == s
    decreases |s|
  {
    var i := IndexOf(s, sep);
    if i.Some? {
      var k := i.value;
      var rest := s[k + |sep|..];
      SplitFound(s, sep);
      JoinSplit(rest, sep);
      JoinCons(s[..k], Split(rest, sep), sep);
      assert s == s[..k] + sep + rest;
    }
  }

  /** Unfolding `Split` at a found separator. */
  lemma SplitFound(s: string, sep: string)
    requires sep != [] && IndexOf(s, sep).Some?
    ensures Split(s, sep) == [s[..IndexOf(s, sep).value]] + Split(s[IndexOf(s, sep).value + |sep|..], sep)
  {
  }

  lemma JoinCons(p: string, parts: seq<string>, sep: string)
    requires parts != []
    ensures Join([p] + parts, sep) == p + sep + Join(parts, sep)
  {
    assert ([p] + parts)[1..] == parts;
  }

  /** The first piece of a split is a prefix of the string without the
      separator in it, and is the whole string when the separator does not
      occur. */
  lemma SplitFirstPiece(s: string, sep: string)
    requires sep != []
    ensures StartsWith(s, Split(s, sep)[0])
    ensures !Contains(Split(s, sep)[0], sep)
    ensures !Contains(s, sep) ==> Split(s, sep)[0] == s
  {
    IndexOfNoneIffAbsent(s, sep);
    SplitPiecesAvoidSeparator(s, sep);
    if IndexOf(s, sep).Some? {
      SplitFound(s, sep);
    }
  }

  /** No piece of a split contains the separator. */
  lemma {:induction false} SplitPiecesAvoidSeparator(s: string, sep: string)
    requires sep != []
    ensures forall p :: p in Split(s, sep) ==> !Contains(p, sep)
    decreases |s|
  {
    match IndexOf(s, sep)
    case None =>
      IndexOfNoneIffAbsent(s, sep);
    case Some(k) =>
      var rest := s[k + |sep|..];
      SplitPiecesAvoidSeparator(rest, sep);
      assert !Contains(s[..k], sep) by {
        forall j | 0 <= j < k ensures !StartsWith(s[j..], sep) {
          IndexOfIsFirst(s, sep, j);
        }
        PrefixBeforeFirstAvoids(s, sep, k);
      }
      assert Split(s, sep) == [s[..k]] + Split(rest, sep);
  }

  /** The text before the first occurrence of `sep` does not contain it. */
  lemma {:induction false} PrefixBeforeFirstAvoids(s: string, sep: string, k: nat)
    requires sep != []
    requires k <= |s|
    requires forall j :: 0 <= j < k ==> !StartsWith(s[j..], sep)
    ensures !Contains(s[..k], sep)
    decreases k
  {
    if k > 0 {
      assert !StartsWith(s[0..], sep);
      assert s[0..] == s;
      var t := s[1..];
      forall j | 0 <= j < k - 1 ensures !StartsWith(t[j..], sep) {
        assert t[j..] == s[j + 1..];
      }
      PrefixBeforeFirstAvoids(t, sep, k - 1);
      assert s[..k][1..] == t[..k - 1];
      if |sep| <= k {
        assert s[..k][..|sep|] == s[..|sep|];
      }
    }
  }

  /** Number of occurrences of the character `c` in `s`. */
  function CountChar(s: string, c: char): (n: nat)
    ensures n <= |s|
  {
    if s == [] then 0 else (if s[0] == c then 1 else 0) + CountChar(s[1..], c)
  }

  lemma {:induction false} CountCharAppend(a: string, b: string, c: char)
    ensures CountChar(a + b, c) == CountChar(a, c) + CountChar(b, c)
  {
    if a != [] {
      assert (a + b)[0] == a[0];
      assert (a + b)[1..] == a[1..] + b;
      CountCharAppend(a[1..], b, c);
    } else {
      assert a + b == b;
    }
  }

  /** `s.split(c).length` is the number of occurrences of `c` plus one. */
  lemma {:induction false} SplitCountChar(s: string, c: char)
    ensures |Split(s, [c])| == CountChar(s, c) + 1
    decreases |s|
  {
    match IndexOf(s, [c])
    case None =>
      IndexOfNoneIffAbsent(s, [c]);
      CountCharAbsent(s, c);
    case Some(k) =>
      var rest := s[k + 1..];
      SplitCountChar(rest, c);
      forall j | 0 <= j < k ensures !StartsWith(s[j..], [c]) {
        IndexOfIsFirst(s, [c], j);
      }
      PrefixBeforeFirstAvoids(s, [c], k);
      CountCharAbsent(s[..k], c);
      assert s == s[..k] + [c] + rest;
      CountCharAppend(s[..k] + [c], rest, c);
      CountCharAppend(s[..k], [c], c);
  }

  /** A string that does not contain `[c]` has no occurrence of `c`. */
  lemma {:induction false} CountCharAbsent(s: string, c: char)
    requires !Contains(s, [c])
    ensures CountChar(s, c) == 0
  {
    if s != [] {
      CountCharAbsent(s[1..], c);
    }
  }

  /** The characters JavaScript's `trim` removes: the ASCII blanks, the
      byte-order mark, the line and paragraph separators, and every Unicode
      space separator (U+00A0, U+1680, U+2000 to U+200A, U+202F, U+205F,
      U+3000). */
  predicate IsWhitespace(ch: char) {
    ch == ' ' || ch == '\t' || ch == '\n' || ch == '\r' || ch == '\U{B}' || ch == '\U{C}'
    || ch == '\U{A0}' || ch == '\U{FEFF}' || ch == '\U{2028}' || ch == '\U{2029}'
    || ch == '\U{1680}' || ('\U{2000}' <= ch <= '\U{200A}')
    || ch == '\U{202F}' || ch == '\U{205F}' || ch == '\U{3000}'
  }

  /** Every character is whitespace: `s.trim() === ''`. */
  predicate IsBlank(s: string) {
    forall i :: 0 <= i < |s| ==> IsWhitespace(s[i])
  }

  /** `s.trimStart()`. */
  function TrimStart(s: string): (r: string)
    ensures |r| <= |s| && r == s[|s| - |r|..]
    ensures IsBlank(s[..|s| - |r|])
    ensures r == [] || !IsWhitespace(r[0])
  {
    if s != [] && IsWhitespace(s[0]) then
      var r := TrimStart(s[1..]);
      assert s[..|s| - |r|] == [s[0]] + s[1..][..|s| - 1 - |r|];
      r
    else s
  }

  /** `s.trimEnd()`. */
  function TrimEnd(s: string): (r: string)
    ensures |r| <= |s| && r == s[..|r|]
    ensures IsBlank(s[|r|..])
    ensures r == [] || !IsWhitespace(r[|r| - 1])
  {
    if s != [] && IsWhitespace(s[|s| - 1]) then
      var r := TrimEnd(s[..|s| - 1]);
      assert s[|r|..] == s[..|s| - 1][|r|..] + [s[|s| - 1]];
      r
    else s
  }

  /** `s.trim()`: the source's test for a filled-in text field. */
  function Trim(s: string): (r: string)
    ensures r == [] <==> IsBlank(s)
    ensures r != [] ==> !IsWhitespace(r[0]) && !IsWhitespace(r[|r| - 1])
  {
    TrimEmptyIffBlank(s);
    TrimEnd(TrimStart(s))
  }

  lemma TrimEmptyIffBlank(s: string)
    ensures TrimEnd(TrimStart(s)) == [] <==> IsBlank(s)
  {
    var t := TrimStart(s);
    var r := TrimEnd(t);
    var n := |s| - |t|;
    assert IsBlank(t) ==> t == [];
    if r == [] {
      assert t[|r|..] == t;
      assert s[..n] == s;
    }
  }

  /** A blank string contains nothing that begins with a visible
      character. */
  lemma {:induction false} BlankAvoids(s: string, sub: string)
    requires IsBlank(s) && sub != [] && !IsWhitespace(sub[0])
    ensures !Contains(s, sub)
    decreases |s|
  {
    if |sub| <= |s| {
      assert s[..|sub|][0] == s[0];
    }
    if s != [] {
      BlankAvoids(s[1..], sub);
    }
  }

  /** `c.toLowerCase()` for ASCII letters; every other character is kept. */
  function ToLowerChar(c: char): char {
    if 'A' <= c <= 'Z' then (c as int - 'A' as int + 'a' as int) as char else c
  }

  /** `s.toLowerCase()`, ASCII letters only. */
  function ToLower(s: string): (r: string)
    ensures |r| == |s|
    ensures forall i :: 0 <= i < |s| ==> r[i] == ToLowerChar(s[i])
  {
    seq(|s|, i requires 0 <= i < |s| => ToLowerChar(s[i]))
  }

  /** `c.repeat(n)` for a one-character string. */
  function Repeat(c: char, n: nat): (r: string)
    ensures |r| == n
    ensures forall i :: 0 <= i < n ==> r[i] == c
  {
    if n == 0 then "" else [c] + Repeat(c, n - 1)
  }

  function DigitChar(d: nat): char
    requires d < 10
  {
    "0123456789"[d]
  }

  function DigitValue(c: char): nat {
    if '0' <= c <= '9' then c as int - '0' as int else 0
  }

  predicate IsDigit(c: char) {
    '0' <= c <= '9'
  }

  /** `${n}` for a natural number: its decimal digits, no leading zero. */
  function NatToString(n: nat): (s: string)
    ensures |s| >= 1
    ensures forall i :: 0 <= i < |s| ==> IsDigit(s[i])
    ensures |s| > 1 ==> s[0] != '0'
  {
    if n < 10 then [DigitChar(n)] else NatToString(n / 10) + [DigitChar(n % 10)]
  }

  /** Reading decimal digits back, most significant first. */
  function ParseDecimal(s: string): nat {
    if s == [] then 0 else ParseDecimal(s[..|s| - 1]) * 10 + DigitValue(s[|s| - 1])
  }

  /** The decimal rendering is faithful: reading it back gives the number. */
  lemma {:induction false} ParseNatToString(n: nat)
    ensures ParseDecimal(NatToString(n)) == n
  {
    if n >= 10 {
      var s := NatToString(n);
      assert s[..|s| - 1] == NatToString(n / 10);
      ParseNatToString(n / 10);
    }
  }

  /** Distinct numbers render as distinct strings. */
  lemma NatToStringInjective(m: nat, n: nat)
    requires NatToString(m) == NatToString(n)
    ensures m == n
  {
    ParseNatToString(m);
    ParseNatToString(n);
  }

  /** Distinct integers render as distinct strings. */
  lemma IntToStringInjective(m: int, n: int)
    requires IntToString(m) == IntToString(n)
    ensures m == n
  {
    assert (m < 0) == (n < 0) by {
      assert (m < 0) == StartsWith(IntToString(m), "-");
      assert (n < 0) == StartsWith(IntToString(n), "-");
    }
    if m < 0 {
      NegativeRendering(m);
      NegativeRendering(n);
      NatToStringInjective(-m, -n);
    } else {
      NatToStringInjective(m, n);
    }
  }

  lemma NegativeRendering(m: int)
    requires m < 0
    ensures IntToString(m)[1..] == NatToString(-m)
  {
  }

  /** `${i}` for an integer. */
  function IntToString(i: int): (s: string)
    ensures i < 0 <==> StartsWith(s, "-")
  {
    if i < 0 then "-" + NatToString(-i) else NatToString(i)
  }
}
