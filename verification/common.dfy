/**
 * Helpers shared by the figpack models: optional values, the string
 * operations the Python and TypeScript sources lean on (split, join, trim,
 * prefix and suffix tests, decimal rendering), sums and a stable sort.
 */
module Common {

  datatype Option<T> = None | Some(value: T)

  // ---------------------------------------------------------------------
  // Prefixes, suffixes and occurrences
  // ---------------------------------------------------------------------

  predicate StartsWith(s: string, p: string)
  {
    |p| <= |s| && s[..|p|] == p
  }

  predicate EndsWith(s: string, p: string)
  {
    |p| <= |s| && s[|s| - |p|..] == p
  }

  /** A string that starts with `p + q` starts with `p`. */
  lemma PrefixOfPrefix(s: string, p: string, q: string)
    requires StartsWith(s, p + q)
    ensures StartsWith(s, p)
  {
    assert s[..|p|] == (p + q)[..|p|];
  }

  /** `sub` occurs in `s` at position `k`. */
  predicate MatchAt(s: string, sub: string, k: int)
  {
    0 <= k && k + |sub| <= |s| && s[k..k + |sub|] == sub
  }

  predicate Contains(s: string, sub: string)
  {
    exists k :: 0 <= k <= |s| - |sub| && MatchAt(s, sub, k)
  }

  /** The first position at or after `i` where `sub` occurs in `s`. */
  function FindFrom(s: string, sub: string, i: nat): (r: Option<nat>)
    requires i <= |s|
    ensures r.Some? ==> i <= r.value && MatchAt(s, sub, r.value)
    ensures r.Some? ==> forall k :: i <= k < r.value ==> !MatchAt(s, sub, k)
    ensures r.None? ==> forall k :: i <= k ==> !MatchAt(s, sub, k)
    decreases |s| - i
  {
    if MatchAt(s, sub, i) then Some(i)
    else if i + |sub| >= |s| then None
    else FindFrom(s, sub, i + 1)
  }

  /** JavaScript `indexOf` / Python `find`, with None for -1. */
  function Find(s: string, sub: string): (r: Option<nat>)
    ensures r.Some? ==> MatchAt(s, sub, r.value) && forall k :: 0 <= k < r.value ==> !MatchAt(s, sub, k)
    ensures r.None? <==> !Contains(s, sub)
  {
    FindFrom(s, sub, 0)
  }

  /** The last position of character `c` in `s`. */
  function LastIndexOf(s: string, c: char): (r: Option<nat>)
    ensures r.Some? ==> r.value < |s| && s[r.value] == c && forall k :: r.value < k < |s| ==> s[k] != c
    ensures r.None? ==> forall k :: 0 <= k < |s| ==> s[k] != c
  {
    if |s| == 0 then None
    else if s[|s| - 1] == c then Some(|s| - 1)
    else LastIndexOf(s[..|s| - 1], c)
  }

  // ---------------------------------------------------------------------
  // Split and join (Python `str.split(sep)` / JavaScript `split(sep)`)
  // ---------------------------------------------------------------------

  /** Splits at every leftmost non-overlapping occurrence of `sep`. */
  function Split(s: string, sep: string): (parts: seq<string>)
    requires |sep| > 0
    ensures |parts| >= 1
    decreases |s|
  {
    match Find(s, sep)
    case None => [s]
    case Some(j) => [s[..j]] + Split(s[j + |sep|..], sep)
  }

  function Join(parts: seq<string>, sep: string): string
  {
    if |parts| == 0 then ""
    else if |parts| == 1 then parts[0]
    else parts[0] + sep + Join(parts[1..], sep)
  }

  lemma {:induction false} JoinSplit(s: string, sep: string)
    requires |sep| > 0
    ensures Join(Split(s, sep), sep) == s
    decreases |s|
  {
    var f := Find(s, sep);
    if f.Some? {
      var j := f.value;
      var rest := s[j + |sep|..];
      JoinSplit(rest, sep);
      JoinCons(s[..j], Split(rest, sep), sep);
      Reassemble(s, sep, j);
    }
  }

  lemma JoinCons(p: string, tail: seq<string>, sep: string)
    requires |tail| >= 1
    ensures Join([p] + tail, sep) == p + sep + Join(tail, sep)
  {
    assert ([p] + tail)[1..] == tail;
  }

  lemma Reassemble(s: string, sep: string, j: nat)
    requires MatchAt(s, sep, j)
    ensures s[..j] + sep + s[j + |sep|..] == s
  {
    assert s[j..] == s[j..j + |sep|] + s[j + |sep|..];
    assert s == s[..j] + s[j..];
  }

  /** No part of a split contains the separator. */
  lemma {:induction false} SplitPartsFree(s: string, sep: string, i: nat)
    requires |sep| > 0 && i < |Split(s, sep)|
    ensures !Contains(Split(s, sep)[i], sep)
    decreases |s|
  {
    match Find(s, sep)
    case None =>
    case Some(j) =>
      if i == 0 {
        PrefixBeforeFirstMatch(s, sep, j);
      } else {
        SplitPartsFree(s[j + |sep|..], sep, i - 1);
      }
  }

  /** No piece of a split at a single character contains that character. */
  lemma SplitCharFree(s: string, c: char)
    ensures forall i :: 0 <= i < |Split(s, [c])| ==> c !in Split(s, [c])[i]
  {
    forall i | 0 <= i < |Split(s, [c])|
      ensures c !in Split(s, [c])[i]
    {
      var p := Split(s, [c])[i];
      SplitPartsFree(s, [c], i);
      forall k | 0 <= k < |p|
        ensures p[k] != c
      {
        MatchAtChar(p, c, k);
        assert k <= |p| - 1 ==> !MatchAt(p, [c], k);
      }
    }
  }

  /** The text before the first occurrence does not contain the separator. */
  lemma PrefixBeforeFirstMatch(s: string, sep: string, j: nat)
    requires |sep| > 0 && Find(s, sep) == Some(j)
    ensures !Contains(s[..j], sep)
  {
    if Contains(s[..j], sep) {
      var k :| 0 <= k <= j - |sep| && MatchAt(s[..j], sep, k);
      assert s[..j][k..k + |sep|] == s[k..k + |sep|];
      assert MatchAt(s, sep, k);
    }
  }

  /** Searching for a one-character string is searching for that character. */
  lemma FindChar(s: string, c: char)
    ensures Find(s, [c]).Some? ==> var j := Find(s, [c]).value;
              j < |s| && s[j] == c && forall k :: 0 <= k < j ==> s[k] != c
    ensures Find(s, [c]).None? ==> c !in s
  {
    var f := Find(s, [c]);
    if f.Some? {
      MatchAtChar(s, c, f.value);
      forall k | 0 <= k < f.value
        ensures s[k] != c
      {
        MatchAtChar(s, c, k);
      }
    } else {
      forall k | 0 <= k < |s|
        ensures s[k] != c
      {
        MatchAtChar(s, c, k);
        assert k <= |s| - 1;
      }
    }
  }

  /** In `p + [c] + rest` with `c` not in `p`, the first `c` is the one after `p`. */
  lemma FindAfterFree(p: string, c: char, rest: string)
    requires c !in p
    ensures Find(p + [c] + rest, [c]) == Some(|p|)
  {
    var s := p + [c] + rest;
    FindChar(s, c);
    assert s[|p|] == c;
    assert forall k :: 0 <= k < |p| ==> s[k] == p[k];
  }

  /** A string without `c` splits at `c` into itself. */
  lemma SplitFree(s: string, c: char)
    requires c !in s
    ensures Split(s, [c]) == [s]
  {
    FindChar(s, c);
  }

  /** A `c`-free piece followed by `c` splits off as the first part. */
  lemma SplitAfter(p: string, c: char, rest: string)
    requires c !in p
    ensures Split(p + [c] + rest, [c]) == [p] + Split(rest, [c])
  {
    var s := p + [c] + rest;
    FindAfterFree(p, c, rest);
    assert s[..|p|] == p;
    assert s[|p| + 1..] == rest;
  }

  /** Splitting a join of `c`-free parts at `c` gives the parts back. */
  lemma {:induction false} JoinSingleChar(parts: seq<string>, c: char)
    requires |parts| >= 1
    requires forall i :: 0 <= i < |parts| ==> c !in parts[i]
    ensures Split(Join(parts, [c]), [c]) == parts
    decreases |parts|
  {
    if |parts| == 1 {
      SplitFree(parts[0], c);
    } else {
      var p, tail := parts[0], parts[1..];
      var rest := Join(tail, [c]);
      var s := p + [c] + rest;
      assert Join(parts, [c]) == s;
      FindAfterFree(p, c, rest);
      assert s[..|p|] == p;
      assert s[|p| + 1..] == rest;
      JoinSingleChar(tail, c);
      assert parts == [p] + tail;
    }
  }

  /** The text after the last `c` in `s` (all of `s` when `c` does not occur). */
  function AfterLast(s: string, c: char): (r: string)
    ensures c !in r
    ensures |r| <= |s| && r == s[|s| - |r|..]
    ensures |r| < |s| ==> s[|s| - |r| - 1] == c
  {
    match LastIndexOf(s, c)
    case None => s
    case Some(k) => s[k + 1..]
  }

  /** A `c`-free suffix that is all of `s` or follows a `c` is the text after the last `c`. */
  lemma AfterLastUnique(s: string, c: char, r: string)
    requires |r| <= |s| && r == s[|s| - |r|..] && c !in r
    requires |r| < |s| ==> s[|s| - |r| - 1] == c
    ensures r == AfterLast(s, c)
  {
  }

  lemma MatchAtChar(s: string, c: char, k: nat)
    ensures MatchAt(s, [c], k) <==> k < |s| && s[k] == c
  {
    if k < |s| {
      assert s[k..k + 1] == [s[k]];
    }
  }

  /** The last piece of `s.split(c)` is the text after the last `c`. */
  lemma {:induction false} SplitLastChar(s: string, c: char)
    ensures Split(s, [c])[|Split(s, [c])| - 1] == AfterLast(s, c)
    decreases |s|
  {
    FindChar(s, c);
    match Find(s, [c])
    case None =>
      assert Split(s, [c]) == [s];
      AfterLastUnique(s, c, s);
    case Some(j) =>
      var rest := s[j + 1..];
      assert Split(s, [c]) == [s[..j]] + Split(rest, [c]);
      SplitLastChar(rest, c);
      AfterLastAfterChar(s, c, j);
      LastOfCons(s[..j], Split(rest, [c]));
      assert AfterLast(rest, c) == AfterLast(s, c);
  }

  lemma LastOfCons<T>(x: T, t: seq<T>)
    requires |t| >= 1
    ensures ([x] + t)[|[x] + t| - 1] == t[|t| - 1]
  {
  }

  /** The text after the last `c` is the same after dropping a prefix that ends in a `c`. */
  lemma AfterLastAfterChar(s: string, c: char, j: nat)
    requires j < |s| && s[j] == c
    ensures AfterLast(s[j + 1..], c) == AfterLast(s, c)
  {
    var rest := s[j + 1..];
    var t := AfterLast(rest, c);
    assert |t| <= |rest| && t == rest[|rest| - |t|..] && c !in t;
    assert t == s[|s| - |t|..] by {
      assert rest[|rest| - |t|..] == s[|s| - |t|..];
    }
    assert |t| < |s| ==> s[|s| - |t| - 1] == c by {
      if |t| < |rest| {
        assert s[|s| - |t| - 1] == rest[|rest| - |t| - 1];
      }
    }
    AfterLastUnique(s, c, t);
  }

  /** The last piece of `s.split(c)` (Python `s.split(c)[-1]`, JavaScript `s.split(c).pop()`). */
  function LastPiece(s: string, c: char): (r: string)
    ensures r == AfterLast(s, c)
  {
    SplitLastChar(s, c);
    var parts := Split(s, [c]);
    parts[|parts| - 1]
  }

  // ---------------------------------------------------------------------
  // Whitespace trimming
  // ---------------------------------------------------------------------

  /** Characters removed by JavaScript `String.prototype.trim`. */
  predicate IsJsSpace(c: char)
  {
    c == ' ' || ('\t' <= c <= '\r') || c == '\U{00A0}' || c == '\U{FEFF}' || c == '\U{1680}'
    || ('\U{2000}' <= c <= '\U{200A}') || c == '\U{2028}' || c == '\U{2029}'
    || c == '\U{202F}' || c == '\U{205F}' || c == '\U{3000}'
  }

  /** Characters removed by Python `str.strip()` with no argument. */
  predicate IsPySpace(c: char)
  {
    c == ' ' || ('\t' <= c <= '\r') || ('\U{001C}' <= c <= '\U{001F}') || c == '\U{0085}'
    || c == '\U{00A0}' || c == '\U{1680}' || ('\U{2000}' <= c <= '\U{200A}')
    || c == '\U{2028}' || c == '\U{2029}' || c == '\U{202F}' || c == '\U{205F}' || c == '\U{3000}'
  }

  /** The two whitespace classes the system strips by. */
  datatype Whitespace = PythonSpace | JsSpace

  predicate IsSpace(w: Whitespace, c: char)
  {
    match w
    case PythonSpace => IsPySpace(c)
    case JsSpace => IsJsSpace(c)
  }

  /** `s` without its leading whitespace. */
  function TrimStart(s: string, w: Whitespace): string
    decreases |s|
  {
    if |s| > 0 && IsSpace(w, s[0]) then TrimStart(s[1..], w) else s
  }

  /** `s` without its trailing whitespace. */
  function TrimEnd(s: string, w: Whitespace): string
    decreases |s|
  {
    if |s| > 0 && IsSpace(w, s[|s| - 1]) then TrimEnd(s[..|s| - 1], w) else s
  }

  /** `s` without leading and trailing whitespace. */
  function Trim(s: string, w: Whitespace): string
  {
    TrimEnd(TrimStart(s, w), w)
  }

  /** Trimming the start leaves a suffix of `s`. */
  lemma {:induction false} TrimStartSuffix(s: string, w: Whitespace)
    ensures |TrimStart(s, w)| <= |s| && TrimStart(s, w) == s[|s| - |TrimStart(s, w)|..]
    decreases |s|
  {
    if |s| > 0 && IsSpace(w, s[0]) {
      TrimStartSuffix(s[1..], w);
    }
  }

  /** Trimming the end leaves a prefix of `s`. */
  lemma {:induction false} TrimEndPrefix(s: string, w: Whitespace)
    ensures |TrimEnd(s, w)| <= |s| && TrimEnd(s, w) == s[..|TrimEnd(s, w)|]
    decreases |s|
  {
    if |s| > 0 && IsSpace(w, s[|s| - 1]) {
      TrimEndPrefix(s[..|s| - 1], w);
    }
  }

  lemma {:induction false} TrimStartSpaces(s: string, w: Whitespace)
    ensures forall k :: 0 <= k < |s| - |TrimStart(s, w)| ==> IsSpace(w, s[k])
    ensures TrimStart(s, w) != "" ==> !IsSpace(w, TrimStart(s, w)[0])
    decreases |s|
  {
    TrimStartSuffix(s, w);
    if |s| > 0 && IsSpace(w, s[0]) {
      TrimStartSpaces(s[1..], w);
      assert forall k :: 1 <= k < |s| ==> s[k] == s[1..][k - 1];
    }
  }

  lemma {:induction false} TrimEndSpaces(s: string, w: Whitespace)
    ensures forall k :: |TrimEnd(s, w)| <= k < |s| ==> IsSpace(w, s[k])
    ensures TrimEnd(s, w) != "" ==> !IsSpace(w, TrimEnd(s, w)[|TrimEnd(s, w)| - 1])
    decreases |s|
  {
    TrimEndPrefix(s, w);
    if |s| > 0 && IsSpace(w, s[|s| - 1]) {
      TrimEndSpaces(s[..|s| - 1], w);
    }
  }

  /** The trimmed string is the piece of `s` after its leading whitespace. */
  lemma TrimPiece(s: string, w: Whitespace)
    ensures |TrimStart(s, w)| <= |s|
    ensures var a := |s| - |TrimStart(s, w)|;
            |TrimStart(s, w)| <= |s| && a + |Trim(s, w)| <= |s| && Trim(s, w) == s[a..a + |Trim(s, w)|]
  {
    var t := TrimStart(s, w);
    var r := TrimEnd(t, w);
    var a := |s| - |t|;
    TrimStartSuffix(s, w);
    TrimEndPrefix(t, w);
    calc {
      r;
      t[..|r|];
      s[a..][..|r|];
      s[a..a + |r|];
    }
  }

  /** Every character of the trimmed string is a character of `s`. */
  lemma TrimChars(s: string, w: Whitespace)
    ensures forall k :: 0 <= k < |Trim(s, w)| ==> Trim(s, w)[k] in s
  {
    var r := Trim(s, w);
    var a := |s| - |TrimStart(s, w)|;
    TrimPiece(s, w);
    forall k | 0 <= k < |r|
      ensures r[k] in s
    {
      assert r[k] == s[a + k];
    }
  }

  /** The trimmed string is empty iff `s` is all whitespace. */
  lemma TrimEmpty(s: string, w: Whitespace)
    ensures Trim(s, w) == "" <==> forall k :: 0 <= k < |s| ==> IsSpace(w, s[k])
  {
    var t := TrimStart(s, w);
    var a := |s| - |t|;
    TrimStartSuffix(s, w);
    TrimEndPrefix(t, w);
    TrimStartSpaces(s, w);
    TrimEndSpaces(t, w);
    if Trim(s, w) != "" && t != "" {
      assert !IsSpace(w, s[a]) by {
        assert s[a] == t[0];
      }
    }
  }

  /** A non-empty trimmed string starts and ends with a non-whitespace character. */
  lemma TrimEnds(s: string, w: Whitespace)
    ensures Trim(s, w) != "" ==> !IsSpace(w, Trim(s, w)[0]) && !IsSpace(w, Trim(s, w)[|Trim(s, w)| - 1])
  {
    var t := TrimStart(s, w);
    TrimStartSuffix(s, w);
    TrimEndPrefix(t, w);
    TrimStartSpaces(s, w);
    TrimEndSpaces(t, w);
    if Trim(s, w) != "" {
      assert Trim(s, w)[0] == t[0];
    }
  }

  /** JavaScript `s.trim()`. */
  function JsTrim(s: string): string { Trim(s, JsSpace) }

  /** Python `s.strip()`. */
  function PyStrip(s: string): string { Trim(s, PythonSpace) }

  // ---------------------------------------------------------------------
  // Decimal digits
  // ---------------------------------------------------------------------

  /** ASCII decimal digit (Python `isdigit` and the regex class `\d` on ASCII input). */
  predicate IsDigit(c: char)
  {
    '0' <= c <= '9'
  }

  predicate AllDigits(s: string)
  {
    forall k :: 0 <= k < |s| ==> IsDigit(s[k])
  }

  function DigitChar(d: nat): (c: char)
    requires d < 10
    ensures IsDigit(c) && (c as int) - ('0' as int) == d
  {
    (('0' as int) + d) as char
  }

  /** Decimal rendering of a natural number, as Python `str` and JavaScript templates print it. */
  function NatToString(n: nat): (s: string)
    ensures |s| >= 1 && AllDigits(s)
    ensures n < 10 <==> |s| == 1
    decreases n
  {
    if n < 10 then [DigitChar(n)] else NatToString(n / 10) + [DigitChar(n % 10)]
  }

  function IntToString(i: int): string
  {
    if i < 0 then "-" + NatToString(-i) else NatToString(i)
  }

  /** The value of a string of decimal digits (0 for the empty string). */
  function ParseNat(s: string): nat
    requires AllDigits(s)
  {
    if |s| == 0 then 0 else 10 * ParseNat(s[..|s| - 1]) + ((s[|s| - 1] as int) - ('0' as int))
  }

  lemma {:induction false} ParseNatToString(n: nat)
    ensures ParseNat(NatToString(n)) == n
    decreases n
  {
    if n >= 10 {
      ParseNatToString(n / 10);
      var s := NatToString(n);
      assert s[..|s| - 1] == NatToString(n / 10);
    }
  }

  lemma NatToStringInjective(m: nat, n: nat)
    requires NatToString(m) == NatToString(n)
    ensures m == n
  {
    ParseNatToString(m);
    ParseNatToString(n);
  }

  /** JavaScript `padStart(width, c)`. */
  function PadStart(s: string, width: nat, c: char): (r: string)
    ensures |r| == if |s| >= width then |s| else width
    ensures EndsWith(r, s)
    ensures forall k :: 0 <= k < |r| - |s| ==> r[k] == c
  {
    if |s| >= width then s else seq(width - |s|, _ => c) + s
  }

  // ---------------------------------------------------------------------
  // Arithmetic helpers
  // ---------------------------------------------------------------------

  function Sum(s: seq<int>): int
  {
    if |s| == 0 then 0 else Sum(s[..|s| - 1]) + s[|s| - 1]
  }

  lemma {:induction false} SumConcat(a: seq<int>, b: seq<int>)
    ensures Sum(a + b) == Sum(a) + Sum(b)
    decreases |b|
  {
    if |b| == 0 {
      assert a + b == a;
    } else {
      assert (a + b)[..|a + b| - 1] == a + b[..|b| - 1];
      assert (a + b)[|a + b| - 1] == b[|b| - 1];
      SumConcat(a, b[..|b| - 1]);
    }
  }

  lemma MulMono(x: int, y: int, b: nat)
    requires x <= y
    ensures x * b <= y * b
  {
  }

  /** Floor division brackets its numerator. */
  lemma DivBounds(a: nat, b: nat)
    requires b > 0
    ensures (a / b) * b <= a < (a / b + 1) * b
  {
  }

  /** The quotient and remainder of `q * n + r` by `n` are `q` and `r` when `0 <= r < n`. */
  lemma DivModUnique(k: int, n: int, q: int, r: int)
    requires n > 0 && 0 <= r < n && k == q * n + r
    ensures k / n == q && k % n == r
  {
    var q', r' := k / n, k % n;
    assert k == q' * n + r';
    if q' > q {
      MulMono(q + 1, q', n);
    } else if q' < q {
      MulMono(q' + 1, q, n);
    }
  }

  /** JavaScript's `x / d > m` on integers, for a positive divisor, is `x > m * d`. */
  lemma QuotientExceeds(x: int, d: nat, m: int)
    requires d >= 1
    ensures (x as real) / (d as real) > m as real <==> x > m * d
  {
    var q := (x as real) / (d as real);
    assert q * (d as real) == x as real;
    assert (m * d) as real == (m as real) * (d as real);
    if q > m as real {
      assert q * (d as real) > (m as real) * (d as real);
    } else {
      assert q * (d as real) <= (m as real) * (d as real);
    }
  }

  function Pow(b: nat, e: nat): (r: nat)
    ensures b >= 1 ==> r >= 1
  {
    if e == 0 then 1 else b * Pow(b, e - 1)
  }

  /** The factors 4, 16, ..., 4^n. */
  function PowersOfFour(n: nat): (r: seq<nat>)
    ensures |r| == n
  {
    if n == 0 then [] else PowersOfFour(n - 1) + [Pow(4, n)]
  }

  lemma {:induction false} PowersOfFourIndex(n: nat)
    ensures forall i :: 0 <= i < n ==> PowersOfFour(n)[i] == Pow(4, i + 1)
  {
    if n > 0 {
      PowersOfFourIndex(n - 1);
    }
  }

  /** ceil(a / b) for a non-negative numerator and positive divisor. */
  function CeilDiv(a: nat, b: nat): (r: nat)
    requires b > 0
    ensures r * b >= a && (r == 0 || (r - 1) * b < a)
  {
    (a + b - 1) / b
  }

  /** Math.ceil / math.ceil on a real. */
  function Ceil(x: real): (r: int)
    ensures r as real >= x && (r - 1) as real < x
  {
    -((-x).Floor)
  }

  function Max(a: int, b: int): int { if a >= b then a else b }

  function Min(a: int, b: int): int { if a <= b then a else b }

  // ---------------------------------------------------------------------
  // JavaScript `Array.prototype.slice(start, end)`
  // ---------------------------------------------------------------------

  /** Index normalisation of `slice`: negative counts from the end, then clamp to [0, len]. */
  function SliceIndex(i: int, len: nat): (r: nat)
    ensures r <= len
  {
    if i < 0 then (if len + i < 0 then 0 else len + i) else if i > len then len else i
  }

  function JsSlice<T>(s: seq<T>, start: int, end: int): (r: seq<T>)
    ensures |r| <= |s|
    ensures 0 <= start <= end <= |s| ==> r == s[start..end]
  {
    var a := SliceIndex(start, |s|);
    var b := SliceIndex(end, |s|);
    if a >= b then [] else s[a..b]
  }

  // ---------------------------------------------------------------------
  // Stable sort by an integer key, largest key first
  // (Python `sorted(..., key=k, reverse=True)`, JavaScript `sort((a, b) => k(b) - k(a))`)
  // ---------------------------------------------------------------------

  predicate SortedDesc<T>(s: seq<T>, key: T -> int)
  {
    forall i, j :: 0 <= i < j < |s| ==> key(s[i]) >= key(s[j])
  }

  /** Places `x` before the first element whose key is not larger, so earlier equal keys stay first. */
  function InsertDesc<T>(x: T, s: seq<T>, key: T -> int): (r: seq<T>)
    ensures |r| == |s| + 1
  {
    if |s| == 0 || key(s[0]) <= key(x) then [x] + s else [s[0]] + InsertDesc(x, s[1..], key)
  }

  function SortDesc<T>(s: seq<T>, key: T -> int): (r: seq<T>)
    ensures |r| == |s|
  {
    if |s| == 0 then [] else InsertDesc(s[0], SortDesc(s[1..], key), key)
  }

  lemma {:induction false} InsertDescPerm<T>(x: T, s: seq<T>, key: T -> int)
    ensures multiset(InsertDesc(x, s, key)) == multiset(s) + multiset{x}
    decreases |s|
  {
    if |s| > 0 && key(s[0]) > key(x) {
      InsertDescPerm(x, s[1..], key);
      assert s == [s[0]] + s[1..];
    }
  }

  lemma {:induction false} InsertDescBound<T>(x: T, s: seq<T>, key: T -> int, v: int)
    requires key(x) <= v && forall i :: 0 <= i < |s| ==> key(s[i]) <= v
    ensures forall i :: 0 <= i < |s| + 1 ==> key(InsertDesc(x, s, key)[i]) <= v
    decreases |s|
  {
    if |s| > 0 && key(s[0]) > key(x) {
      InsertDescBound(x, s[1..], key, v);
    }
  }

  lemma {:induction false} InsertDescSorted<T>(x: T, s: seq<T>, key: T -> int)
    requires SortedDesc(s, key)
    ensures SortedDesc(InsertDesc(x, s, key), key)
    decreases |s|
  {
    if |s| > 0 && key(s[0]) > key(x) {
      InsertDescSorted(x, s[1..], key);
      InsertDescBound(x, s[1..], key, key(s[0]));
    }
  }

  lemma {:induction false} SortDescCorrect<T>(s: seq<T>, key: T -> int)
    ensures SortedDesc(SortDesc(s, key), key)
    ensures multiset(SortDesc(s, key)) == multiset(s)
    decreases |s|
  {
    if |s| > 0 {
      SortDescCorrect(s[1..], key);
      InsertDescSorted(s[0], SortDesc(s[1..], key), key);
      InsertDescPerm(s[0], SortDesc(s[1..], key), key);
      assert s == [s[0]] + s[1..];
    }
  }

  /** The elements of `s` whose key is `v`, in their order in `s`. */
  function WithKey<T>(s: seq<T>, key: T -> int, v: int): (r: seq<T>)
    ensures |r| <= |s|
  {
    if |s| == 0 then [] else (if key(s[0]) == v then [s[0]] else []) + WithKey(s[1..], key, v)
  }

  /** Inserting `x` puts it in front of every element with the same key. */
  lemma {:induction false} InsertDescStable<T>(x: T, s: seq<T>, key: T -> int, v: int)
    ensures WithKey(InsertDesc(x, s, key), key, v) == (if key(x) == v then [x] else []) + WithKey(s, key, v)
    decreases |s|
  {
    var r := InsertDesc(x, s, key);
    var front := if key(x) == v then [x] else [];
    if |s| == 0 || key(s[0]) <= key(x) {
      assert r == [x] + s;
      assert r[0] == x && r[1..] == s;
      assert WithKey(r, key, v) == front + WithKey(s, key, v);
    } else {
      var rest := InsertDesc(x, s[1..], key);
      assert r == [s[0]] + rest;
      assert r[0] == s[0] && r[1..] == rest;
      var head := if key(s[0]) == v then [s[0]] else [];
      assert WithKey(r, key, v) == head + WithKey(rest, key, v);
      assert WithKey(s, key, v) == head + WithKey(s[1..], key, v);
      InsertDescStable(x, s[1..], key, v);
      if key(x) == v {
        assert head == [];
      } else {
        assert front == [];
      }
    }
  }

  /**
   * The sort is stable: the elements sharing any one key come out in the
   * order they went in.
   */
  lemma {:induction false} SortDescStable<T>(s: seq<T>, key: T -> int, v: int)
    ensures WithKey(SortDesc(s, key), key, v) == WithKey(s, key, v)
    decreases |s|
  {
    if |s| > 0 {
      SortDescStable(s[1..], key, v);
      InsertDescStable(s[0], SortDesc(s[1..], key), key, v);
    }
  }
}
