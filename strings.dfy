/**
 * The parts of Ruby's String behaviour that the journal code relies on:
 * `strip`, `to_i`, `Integer#to_s`, `sub` with a literal pattern, `split(/\./)`,
 * `Array#join`, `format("%Ns")`, `File.join` of two parts, `IO#puts`, and the
 * meaning of the line anchors `^` and `$` in Ruby regular expressions.
 */
module Strings {
  import opened Wrappers

  // ---------------------------------------------------------------------------
  // Whitespace and strip

  /** The characters `to_i` skips before a number. */
  predicate IsAsciiSpace(c: char) {
    c == ' ' || c == '\t' || c == '\n' || c == '\U{0B}' || c == '\U{0C}' || c == '\r'
  }

  /** The characters `strip` removes at either end (whitespace and NUL). */
  predicate IsSpace(c: char) {
    IsAsciiSpace(c) || c == '\0'
  }

  function StripLeft(s: string): string {
    if s != [] && IsSpace(s[0]) then StripLeft(s[1..]) else s
  }

  function StripRight(s: string): string {
    if s != [] && IsSpace(s[|s| - 1]) then StripRight(s[..|s| - 1]) else s
  }

  /** `lstrip` drops the leading whitespace and nothing else. */
  lemma {:induction false} StripLeftSpec(s: string)
    ensures |StripLeft(s)| <= |s| && StripLeft(s) == s[|s| - |StripLeft(s)|..]
    ensures StripLeft(s) == [] || !IsSpace(StripLeft(s)[0])
    ensures forall i :: 0 <= i < |s| - |StripLeft(s)| ==> IsSpace(s[i])
  {
    if s != [] && IsSpace(s[0]) {
      var t := s[1..];
      StripLeftSpec(t);
      var r := StripLeft(t);
      assert StripLeft(s) == r;
      assert r == s[|s| - |r|..] by {
        assert t[|t| - |r|..] == s[|s| - |r|..];
      }
      forall i | 0 <= i < |s| - |r| ensures IsSpace(s[i]) {
        if i > 0 {
          assert s[i] == t[i - 1];
        }
      }
    }
  }

  /** `rstrip` drops the trailing whitespace and nothing else. */
  lemma {:induction false} StripRightSpec(s: string)
    ensures |StripRight(s)| <= |s| && StripRight(s) == s[..|StripRight(s)|]
    ensures StripRight(s) == [] || !IsSpace(StripRight(s)[|StripRight(s)| - 1])
    ensures forall i :: |StripRight(s)| <= i < |s| ==> IsSpace(s[i])
  {
    if s != [] && IsSpace(s[|s| - 1]) {
      var t := s[..|s| - 1];
      StripRightSpec(t);
      var r := StripRight(t);
      assert StripRight(s) == r;
      assert r == s[..|r|] by {
        assert t[..|r|] == s[..|r|];
      }
      forall i | |r| <= i < |s| ensures IsSpace(s[i]) {
        if i < |s| - 1 {
          assert s[i] == t[i];
        }
      }
    }
  }

  /** Ruby `String#strip`. */
  function Strip(s: string): string {
    StripRight(StripLeft(s))
  }

  /**
   * `strip` keeps a contiguous part of `s` that neither starts nor ends with
   * whitespace, and everything it drops before or after it is whitespace.
   */
  lemma StripSpec(s: string) returns (i: nat)
    ensures i + |Strip(s)| <= |s| && Strip(s) == s[i..i + |Strip(s)|]
    ensures Strip(s) == [] || (!IsSpace(Strip(s)[0]) && !IsSpace(Strip(s)[|Strip(s)| - 1]))
    ensures forall j :: 0 <= j < i ==> IsSpace(s[j])
    ensures forall j :: i + |Strip(s)| <= j < |s| ==> IsSpace(s[j])
  {
    var l := StripLeft(s);
    StripLeftSpec(s);
    StripRightSpec(l);
    i := |s| - |l|;
    var r := Strip(s);
    assert r == l[..|r|];
    forall j | i + |r| <= j < |s| ensures IsSpace(s[j]) {
      assert s[j] == l[j - i];
    }
  }

  /** `s.strip.empty?` holds exactly when every character of `s` is whitespace. */
  lemma StripEmptyIff(s: string)
    ensures Strip(s) == [] <==> forall i :: 0 <= i < |s| ==> IsSpace(s[i])
  {
    var i := StripSpec(s);
    if Strip(s) != [] {
      assert Strip(s)[0] == s[i];
    }
  }

  /** Stripping twice is stripping once. */
  lemma StripIdempotent(s: string)
    ensures Strip(Strip(s)) == Strip(s)
  {
    var r := Strip(s);
    var _ := StripSpec(s);
    if r != [] {
      assert StripLeft(r) == r;
      assert StripRight(r) == r;
    }
  }

  // ---------------------------------------------------------------------------
  // Line anchors of Ruby regular expressions

  /** `^` matches at the start of the string and after every newline that is not the last character. */
  predicate LineStart(s: string, p: int) {
    p == 0 || (0 < p < |s| && s[p - 1] == '\n')
  }

  /** `$` matches at the end of the string and before every newline. */
  predicate LineEnd(s: string, p: int) {
    0 <= p <= |s| && (p == |s| || s[p] == '\n')
  }

  /** ASCII case folding, as the `/i` flag applies it to the patterns used here. */
  function Fold(c: char, ci: bool): char {
    if ci && 'A' <= c <= 'Z' then (c as int + 32) as char else c
  }

  /** `w` occurs in `s` at position `p` (case-insensitively when `ci`). */
  predicate PrefixAt(s: string, p: int, w: string, ci: bool) {
    0 <= p && p + |w| <= |s| && forall i :: 0 <= i < |w| ==> Fold(s[p + i], ci) == Fold(w[i], ci)
  }

  /** `s =~ /^w/` (with `/i` when `ci`). */
  predicate StartsLine(s: string, w: string, ci: bool) {
    exists p :: 0 <= p <= |s| && LineStart(s, p) && PrefixAt(s, p, w, ci)
  }

  /** `s =~ /w$/`. */
  predicate EndsLine(s: string, w: string) {
    exists p :: 0 <= p <= |s| && PrefixAt(s, p, w, false) && LineEnd(s, p + |w|)
  }

  /** Without case folding, `w` occurs at `p` exactly when the slice there is `w`. */
  lemma PrefixExact(s: string, p: nat, w: string)
    ensures PrefixAt(s, p, w, false) <==> p + |w| <= |s| && s[p..p + |w|] == w
  {
    if p + |w| <= |s| {
      forall i | 0 <= i < |w| ensures Fold(s[p + i], false) == s[p..p + |w|][i] && Fold(w[i], false) == w[i] {
      }
    }
  }

  /** In a string without newlines `^` matches only at the start. */
  lemma StartsLineSingle(s: string, w: string, ci: bool)
    requires '\n' !in s
    ensures StartsLine(s, w, ci) <==> PrefixAt(s, 0, w, ci)
  {
    if StartsLine(s, w, ci) {
      var p :| 0 <= p <= |s| && LineStart(s, p) && PrefixAt(s, p, w, ci);
      assert forall i :: 0 <= i < |s| ==> s[i] != '\n';
    } else {
      assert LineStart(s, 0);
    }
  }

  /** A string that begins with `w` (after folding) matches `/^w/`. */
  lemma StartsLineAtZero(s: string, w: string, ci: bool)
    requires |w| <= |s| && forall i :: 0 <= i < |w| ==> Fold(s[i], ci) == Fold(w[i], ci)
    ensures StartsLine(s, w, ci)
  {
    assert LineStart(s, 0) && PrefixAt(s, 0, w, ci);
  }

  /** A one-line string whose first character differs from the pattern's (after folding) does not match `/^w/`. */
  lemma StartsLineHeadDiffers(s: string, w: string, ci: bool)
    requires '\n' !in s && |s| >= 1 && |w| >= 1 && Fold(s[0], ci) != Fold(w[0], ci)
    ensures !StartsLine(s, w, ci)
  {
    StartsLineSingle(s, w, ci);
  }

  /** The string with its ASCII capitals turned into small letters. */
  function Lower(s: string): (r: string)
    ensures |r| == |s| && forall i :: 0 <= i < |s| ==> r[i] == Fold(s[i], true)
  {
    if s == [] then [] else [Fold(s[0], true)] + Lower(s[1..])
  }

  /** A pattern without capitals matches under `/i` exactly when it matches the lowered string without it. */
  lemma StartsLineLower(s: string, w: string)
    requires forall i :: 0 <= i < |w| ==> Fold(w[i], true) == w[i]
    ensures StartsLine(s, w, true) <==> StartsLine(Lower(s), w, false)
  {
    var l := Lower(s);
    forall p | 0 <= p <= |s|
      ensures LineStart(s, p) == LineStart(l, p)
      ensures PrefixAt(s, p, w, true) == PrefixAt(l, p, w, false)
    {
      if 0 < p < |s| {
        assert s[p - 1] == '\n' <==> l[p - 1] == '\n';
      }
    }
    if StartsLine(s, w, true) {
      var p :| 0 <= p <= |s| && LineStart(s, p) && PrefixAt(s, p, w, true);
      assert LineStart(l, p) && PrefixAt(l, p, w, false);
    }
    if StartsLine(l, w, false) {
      var p :| 0 <= p <= |l| && LineStart(l, p) && PrefixAt(l, p, w, false);
      assert LineStart(s, p) && PrefixAt(s, p, w, true);
    }
  }

  predicate AllSpaces(s: string, p: int, q: int)
    requires 0 <= p <= q <= |s|
  {
    forall i :: p <= i < q ==> s[i] == ' '
  }

  /** `s =~ /^ *$/`: some line of `s` consists of spaces only. */
  predicate SpacesOnlyLine(s: string) {
    exists p, q :: 0 <= p <= q <= |s| && LineStart(s, p) && AllSpaces(s, p, q) && LineEnd(s, q)
  }

  /** A string holding no newline is "spaces-only" exactly when it holds nothing but spaces. */
  lemma SpacesOnlySingleLine(s: string)
    requires '\n' !in s
    ensures SpacesOnlyLine(s) <==> forall i :: 0 <= i < |s| ==> s[i] == ' '
  {
    if SpacesOnlyLine(s) {
      var p, q :| 0 <= p <= q <= |s| && LineStart(s, p) && AllSpaces(s, p, q) && LineEnd(s, q);
      assert forall i :: 0 <= i < |s| ==> s[i] != '\n';
      assert p == 0 && q == |s|;
    } else {
      if forall i :: 0 <= i < |s| ==> s[i] == ' ' {
        assert LineStart(s, 0) && AllSpaces(s, 0, |s|) && LineEnd(s, |s|);
      }
    }
  }

  // ---------------------------------------------------------------------------
  // Joining and padding

  /** Ruby `Array#join(sep)` on strings. */
  function JoinWith(pieces: seq<string>, sep: string): (r: string)
    ensures pieces == [] ==> r == []
    ensures |pieces| == 1 ==> r == pieces[0]
  {
    if pieces == [] then []
    else if |pieces| == 1 then pieces[0]
    else pieces[0] + sep + JoinWith(pieces[1..], sep)
  }

  /** `c * n`. */
  function Repeat(c: char, n: nat): (r: string)
    ensures |r| == n
  {
    if n == 0 then [] else [c] + Repeat(c, n - 1)
  }

  /** `c * n` consists of `n` copies of `c`. */
  lemma {:induction false} RepeatChars(c: char, n: nat)
    ensures forall i :: 0 <= i < n ==> Repeat(c, n)[i] == c
  {
    if n > 0 {
      RepeatChars(c, n - 1);
      assert forall i :: 1 <= i < n ==> Repeat(c, n)[i] == Repeat(c, n - 1)[i - 1];
    }
  }

  /** `format("%Ns", s)`: right-aligned in a field of width `w`, never truncated. */
  function PadLeft(s: string, w: int): (r: string)
    ensures |r| == if |s| >= w then |s| else w
  {
    if |s| >= w then s else Repeat(' ', w - |s|) + s
  }

  /** The padded string ends with `s` and is spaces before it. */
  lemma PadLeftShape(s: string, w: int)
    ensures var r := PadLeft(s, w);
      && r[|r| - |s|..] == s
      && forall i :: 0 <= i < |r| - |s| ==> r[i] == ' '
  {
    if |s| < w {
      var pad := Repeat(' ', w - |s|);
      RepeatChars(' ', w - |s|);
      assert (pad + s)[|pad|..] == s;
      assert forall i :: 0 <= i < |pad| ==> (pad + s)[i] == pad[i];
    }
  }

  /** `IO#puts(s)`: writes `s` and a newline unless `s` already ends with one. */
  function Puts(s: string): (r: string)
    ensures |r| > 0 && r[|r| - 1] == '\n'
    ensures r == s || r == s + "\n"
  {
    if s != [] && s[|s| - 1] == '\n' then s else s + "\n"
  }

  /** `s` without its trailing slashes. */
  function TrimTrailingSlash(s: string): (r: string)
    ensures r <= s && (r == [] || r[|r| - 1] != '/')
    ensures forall i :: |r| <= i < |s| ==> s[i] == '/'
  {
    if s != [] && s[|s| - 1] == '/' then TrimTrailingSlash(s[..|s| - 1]) else s
  }

  /**
   * `File.join(a, b)` of two strings. `b` is kept whole. When it begins with
   * a slash, the trailing slashes of `a` are dropped; otherwise a slash is put
   * between the two unless `a` already ends with one.
   */
  function FileJoin(a: string, b: string): (r: string)
    ensures |r| >= |b| && r[|r| - |b|..] == b
    ensures b != [] && b[0] == '/' ==> r[..|r| - |b|] == TrimTrailingSlash(a)
    ensures !(b != [] && b[0] == '/') ==> r[..|r| - |b|] == if a != [] && a[|a| - 1] == '/' then a else a + "/"
  {
    if b != [] && b[0] == '/' then TrimTrailingSlash(a) + b
    else if a != [] && a[|a| - 1] == '/' then a + b
    else a + "/" + b
  }

  // ---------------------------------------------------------------------------
  // Searching and substitution

  /** The first position at or after `from` where `w` occurs. */
  function FindFrom(s: string, w: string, from: nat): (r: Option<nat>)
    requires from <= |s| + 1
    ensures r.Some? ==> from <= r.value && PrefixAt(s, r.value, w, false)
    ensures r.Some? ==> forall j :: from <= j < r.value ==> !PrefixAt(s, j, w, false)
    ensures r.None? ==> forall j :: from <= j ==> !PrefixAt(s, j, w, false)
    decreases |s| + 1 - from
  {
    if from + |w| > |s| then None
    else if PrefixAt(s, from, w, false) then Some(from)
    else FindFrom(s, w, from + 1)
  }

  /** Ruby `s.sub(w, rep)` for a literal pattern `w`: only the first occurrence is replaced. */
  function SubFirst(s: string, w: string, rep: string): (r: string)
  {
    match FindFrom(s, w, 0)
    case None => s
    case Some(k) => s[..k] + rep + s[k + |w|..]
  }

  // ---------------------------------------------------------------------------
  // split(/\./)

  /** The fields of `s` between dots, empty fields included. */
  function SplitRaw(s: string): (r: seq<string>)
    ensures |r| >= 1
    ensures forall i :: 0 <= i < |r| ==> '.' !in r[i]
  {
    if s == [] then [[]]
    else if s[0] == '.' then [[]] + SplitRaw(s[1..])
    else
      var t := SplitRaw(s[1..]);
      [[s[0]] + t[0]] + t[1..]
  }

  /** Joining the fields with dots gives the string back. */
  lemma {:induction false} SplitRawJoin(s: string)
    ensures JoinWith(SplitRaw(s), ".") == s
  {
    if s == [] {
    } else if s[0] == '.' {
      SplitRawJoin(s[1..]);
    } else {
      var t := SplitRaw(s[1..]);
      SplitRawJoin(s[1..]);
      if |t| == 1 {
        assert SplitRaw(s) == [[s[0]] + t[0]];
      } else {
        assert SplitRaw(s)[1..] == t[1..];
      }
    }
  }

  function DropTrailingEmpty(fs: seq<string>): (r: seq<string>)
    ensures r <= fs
    ensures r == [] || r[|r| - 1] != []
    ensures forall i :: |r| <= i < |fs| ==> fs[i] == []
  {
    if fs != [] && fs[|fs| - 1] == [] then DropTrailingEmpty(fs[..|fs| - 1]) else fs
  }

  /** Ruby `s.split(/\./)`: the fields between dots, trailing empty fields removed. */
  function SplitDots(s: string): (r: seq<string>)
    ensures forall i :: 0 <= i < |r| ==> '.' !in r[i]
    ensures r == [] || r[|r| - 1] != []
  {
    DropTrailingEmpty(SplitRaw(s))
  }

  lemma {:induction false} SplitRawNoDot(s: string)
    requires '.' !in s
    ensures SplitRaw(s) == [s]
  {
    if s != [] {
      assert s == [s[0]] + s[1..];
      SplitRawNoDot(s[1..]);
    }
  }

  /** A dotted key `a.b` splits into its two segments. */
  lemma SplitDotsPair(a: string, b: string)
    requires '.' !in a && '.' !in b && b != []
    ensures SplitDots(a + "." + b) == [a, b]
  {
    assert a + "." + b == a + ("." + b);
    SplitRawPrefix(a, "." + b);
    SplitRawNoDot(b);
    assert ("." + b)[1..] == b;
    assert SplitRaw(a + "." + b) == [a, b];
  }

  lemma {:induction false} SplitRawPrefix(a: string, rest: string)
    requires '.' !in a && rest != [] && rest[0] == '.'
    ensures SplitRaw(a + rest) == [a] + SplitRaw(rest[1..])
  {
    if a == [] {
      assert a + rest == rest;
    } else {
      assert (a + rest)[1..] == a[1..] + rest;
      assert a == [a[0]] + a[1..];
      SplitRawPrefix(a[1..], rest);
      assert [a[0]] + a[1..] == a;
    }
  }

  // ---------------------------------------------------------------------------
  // Integers: Integer#to_s and String#to_i

  predicate IsDigit(c: char) { '0' <= c <= '9' }

  function DigitChar(d: int): char
    requires 0 <= d < 10
  {
    ('0' as int + d) as char
  }

  function NatToString(n: nat): (r: string)
    ensures |r| >= 1 && forall i :: 0 <= i < |r| ==> IsDigit(r[i])
  {
    if n < 10 then [DigitChar(n)] else NatToString(n / 10) + [DigitChar(n % 10)]
  }

  /** Ruby `Integer#to_s`. */
  function IntToString(n: int): (r: string)
    ensures |r| >= 1
  {
    if n < 0 then "-" + NatToString(-n) else NatToString(n)
  }

  /**
   * The value of the number that starts `t`, accumulated onto `acc`; a single
   * underscore between two digits is skipped, as `to_i` does.
   */
  function ParseDigits(t: string, acc: int): int {
    if t != [] && IsDigit(t[0]) then
      var next := acc * 10 + (t[0] as int - '0' as int);
      if |t| >= 3 && t[1] == '_' && IsDigit(t[2]) then ParseDigits(t[2..], next)
      else ParseDigits(t[1..], next)
    else acc
  }

  function SkipAsciiSpace(s: string): string {
    if s != [] && IsAsciiSpace(s[0]) then SkipAsciiSpace(s[1..]) else s
  }

  /** Ruby `String#to_i`: leading whitespace, a sign, then digits; no digits gives 0. */
  function ToI(s: string): int {
    var t := SkipAsciiSpace(s);
    if t != [] && t[0] == '-' then -ParseDigits(t[1..], 0)
    else if t != [] && t[0] == '+' then ParseDigits(t[1..], 0)
    else ParseDigits(t, 0)
  }

  lemma {:induction false} ParseDigitsSnoc(x: string, c: char, acc: int)
    requires forall i :: 0 <= i < |x| ==> IsDigit(x[i])
    requires IsDigit(c)
    ensures ParseDigits(x + [c], acc) == ParseDigits(x, acc) * 10 + (c as int - '0' as int)
  {
    if x == [] {
      assert x + [c] == [c] && [c][1..] == [];
    } else {
      var next := acc * 10 + (x[0] as int - '0' as int);
      assert (x + [c])[1..] == x[1..] + [c];
      assert IsDigit((x + [c])[1]);
      ParseDigitsSnoc(x[1..], c, next);
    }
  }

  lemma {:induction false} ParseNatToString(n: nat)
    ensures ParseDigits(NatToString(n), 0) == n
  {
    if n < 10 {
      assert [DigitChar(n)][1..] == [];
    } else {
      ParseNatToString(n / 10);
      ParseDigitsSnoc(NatToString(n / 10), DigitChar(n % 10), 0);
    }
  }

  /** `n.to_s.to_i == n` for every integer. */
  lemma ToIIntToString(n: int)
    ensures ToI(IntToString(n)) == n
  {
    if n < 0 {
      ParseNatToString(-n);
      assert ("-" + NatToString(-n))[1..] == NatToString(-n);
    } else {
      ParseNatToString(n);
    }
  }
}
