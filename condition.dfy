/**
 * `String#parse_condition`: a comparator, at least one space and a time of
 * day at the end of a line, compared with the reference instant. The regular
 * expression is matched by a deterministic scanner whose result is proved to
 * agree with the pattern; Chronic is a parameter returning a minute of the day.
 */
module StringCondition {
  import opened Wrappers
  import opened Strings
  import opened Clock

  // ---------------------------------------------------------------------------
  // The pattern /(?<comp>[<>=]{1,2}|before|after) +(?<time>(?:noon|midnight|[0-9]+) *(?:am|pm)?)$/i

  predicate IsComparatorChar(c: char) {
    c == '<' || c == '>' || c == '='
  }

  predicate IsBefore(w: string) {
    |w| == 6 && PrefixAt(w, 0, "before", true)
  }

  predicate IsAfter(w: string) {
    |w| == 5 && PrefixAt(w, 0, "after", true)
  }

  /** The words the `comp` group accepts. */
  predicate IsComp(w: string) {
    || (1 <= |w| <= 2 && forall i :: 0 <= i < |w| ==> IsComparatorChar(w[i]))
    || IsBefore(w)
    || IsAfter(w)
  }

  /** The words the time alternative `noon|midnight|[0-9]+` accepts. */
  predicate IsTimeWord(w: string) {
    || (|w| == 4 && PrefixAt(w, 0, "noon", true))
    || (|w| == 8 && PrefixAt(w, 0, "midnight", true))
    || (|w| >= 1 && forall i :: 0 <= i < |w| ==> IsDigit(w[i]))
  }

  predicate IsMeridiem(w: string) {
    w == [] || (|w| == 2 && (PrefixAt(w, 0, "am", true) || PrefixAt(w, 0, "pm", true)))
  }

  predicate Spaces(w: string) {
    forall i :: 0 <= i < |w| ==> w[i] == ' '
  }

  /**
   * The pattern matches `s` from `p`: comp is `s[p..q]`, the spaces `s[q..r]`,
   * the time word `s[r..t]`, then spaces `s[t..u]` and the meridiem `s[u..e]`,
   * with a line end at `e`. The time capture is `s[r..e]`.
   */
  predicate MatchesAt(s: string, p: nat, q: nat, r: nat, t: nat, u: nat, e: nat) {
    && p < q < r <= t <= u <= e <= |s|
    && IsComp(s[p..q])
    && Spaces(s[q..r])
    && IsTimeWord(s[r..t])
    && Spaces(s[t..u])
    && IsMeridiem(s[u..e])
    && LineEnd(s, e)
  }

  // ---------------------------------------------------------------------------
  // The scanner

  /** The end of the longest run of spaces starting at `i`. */
  function SpacesEnd(s: string, i: nat): (j: nat)
    requires i <= |s|
    ensures i <= j <= |s| && Spaces(s[i..j]) && (j == |s| || s[j] != ' ')
    decreases |s| - i
  {
    if i < |s| && s[i] == ' ' then SpacesEnd(s, i + 1) else i
  }

  /** The end of the longest run of digits starting at `i`. */
  function DigitsEnd(s: string, i: nat): (j: nat)
    requires i <= |s|
    ensures i <= j <= |s| && (forall k :: i <= k < j ==> IsDigit(s[k])) && (j == |s| || !IsDigit(s[j]))
    decreases |s| - i
  {
    if i < |s| && IsDigit(s[i]) then DigitsEnd(s, i + 1) else i
  }

  /** Where `comp` ends when it starts at `p`; the two-character form is preferred. */
  function CompEnd(s: string, p: nat): (r: Option<nat>)
    ensures r.Some? ==> p < r.value <= |s| && IsComp(s[p..r.value])
  {
    if p < |s| && IsComparatorChar(s[p]) then
      Some(if p + 1 < |s| && IsComparatorChar(s[p + 1]) then p + 2 else p + 1)
    else if PrefixAt(s, p, "before", true) then Some(p + 6)
    else if PrefixAt(s, p, "after", true) then Some(p + 5)
    else None
  }

  /** Where the time word ends when it starts at `r`. */
  function TimeEnd(s: string, r: nat): (t: Option<nat>)
    requires r <= |s|
    ensures t.Some? ==> r < t.value <= |s| && IsTimeWord(s[r..t.value])
  {
    if PrefixAt(s, r, "noon", true) then Some(r + 4)
    else if PrefixAt(s, r, "midnight", true) then Some(r + 8)
    else if r < |s| && IsDigit(s[r]) then Some(DigitsEnd(s, r))
    else None
  }

  datatype Ends = Ends(q: nat, r: nat, t: nat, u: nat, e: nat)

  /** The group boundaries of the match starting at `p`, if there is one. */
  function MatchEnds(s: string, p: nat): (m: Option<Ends>)
    ensures m.Some? ==> MatchesAt(s, p, m.value.q, m.value.r, m.value.t, m.value.u, m.value.e)
  {
    match CompEnd(s, p)
    case None => None
    case Some(q) =>
      var r := SpacesEnd(s, q);
      if r == q then None else
      match TimeEnd(s, r)
      case None => None
      case Some(t) =>
        var u := SpacesEnd(s, t);
        if (PrefixAt(s, u, "am", true) || PrefixAt(s, u, "pm", true)) && LineEnd(s, u + 2) then
          Some(Ends(q, r, t, u, u + 2))
        else if LineEnd(s, u) then Some(Ends(q, r, t, u, u))
        else None
  }

  /** The named captures of a match. */
  datatype Captures = Captures(comp: string, time: string)

  /** The leftmost match at or after `from`, as `String#match` finds it. */
  function FindMatch(s: string, from: nat): (r: Option<Captures>)
    decreases |s| + 1 - from
  {
    if from > |s| then None
    else match MatchEnds(s, from)
      case Some(z) => Some(Captures(s[from..z.q], s[z.r..z.e]))
      case None => FindMatch(s, from + 1)
  }

  // ---------------------------------------------------------------------------
  // The scanner finds exactly the matches of the pattern

  lemma {:induction false} SpacesEndExact(s: string, i: nat, j: nat)
    requires i <= j <= |s| && Spaces(s[i..j]) && (j == |s| || s[j] != ' ')
    ensures SpacesEnd(s, i) == j
    decreases j - i
  {
    if i < j {
      assert s[i] == s[i..j][0];
      assert s[i + 1..j] == s[i..j][1..];
      SpacesEndExact(s, i + 1, j);
    }
  }

  lemma {:induction false} DigitsEndExact(s: string, i: nat, j: nat)
    requires i <= j <= |s| && (forall k :: i <= k < j ==> IsDigit(s[k])) && (j == |s| || !IsDigit(s[j]))
    ensures DigitsEnd(s, i) == j
    decreases j - i
  {
    if i < j {
      DigitsEndExact(s, i + 1, j);
    }
  }

  lemma PrefixHead(s: string, p: int, w: string, ci: bool)
    requires PrefixAt(s, p, w, ci) && |w| > 0
    ensures Fold(s[p], ci) == Fold(w[0], ci)
  {
    assert Fold(s[p + 0], ci) == Fold(w[0], ci);
  }

  lemma HeadDiffers(s: string, p: int, w: string, ci: bool)
    requires 0 <= p < |s| && |w| > 0 && Fold(s[p], ci) != Fold(w[0], ci)
    ensures !PrefixAt(s, p, w, ci)
  {
  }

  lemma MeridiemHead(m: string)
    requires IsMeridiem(m) && m != []
    ensures m[0] != ' ' && m[0] != '\n' && !IsDigit(m[0])
  {
    if PrefixAt(m, 0, "am", true) {
      PrefixHead(m, 0, "am", true);
    } else {
      PrefixHead(m, 0, "pm", true);
    }
  }

  lemma TimeWordHead(w: string)
    requires IsTimeWord(w)
    ensures w[0] != ' '
  {
    if |w| == 4 && PrefixAt(w, 0, "noon", true) {
      PrefixHead(w, 0, "noon", true);
    } else if |w| == 8 && PrefixAt(w, 0, "midnight", true) {
      PrefixHead(w, 0, "midnight", true);
    }
  }

  lemma CompEndExact(s: string, p: nat, q: nat)
    requires p < q < |s| && IsComp(s[p..q]) && s[q] == ' '
    ensures CompEnd(s, p) == Some(q)
  {
    var w := s[p..q];
    assert w[0] == s[p];
    if IsBefore(w) {
      PrefixHead(w, 0, "before", true);
      assert PrefixAt(s, p, "before", true) by {
        forall i | 0 <= i < 6 ensures Fold(s[p + i], true) == Fold("before"[i], true) {
          assert s[p + i] == w[i];
        }
      }
    } else if IsAfter(w) {
      PrefixHead(w, 0, "after", true);
      assert !PrefixAt(s, p, "before", true) by {
        if PrefixAt(s, p, "before", true) {
          PrefixHead(s, p, "before", true);
        }
      }
      assert PrefixAt(s, p, "after", true) by {
        forall i | 0 <= i < 5 ensures Fold(s[p + i], true) == Fold("after"[i], true) {
          assert s[p + i] == w[i];
        }
      }
    } else if |w| == 2 {
      assert s[p + 1] == w[1];
    }
  }

  lemma TimeEndExact(s: string, r: nat, t: nat)
    requires r < t <= |s| && IsTimeWord(s[r..t])
    requires t == |s| || !IsDigit(s[t])
    ensures TimeEnd(s, r) == Some(t)
  {
    var w := s[r..t];
    assert w[0] == s[r];
    if |w| == 4 && PrefixAt(w, 0, "noon", true) {
      assert PrefixAt(s, r, "noon", true) by {
        forall i | 0 <= i < 4 ensures Fold(s[r + i], true) == Fold("noon"[i], true) {
          assert s[r + i] == w[i];
        }
      }
    } else if |w| == 8 && PrefixAt(w, 0, "midnight", true) {
      PrefixHead(w, 0, "midnight", true);
      assert !PrefixAt(s, r, "noon", true) by {
        if PrefixAt(s, r, "noon", true) {
          PrefixHead(s, r, "noon", true);
        }
      }
      assert PrefixAt(s, r, "midnight", true) by {
        forall i | 0 <= i < 8 ensures Fold(s[r + i], true) == Fold("midnight"[i], true) {
          assert s[r + i] == w[i];
        }
      }
    } else {
      assert forall k :: r <= k < t ==> IsDigit(s[k]) by {
        forall k | r <= k < t ensures IsDigit(s[k]) {
          assert s[k] == w[k - r];
        }
      }
      assert IsDigit(s[r]);
      assert !PrefixAt(s, r, "noon", true) && !PrefixAt(s, r, "midnight", true) by {
        if PrefixAt(s, r, "noon", true) {
          PrefixHead(s, r, "noon", true);
        }
        if PrefixAt(s, r, "midnight", true) {
          PrefixHead(s, r, "midnight", true);
        }
      }
      DigitsEndExact(s, r, t);
    }
  }

  /** Every match of the pattern at `p` is the one the scanner reports: same groups, same boundaries. */
  lemma MatchEndsComplete(s: string, p: nat, q: nat, r: nat, t: nat, u: nat, e: nat)
    requires MatchesAt(s, p, q, r, t, u, e)
    ensures MatchEnds(s, p) == Some(Ends(q, r, t, u, e))
  {
    assert s[q] == s[q..r][0];
    CompEndExact(s, p, q);
    var w := s[r..t];
    assert s[r] == w[0];
    TimeWordHead(w);
    SpacesEndExact(s, q, r);
    if e > u {
      assert s[u] == s[u..e][0];
      MeridiemHead(s[u..e]);
    }
    if t < |s| && u > t {
      assert s[t] == s[t..u][0];
    }
    TimeEndExact(s, r, t);
    SpacesEndExact(s, t, u);
    if e == u + 2 {
      var m := s[u..e];
      assert PrefixAt(s, u, "am", true) || PrefixAt(s, u, "pm", true) by {
        assert s[u] == m[0] && s[u + 1] == m[1];
      }
    } else {
      assert !PrefixAt(s, u, "am", true) && !PrefixAt(s, u, "pm", true) by {
        if PrefixAt(s, u, "am", true) {
          PrefixHead(s, u, "am", true);
        }
        if PrefixAt(s, u, "pm", true) {
          PrefixHead(s, u, "pm", true);
        }
      }
    }
  }

  /** Where the scanner finds nothing, the pattern does not match. */
  lemma NoMatchAt(s: string, p: nat)
    requires MatchEnds(s, p).None?
    ensures forall q, r, t, u, e :: !MatchesAt(s, p, q, r, t, u, e)
  {
    forall q, r, t, u, e ensures MatchesAt(s, p, q, r, t, u, e) ==> MatchEnds(s, p) == Some(Ends(q, r, t, u, e)) {
      if MatchesAt(s, p, q, r, t, u, e) {
        MatchEndsComplete(s, p, q, r, t, u, e);
      }
    }
  }

  /** The search from `from` reports the match at `p` when no match starts in between. */
  lemma {:induction false} FindMatchAt(s: string, from: nat, p: nat, q: nat, r: nat, t: nat, u: nat, e: nat)
    requires from <= p && MatchesAt(s, p, q, r, t, u, e)
    requires forall p', q', r', t', u', e' :: from <= p' < p ==> !MatchesAt(s, p', q', r', t', u', e')
    ensures FindMatch(s, from) == Some(Captures(s[p..q], s[r..e]))
    decreases p - from
  {
    if from < p {
      var m := MatchEnds(s, from);
      assert m.Some? ==> MatchesAt(s, from, m.value.q, m.value.r, m.value.t, m.value.u, m.value.e);
      assert m.None?;
      FindMatchAt(s, from + 1, p, q, r, t, u, e);
    } else {
      MatchEndsComplete(s, p, q, r, t, u, e);
    }
  }

  /** The search from `from` finds nothing when no match starts at or after `from`. */
  lemma {:induction false} FindMatchNone(s: string, from: nat)
    requires forall p, q, r, t, u, e :: from <= p ==> !MatchesAt(s, p, q, r, t, u, e)
    ensures FindMatch(s, from).None?
    decreases |s| + 1 - from
  {
    if from <= |s| {
      var m := MatchEnds(s, from);
      assert m.Some? ==> MatchesAt(s, from, m.value.q, m.value.r, m.value.t, m.value.u, m.value.e);
      FindMatchNone(s, from + 1);
    }
  }

  /** What the search reports is a match of the pattern, and no match starts before it. */
  lemma {:induction false} FindMatchSound(s: string, from: nat) returns (p: nat, z: Ends)
    requires FindMatch(s, from).Some?
    ensures from <= p && MatchesAt(s, p, z.q, z.r, z.t, z.u, z.e)
    ensures FindMatch(s, from) == Some(Captures(s[p..z.q], s[z.r..z.e]))
    ensures forall p', q', r', t', u', e' :: from <= p' < p ==> !MatchesAt(s, p', q', r', t', u', e')
    decreases |s| + 1 - from
  {
    match MatchEnds(s, from)
    case Some(m) =>
      p, z := from, m;
      assert FindMatch(s, from) == Some(Captures(s[p..z.q], s[z.r..z.e]));
    case None =>
      var p1, z1 := FindMatchSound(s, from + 1);
      assert FindMatch(s, from) == FindMatch(s, from + 1);
      NoMatchAt(s, from);
      forall p', q', r', t', u', e' | from <= p' < p1 ensures !MatchesAt(s, p', q', r', t', u', e') {
        if p' == from {
          assert !MatchesAt(s, from, q', r', t', u', e');
        }
      }
      p, z := p1, z1;
  }

  // ---------------------------------------------------------------------------
  // Evaluation

  /** `s =~ /^w$/`: some line of `s` is exactly `w`. */
  predicate LineIs(s: string, w: string) {
    exists p :: 0 <= p <= |s| && LineStart(s, p) && PrefixAt(s, p, w, false) && LineEnd(s, p + |w|)
  }

  /** The `case m["comp"]` of the source; `None` is the nil of a comparator no branch handles. */
  function Decide(comp: string, now: Instant, target: Instant): Option<bool> {
    if LineIs(comp, "<=") then Some(AtMost(now, target))
    else if StartsLine(comp, "<", true) || StartsLine(comp, "bef", true) then Some(Before(now, target))
    else if StartsLine(comp, ">=", false) then Some(AtMost(target, now))
    else if StartsLine(comp, ">", true) || StartsLine(comp, "aft", true) then Some(Before(target, now))
    else None
  }

  /**
   * `parse_condition`: true when the pattern does not match; otherwise the
   * comparison of the reference instant `now` with the parsed time on `now`'s
   * day. A time Chronic cannot parse raises (`localtime` on nil).
   */
  function ParseCondition(s: string, now: Instant, chronic: string -> Option<MinuteOfDay>): Result<Option<bool>> {
    match FindMatch(s, 0)
    case None => Ok(Some(true))
    case Some(c) =>
      match chronic(c.time)
      case None => Err(NoMethod("localtime"))
      case Some(minute) => Ok(Decide(c.comp, now, AtMinute(now, minute)))
  }

  lemma LineIsSingle(s: string, w: string)
    requires '\n' !in s
    ensures LineIs(s, w) <==> s == w
  {
    if LineIs(s, w) {
      var p :| 0 <= p <= |s| && LineStart(s, p) && PrefixAt(s, p, w, false) && LineEnd(s, p + |w|);
      assert forall i :: 0 <= i < |s| ==> s[i] != '\n';
      assert s == w;
    } else {
      if s == w {
        assert LineStart(s, 0) && PrefixAt(s, 0, w, false) && LineEnd(s, |w|);
      }
    }
  }

  lemma CompSingleLine(c: string)
    requires IsComp(c)
    ensures '\n' !in c
  {
    forall i | 0 <= i < |c| ensures c[i] != '\n' {
      if IsBefore(c) {
        assert Fold(c[i], true) == Fold("before"[i], true);
      } else if IsAfter(c) {
        assert Fold(c[i], true) == Fold("after"[i], true);
      }
    }
  }

  /**
   * The comparator table: `<=` and `>=` are the non-strict comparisons, every
   * other token starting with `<` (and `before` in any case) is "earlier
   * than", every other token starting with `>` (and `after`) is "later than",
   * and the tokens starting with `=` are matched by no branch.
   */
  lemma DecideSpec(c: string, now: Instant, target: Instant)
    requires IsComp(c)
    ensures c == "<=" ==> Decide(c, now, target) == Some(AtMost(now, target))
    ensures c == ">=" ==> Decide(c, now, target) == Some(AtMost(target, now))
    ensures (c[0] == '<' && c != "<=") || IsBefore(c) ==> Decide(c, now, target) == Some(Before(now, target))
    ensures (c[0] == '>' && c != ">=") || IsAfter(c) ==> Decide(c, now, target) == Some(Before(target, now))
    ensures c[0] == '=' ==> Decide(c, now, target).None?
  {
    CompSingleLine(c);
    LineIsSingle(c, "<=");
    StartsLineSingle(c, "<", true);
    StartsLineSingle(c, "bef", true);
    StartsLineSingle(c, ">=", false);
    StartsLineSingle(c, ">", true);
    StartsLineSingle(c, "aft", true);
    if IsBefore(c) {
      PrefixHead(c, 0, "before", true);
      assert PrefixAt(c, 0, "bef", true) by {
        forall i | 0 <= i < 3 ensures Fold(c[i], true) == Fold("bef"[i], true) {
          assert Fold(c[i], true) == Fold("before"[i], true);
        }
      }
    } else if IsAfter(c) {
      assert PrefixAt(c, 0, "aft", true) by {
        forall i | 0 <= i < 3 ensures Fold(c[i], true) == Fold("aft"[i], true) {
          assert Fold(c[i], true) == Fold("after"[i], true);
        }
      }
      PrefixHead(c, 0, "after", true);
      HeadDiffers(c, 0, "<", true);
      HeadDiffers(c, 0, "bef", true);
      HeadDiffers(c, 0, ">=", false);
    } else {
      HeadDiffers(c, 0, "bef", true);
      HeadDiffers(c, 0, "aft", true);
      if c[0] != '<' {
        HeadDiffers(c, 0, "<", true);
      }
      if c[0] != '>' {
        HeadDiffers(c, 0, ">", true);
        HeadDiffers(c, 0, ">=", false);
      }
      if |c| == 2 {
        assert c == [c[0], c[1]];
        if c[1] != '=' {
          assert !PrefixAt(c, 0, ">=", false) by {
            assert Fold(c[0 + 1], false) != Fold(">="[1], false);
          }
        }
      } else {
        assert c == [c[0]];
      }
    }
  }

  /** A condition the pattern matches nowhere evaluates to true. */
  lemma NoMatchIsTrue(s: string, now: Instant, chronic: string -> Option<MinuteOfDay>)
    requires forall p, q, r, t, u, e :: !MatchesAt(s, p, q, r, t, u, e)
    ensures ParseCondition(s, now, chronic) == Ok(Some(true))
  {
    FindMatchNone(s, 0);
  }

  /**
   * The leftmost match decides: its comparator is applied to `now` and the
   * instant on `now`'s calendar day at the minute Chronic reads from the time
   * capture (seconds dropped); an unreadable time raises.
   */
  lemma MatchDecides(s: string, now: Instant, chronic: string -> Option<MinuteOfDay>,
                     p: nat, q: nat, r: nat, t: nat, u: nat, e: nat)
    requires MatchesAt(s, p, q, r, t, u, e)
    requires forall p', q', r', t', u', e' :: 0 <= p' < p ==> !MatchesAt(s, p', q', r', t', u', e')
    ensures chronic(s[r..e]).None? ==> ParseCondition(s, now, chronic) == Err(NoMethod("localtime"))
    ensures chronic(s[r..e]).Some? ==>
      var target := Instant(now.day, chronic(s[r..e]).value * 60);
      ParseCondition(s, now, chronic) == Ok(Decide(s[p..q], now, target))
  {
    FindMatchAt(s, 0, p, q, r, t, u, e);
  }

  /** "after 3pm" is false at 14:00 and true at 15:30 when Chronic reads "3pm" as 15:00. */
  lemma AfterThreeExample(chronic: string -> Option<MinuteOfDay>, day: int)
    requires chronic("3pm") == Some(900)
    ensures ParseCondition("after 3pm", Instant(day, 14 * 3600), chronic) == Ok(Some(false))
    ensures ParseCondition("after 3pm", Instant(day, 15 * 3600 + 1800), chronic) == Ok(Some(true))
  {
    var s := "after 3pm";
    assert IsAfter(s[0..5]);
    assert IsTimeWord(s[6..7]);
    assert IsMeridiem(s[7..9]);
    assert MatchesAt(s, 0, 5, 6, 7, 7, 9);
    assert s[6..9] == "3pm";
    MatchDecides(s, Instant(day, 14 * 3600), chronic, 0, 5, 6, 7, 7, 9);
    MatchDecides(s, Instant(day, 15 * 3600 + 1800), chronic, 0, 5, 6, 7, 7, 9);
    DecideSpec(s[0..5], Instant(day, 14 * 3600), Instant(day, 900 * 60));
    DecideSpec(s[0..5], Instant(day, 15 * 3600 + 1800), Instant(day, 900 * 60));
  }

  /** Without a space between comparator and time the pattern does not match, so the condition holds. */
  lemma NoSpaceExample(now: Instant, chronic: string -> Option<MinuteOfDay>)
    ensures ParseCondition("after3pm", now, chronic) == Ok(Some(true))
  {
    var s := "after3pm";
    assert ' ' !in s;
    forall p: nat, q: nat, r: nat, t: nat, u: nat, e: nat ensures !MatchesAt(s, p, q, r, t, u, e) {
      if p < q < r <= |s| {
        assert s[q..r][0] == s[q] && s[q] in s;
      }
    }
    NoMatchIsTrue(s, now, chronic);
  }
}
