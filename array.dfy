/**
 * `Array#shortest` and `Array#longest`: folds (`inject` without a seed) over
 * an array of strings that keep the accumulated element only while it is
 * strictly shorter (longer) than the next one.
 */
module ArrayHelpers {
  import opened Wrappers

  /** The block of the fold: does the accumulated element of length `memo` beat one of length `word`? */
  predicate Keeps(memo: nat, word: nat, longest: bool) {
    if longest then memo > word else memo < word
  }

  function Fold(memo: string, rest: seq<string>, longest: bool): string
    decreases |rest|
  {
    if rest == [] then memo
    else Fold(if Keeps(|memo|, |rest[0]|, longest) then memo else rest[0], rest[1..], longest)
  }

  /** `inject` without a seed: nil on an empty array, otherwise the fold from the first element. */
  function Inject(xs: seq<string>, longest: bool): (r: Option<string>)
    ensures r.None? <==> xs == []
  {
    if xs == [] then None else Some(Fold(xs[0], xs[1..], longest))
  }

  function Shortest(xs: seq<string>): (r: Option<string>)
    ensures r.None? <==> xs == []
  {
    Inject(xs, false)
  }

  function Longest(xs: seq<string>): (r: Option<string>)
    ensures r.None? <==> xs == []
  {
    Inject(xs, true)
  }

  /** `xs[k]` is not beaten by any element, and beats every element after it. */
  predicate Winner(xs: seq<string>, k: nat, longest: bool)
    requires k < |xs|
  {
    && (forall j :: 0 <= j < |xs| ==> !Keeps(|xs[j]|, |xs[k]|, longest))
    && (forall j :: k < j < |xs| ==> Keeps(|xs[k]|, |xs[j]|, longest))
  }

  /** The fold with the accumulated element tracked by its index `m`, the next index being `i`. */
  ghost function FoldIndex(xs: seq<string>, m: nat, i: nat, longest: bool): nat
    requires m < i <= |xs|
    decreases |xs| - i
  {
    if i == |xs| then m
    else FoldIndex(xs, if Keeps(|xs[m]|, |xs[i]|, longest) then m else i, i + 1, longest)
  }

  lemma {:induction false} FoldAtIndex(xs: seq<string>, m: nat, i: nat, longest: bool)
    requires m < i <= |xs|
    ensures FoldIndex(xs, m, i, longest) < |xs|
    ensures Fold(xs[m], xs[i..], longest) == xs[FoldIndex(xs, m, i, longest)]
    ensures Winner(xs[..i], m, longest) ==> Winner(xs, FoldIndex(xs, m, i, longest), longest)
    decreases |xs| - i
  {
    if i < |xs| {
      var m' := if Keeps(|xs[m]|, |xs[i]|, longest) then m else i;
      assert xs[i..][1..] == xs[i + 1..];
      FoldAtIndex(xs, m', i + 1, longest);
      if Winner(xs[..i], m, longest) {
        assert Winner(xs[..i + 1], m', longest);
      }
    } else {
      assert xs[..i] == xs;
    }
  }

  /**
   * The result of a non-empty fold is an element of the array, is not beaten
   * by any element, and is the LAST such element: on ties the later one wins.
   */
  lemma InjectSpec(xs: seq<string>, longest: bool) returns (k: nat)
    requires xs != []
    ensures k < |xs| && Inject(xs, longest) == Some(xs[k])
    ensures Winner(xs, k, longest)
  {
    FoldAtIndex(xs, 0, 1, longest);
    k := FoldIndex(xs, 0, 1, longest);
  }

  /** `shortest` returns the last element of minimal length. */
  lemma ShortestSpec(xs: seq<string>) returns (k: nat)
    requires xs != []
    ensures k < |xs| && Shortest(xs) == Some(xs[k])
    ensures forall j :: 0 <= j < |xs| ==> |xs[k]| <= |xs[j]|
    ensures forall j :: k < j < |xs| ==> |xs[k]| < |xs[j]|
  {
    k := InjectSpec(xs, false);
  }

  /** `longest` returns the last element of maximal length. */
  lemma LongestSpec(xs: seq<string>) returns (k: nat)
    requires xs != []
    ensures k < |xs| && Longest(xs) == Some(xs[k])
    ensures forall j :: 0 <= j < |xs| ==> |xs[k]| >= |xs[j]|
    ensures forall j :: k < j < |xs| ==> |xs[k]| > |xs[j]|
  {
    k := InjectSpec(xs, true);
  }
}
