/**
 * The "keep the first strictly better one" scan the route uses twice: over
 * the candidates of a strategy and over the lines of a fetched shabad.
 */
module Argmax {

  /** The score of every item, in order. */
  function ScoresBy<T>(items: seq<T>, score: T -> real): (xs: seq<real>)
    ensures |xs| == |items|
    ensures forall j :: 0 <= j < |items| ==> xs[j] == score(items[j])
  {
    if items == [] then [] else [score(items[0])] + ScoresBy(items[1..], score)
  }

  /** The first index holding the maximum. */
  function FirstMaxIndex(xs: seq<real>): (k: nat)
    requires |xs| > 0
    ensures k < |xs|
    ensures forall j :: 0 <= j < |xs| ==> xs[j] <= xs[k]
    ensures forall j :: 0 <= j < k ==> xs[j] < xs[k]
  {
    if |xs| == 1 then 0
    else
      var k := FirstMaxIndex(xs[..|xs| - 1]);
      if xs[|xs| - 1] > xs[k] then |xs| - 1 else k
  }

  /** Any index of a maximum with only smaller values before it is the first maximum. */
  lemma FirstMaxUnique(xs: seq<real>, k: nat)
    requires k < |xs|
    requires forall j :: 0 <= j < |xs| ==> xs[j] <= xs[k]
    requires forall j :: 0 <= j < k ==> xs[j] < xs[k]
    ensures FirstMaxIndex(xs) == k
  {
    var m := FirstMaxIndex(xs);
    assert xs[m] == xs[k];
  }

  lemma FirstMaxStep(xs: seq<real>, i: nat)
    requires i < |xs|
    ensures i == 0 ==> FirstMaxIndex(xs[..1]) == 0
    ensures i > 0 ==> var k := FirstMaxIndex(xs[..i]);
      FirstMaxIndex(xs[..i + 1]) == if xs[i] > xs[k] then i else k
  {
    assert xs[..i + 1][..i] == xs[..i];
  }

  /**
   * The scan: start from the first item with a running maximum of `floor`
   * and move on only to a strictly higher score. When no score is below
   * `floor` it stops at the first item of maximal score.
   */
  method ScanForBest<T>(items: seq<T>, score: T -> real, floor: real) returns (k: nat)
    requires |items| > 0
    requires forall j :: 0 <= j < |items| ==> score(items[j]) >= floor
    ensures k == FirstMaxIndex(ScoresBy(items, score))
  {
    ghost var xs := ScoresBy(items, score);
    k := 0;
    var maxScore := floor;
    var i := 0;
    while i < |items|
      invariant 0 <= i <= |items| && k < |items|
      invariant i == 0 ==> k == 0 && maxScore == floor
      invariant i > 0 ==> k == FirstMaxIndex(xs[..i]) && maxScore == xs[k]
    {
      var currentScore := score(items[i]);
      FirstMaxStep(xs, i);
      if currentScore > maxScore {
        maxScore := currentScore;
        k := i;
      }
      i := i + 1;
    }
    assert xs[..i] == xs;
  }
}
