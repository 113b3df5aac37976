/**
 * The changing index of a transition (`getChangingIndex`): the first position at which the
 * previous route chain and the new one diverge. Routes of the previous chain at or past it
 * deactivate; routes of the new chain at or past it activate.
 */
module Chains {
  import opened Routes

  /** Two chain entries are the same active route when names agree and parameters are deeply equal. */
  predicate SameRoute(a: Descriptor, b: Descriptor)
  {
    a.name == b.name && a.params == b.params
  }

  /** The changing index, defined by recursion on the two chains. */
  function ChangingIndex(prev: seq<Descriptor>, cur: seq<Descriptor>): nat
  {
    if |prev| == 0 || |cur| == 0 || !SameRoute(prev[0], cur[0]) then 0
    else 1 + ChangingIndex(prev[1..], cur[1..])
  }

  /** A position is a first divergence when both chains agree before it and, at it, one chain
      has run out or the entries differ. */
  ghost predicate FirstDivergence(prev: seq<Descriptor>, cur: seq<Descriptor>, i: nat)
  {
    && i <= |prev| && i <= |cur|
    && (forall j :: 0 <= j < i ==> SameRoute(prev[j], cur[j]))
    && (i < |prev| && i < |cur| ==> !SameRoute(prev[i], cur[i]))
  }

  /** The changing index is the first divergence of the two chains. */
  lemma {:induction false} ChangingIndexIsFirstDivergence(prev: seq<Descriptor>, cur: seq<Descriptor>)
    ensures FirstDivergence(prev, cur, ChangingIndex(prev, cur))
  {
    if |prev| == 0 || |cur| == 0 || !SameRoute(prev[0], cur[0]) {
    } else {
      ChangingIndexIsFirstDivergence(prev[1..], cur[1..]);
      var i := ChangingIndex(prev, cur);
      forall j | 0 <= j < i ensures SameRoute(prev[j], cur[j]) {
        if j > 0 {
          assert prev[j] == prev[1..][j - 1] && cur[j] == cur[1..][j - 1];
        }
      }
    }
  }

  /** There is only one first divergence, so the changing index is completely characterised by it. */
  lemma FirstDivergenceUnique(prev: seq<Descriptor>, cur: seq<Descriptor>, i: nat)
    requires FirstDivergence(prev, cur, i)
    ensures i == ChangingIndex(prev, cur)
  {
    ChangingIndexIsFirstDivergence(prev, cur);
  }

  /** The changing index lies in `[0, max(|prev|, |cur|)]`; in fact it never passes the shorter chain. */
  lemma {:induction false} ChangingIndexBounds(prev: seq<Descriptor>, cur: seq<Descriptor>)
    ensures ChangingIndex(prev, cur) <= |prev| && ChangingIndex(prev, cur) <= |cur|
  {
    ChangingIndexIsFirstDivergence(prev, cur);
  }

  /** Two chains that agree entry by entry give their common length: nothing deactivates and
      nothing activates. */
  lemma {:induction false} SameChainsGiveLength(prev: seq<Descriptor>, cur: seq<Descriptor>)
    requires |prev| == |cur|
    requires forall j :: 0 <= j < |prev| ==> SameRoute(prev[j], cur[j])
    ensures ChangingIndex(prev, cur) == |prev|
  {
    FirstDivergenceUnique(prev, cur, |prev|);
  }

  /**
   * The loop of the source: walk both chains up to the longer length and stop at the first
   * position where an entry is missing, the names differ or the parameters differ.
   */
  method GetChangingIndex(prev: seq<Descriptor>, cur: seq<Descriptor>) returns (index: nat)
    ensures index == ChangingIndex(prev, cur)
  {
    var count := if |prev| > |cur| then |prev| else |cur|;
    index := 0;
    while index < count
      invariant index <= |prev| && index <= |cur|
      invariant forall j :: 0 <= j < index ==> SameRoute(prev[j], cur[j])
    {
      if !(index < |prev| && index < |cur|) || prev[index].name != cur[index].name || prev[index].params != cur[index].params {
        break;
      }
      index := index + 1;
    }
    FirstDivergenceUnique(prev, cur, index);
  }
}
