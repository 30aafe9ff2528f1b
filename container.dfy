/** The pending container: a binary heap ordered by the caller's `compare`,
    seen here through what the queue relies on. Its live contents are a
    multiset; `poll` yields an element no other live element has priority
    over (ties are broken by the heap's internal layout, so any such element
    may come out); its backing array may be longer than its size, and the
    difference (the slack) is reclaimed by `trim`. */
module Container {
  import opened QueueOptions

  /** m may be what `poll` yields from `items`: it is live and no live item
      has priority over it. */
  predicate IsMinimal<P(==,!new)>(compare: (Message<P>, Message<P>) -> bool, m: Message<P>, items: multiset<Message<P>>) {
    m in items && forall x | x in items :: !compare(x, m)
  }

  /** A non-empty container always has an element `poll` may yield,
      provided the comparator is a strict weak order. */
  lemma {:induction false} MinimalExists<P(!new)>(compare: (Message<P>, Message<P>) -> bool, items: multiset<Message<P>>)
    requires StrictWeakOrder(compare)
    requires items != multiset{}
    ensures exists m :: IsMinimal(compare, m, items)
    decreases |items|
  {
    var x :| x in items;
    var rest := items - multiset{x};
    assert items == rest + multiset{x};
    if rest == multiset{} {
      forall y | y in items ensures !compare(y, x) {
        assert y == x;
      }
      assert IsMinimal(compare, x, items);
    } else {
      MinimalExists(compare, rest);
      var m :| IsMinimal(compare, m, rest);
      if compare(x, m) {
        forall y | y in items ensures !compare(y, x) {
          if y != x {
            assert y in rest;
            assert Precedes(compare, y, x) && Precedes(compare, x, m) ==> Precedes(compare, y, m);
          }
        }
        assert IsMinimal(compare, x, items);
      } else {
        forall y | y in items ensures !compare(y, m) {
          if y != x {
            assert y in rest;
          }
        }
        assert IsMinimal(compare, m, items);
      }
    }
  }

  /** Slack after `add`: the new item takes the first unused slot of the
      backing array if there is one, and extends the array otherwise. */
  function SlackAfterAdd(slack: nat): (r: nat)
    ensures r <= slack && slack <= r + 1
    ensures r < slack || slack == 0
  {
    if slack > 0 then slack - 1 else 0
  }

  /** Slack after one tick: `trim` first if the slack exceeds the threshold,
      then `poll` (when something was live), which shrinks the size and
      leaves the array's length alone. */
  function SlackAfterTick(slack: nat, threshold: Limit, polled: bool): (r: nat)
    ensures !NeedsCompaction(slack, threshold) ==> r == slack + (if polled then 1 else 0)
    ensures NeedsCompaction(slack, threshold) ==> r <= 1 && (polled <==> r == 1)
  {
    (if NeedsCompaction(slack, threshold) then 0 else slack) + (if polled then 1 else 0)
  }

  /** Bounded memory: with a non-negative finite threshold, every tick
      leaves at most one slot of slack above it. */
  lemma SlackStaysBounded(slack: nat, n: int, polled: bool)
    requires n >= 0
    ensures SlackAfterTick(slack, AtMost(n), polled) <= n + 1
  {
  }

  /** Slack after a whole drain episode started by a scheduled tick with k
      live items: k ticks that poll, then the settling tick that does not.
      Without a threshold the slack only grows; with one, the episode ends
      with no more slack than the threshold allows. */
  function SlackAfterDrain(slack: nat, threshold: Limit, k: nat): (r: nat)
    ensures threshold.Unlimited? ==> r == slack + k
    ensures threshold.AtMost? && threshold.n >= 0 ==> r <= threshold.n
    decreases k
  {
    if k == 0 then SlackAfterTick(slack, threshold, false)
    else SlackAfterDrain(SlackAfterTick(slack, threshold, true), threshold, k - 1)
  }

  /** Nothing later in s has priority over anything earlier: the order in
      which repeated `poll`s may yield the items. */
  ghost predicate PriorityOrdered<P(!new)>(compare: (Message<P>, Message<P>) -> bool, s: seq<Message<P>>) {
    forall i, j :: 0 <= i < j < |s| ==> !compare(s[j], s[i])
  }
}
