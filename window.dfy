/** The rolling history of the last ten combined-tick temperatures. */
module Window {

  /** How many readings the window keeps. */
  const Capacity: nat := 10

  /** The newest n elements of history, oldest first (all of it when it is shorter). */
  function Newest(history: seq<real>, n: nat): seq<real>
  {
    if |history| <= n then history else history[|history| - n..]
  }

  /**
   * Keeping the newest n readings of a longer history is the same as
   * appending to the newest n and dropping the front element on overflow.
   */
  lemma {:induction false} NewestAfterPush(history: seq<real>, x: real, n: nat)
    requires n > 0
    ensures var kept := Newest(history, n) + [x];
            Newest(history + [x], n) == if |kept| > n then kept[1..] else kept
  {
    var kept := Newest(history, n) + [x];
    var expected := if |kept| > n then kept[1..] else kept;
    var actual := Newest(history + [x], n);
    assert |actual| == |expected|;
    forall i | 0 <= i < |actual|
      ensures actual[i] == expected[i]
    {
      if i == |actual| - 1 {
        assert actual[i] == x;
      } else if |kept| > n {
        assert expected[i] == kept[i + 1];
      }
    }
  }

  /**
   * The temperature window: a growable list that is pushed to and trimmed
   * from the front once it holds more than Capacity readings.  The ghost
   * history records every pushed reading.
   */
  class RollingWindow {
    var values: seq<real>
    ghost var pushed: seq<real>

    ghost predicate Valid()
      reads this
    {
      values == Newest(pushed, Capacity)
    }

    constructor ()
      ensures Valid()
      ensures values == [] && pushed == []
    {
      values := [];
      pushed := [];
    }

    /**
     * Appends a reading, then removes the oldest one if that made the window
     * longer than Capacity.
     */
    method Push(x: real)
      requires Valid()
      modifies this
      ensures Valid()
      ensures pushed == old(pushed) + [x]
      ensures |values| == if |old(values)| < Capacity then |old(values)| + 1 else Capacity
      ensures values[|values| - 1] == x
      ensures |old(values)| < Capacity ==> values == old(values) + [x]
      ensures |old(values)| == Capacity ==> values == old(values)[1..] + [x]
    {
      NewestAfterPush(pushed, x, Capacity);
      values := values + [x];
      if |values| > Capacity {
        values := values[1..];
      }
      pushed := pushed + [x];
    }
  }
}
