/**
  The count-down latch the channel service waits on
  (lib/util/countDownLatch.js is not part of this model; it is modelled
  from its use in lib/common/service/channelService.js): created with a
  positive count, each `done()` counts down by one, and the callback
  fires once, on the call that reaches zero.  Calls after that are
  ignored.
 */
module CountDownLatch {

  datatype Latch = Latch(remaining: nat)

  function Create(count: nat): (l: Latch)
    ensures l.remaining == count
  {
    Latch(count)
  }

  /** One `done()`: the new latch and whether the callback fires now. */
  function Done(l: Latch): (r: (Latch, bool))
    ensures r.1 <==> l.remaining == 1
    ensures r.0.remaining < l.remaining || l.remaining == 0
    ensures r.0.remaining == 0 ==> r.0 == Latch(0)
  {
    if l.remaining == 0 then (l, false)
    else (Latch(l.remaining - 1), l.remaining == 1)
  }

  /** The indexes of the `done()` calls that fire, among `n` calls
      numbered from `at`. */
  function Firings(l: Latch, n: nat, at: nat): (r: seq<nat>)
    decreases n
  {
    if n == 0 then []
    else
      var (next, fired) := Done(l);
      (if fired then [at] else []) + Firings(next, n - 1, at + 1)
  }

  /** A latch created with `count > 0` fires exactly once over `n >= count`
      calls, on call number `count` (index `count - 1` counting from 0),
      and never over fewer calls. */
  lemma {:induction false} FiresOnceAtCount(count: nat, n: nat, at: nat)
    requires count > 0
    ensures n < count ==> Firings(Create(count), n, at) == []
    ensures n >= count ==> Firings(Create(count), n, at) == [at + count - 1]
    decreases n
  {
    if n > 0 {
      var tail := Firings(Latch(count - 1), n - 1, at + 1);
      assert Firings(Create(count), n, at) == (if count == 1 then [at] else []) + tail;
      if count == 1 {
        NeverFiresAtZero(n - 1, at + 1);
        assert [at] + [] == [at];
      } else {
        FiresOnceAtCount(count - 1, n - 1, at + 1);
        assert [] + tail == tail;
      }
    }
  }

  lemma {:induction false} NeverFiresAtZero(n: nat, at: nat)
    ensures Firings(Latch(0), n, at) == []
    decreases n
  {
    if n > 0 {
      NeverFiresAtZero(n - 1, at + 1);
      assert Firings(Latch(0), n, at) == [] + Firings(Latch(0), n - 1, at + 1);
    }
  }
}
