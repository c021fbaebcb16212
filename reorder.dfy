/** The reorder countdown of `specialCardsreorder`. Its `_countDown` closure
    announces the seconds left, decrements them and, when they reach zero,
    clears its own interval and ends the reorder window. The first call is
    made at once; the interval makes the others, and a cleared interval makes
    none. */
module Reorder {

  /** The seconds the countdown starts from. */
  const ReorderSeconds: int := 15

  /** The closure's counter and whether its interval still runs. */
  datatype Clock = Clock(seconds: int, active: bool)

  function Start(): Clock
  {
    Clock(ReorderSeconds, true)
  }

  /** One call of `_countDown` while the interval runs. */
  function Step(c: Clock): Clock
    requires c.active
  {
    Clock(c.seconds - 1, c.seconds - 1 != 0)
  }

  /** The call on `c` is the one that ends the countdown. */
  predicate Fires(c: Clock)
  {
    c.active && c.seconds == 1
  }

  /** The clock after `n` calls; once the interval is cleared nothing changes. */
  function Run(c: Clock, n: nat): Clock
    decreases n
  {
    if n == 0 || !c.active then c else Run(Step(c), n - 1)
  }

  /** From `s` seconds the `k`-th call (counting from 0) announces `s - k`; the
      clock is cleared after exactly `s` calls and stays so. */
  lemma {:induction false} RunFrom(s: int, n: nat)
    requires s >= 1
    ensures Run(Clock(s, true), n) == if n < s then Clock(s - n, true) else Clock(0, false)
    decreases n
  {
    if n > 0 {
      if s == 1 {
        assert Step(Clock(s, true)) == Clock(0, false);
      } else {
        RunFrom(s - 1, n - 1);
      }
    }
  }

  /** Started from 15, the countdown ends on the 15th call and on no other:
      the first fourteen calls announce 15 down to 2 and leave the interval
      running, the 15th announces 1 and clears it. */
  lemma FiresOnlyAtFifteenth(n: nat)
    ensures Fires(Run(Start(), n)) <==> n == ReorderSeconds - 1
    ensures n < ReorderSeconds ==> Run(Start(), n) == Clock(ReorderSeconds - n, true)
    ensures n >= ReorderSeconds ==> !Run(Start(), n).active
  {
    RunFrom(ReorderSeconds, n);
  }
}
