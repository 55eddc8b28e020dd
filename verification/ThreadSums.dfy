/** Adding up a weight over all threads, and what one thread's change does to the total. */
module ThreadSums {
  import opened Machine

  ghost function Sum(threads: seq<Thread>, w: Thread -> int): int {
    if threads == [] then 0 else w(threads[0]) + Sum(threads[1..], w)
  }

  lemma {:induction false} SumUpdate(threads: seq<Thread>, t: nat, th: Thread, w: Thread -> int)
    requires t < |threads|
    ensures Sum(threads[t := th], w) == Sum(threads, w) - w(threads[t]) + w(th)
  {
    if t == 0 {
      assert threads[0 := th][1..] == threads[1..];
    } else {
      assert threads[t := th][1..] == threads[1..][t - 1 := th];
      SumUpdate(threads[1..], t - 1, th, w);
    }
  }

  lemma {:induction false} SumAtMost(threads: seq<Thread>, w: Thread -> int)
    requires forall th :: 0 <= w(th) <= 1
    ensures 0 <= Sum(threads, w) <= |threads|
  {
    if threads != [] {
      SumAtMost(threads[1..], w);
    }
  }

  lemma {:induction false} SumZero(threads: seq<Thread>, w: Thread -> int)
    requires forall t :: 0 <= t < |threads| ==> w(threads[t]) == 0
    ensures Sum(threads, w) == 0
  {
    if threads != [] {
      SumZero(threads[1..], w);
    }
  }
}
