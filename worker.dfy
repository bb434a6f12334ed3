// A worker (main.go, `worker`): for every line it takes off the dispatch
// channel it prints the line, sends one token on the completion channel, and
// calls the limiter's `Wait` when its own count of handled lines, taken
// before the increment, is a multiple of the divider.
//
// `Wait` belongs to the limiter library and is not modelled: the worker logs
// the count at which it called it. The count is a Go `int`; its wrap-around
// after 2^63 lines is not modelled.
module WorkerPool {
  import opened Reader
  import opened Arithmetic

  /** The counts in [start, start + n) that are multiples of `d`, in
      increasing order: the counts at which a worker that has handled `start`
      lines calls `Wait` while it handles `n` more. */
  function WaitPoints(start: nat, n: nat, d: int): seq<nat>
    requires d >= 1
  {
    if n == 0 then []
    else WaitPoints(start, n - 1, d) + (if (start + n - 1) % d == 0 then [start + n - 1] else [])
  }

  /** The completion channel (`wait`): tokens sent and not yet received. */
  class CompletionChannel {
    var pending: nat

    constructor ()
      ensures pending == 0
    {
      pending := 0;
    }

    method Send()
      modifies this
      ensures pending == old(pending) + 1
    {
      pending := pending + 1;
    }

    /** A receive; it would block on an empty channel, so it is only called
        with a token present. */
    method Receive()
      requires pending >= 1
      modifies this
      ensures pending == old(pending) - 1
    {
      pending := pending - 1;
    }
  }

  class Worker {
    /** `rateDivider`. */
    const divider: int
    /** The completion channel shared with the main loop. */
    const wait: CompletionChannel
    /** The worker's `numMessages`: lines it has handled. */
    var count: nat
    /** What the worker has printed, in order. */
    var printed: seq<string>
    /** The value of `count` at each call of `limiter.Wait`, in order. */
    var waits: seq<nat>

    constructor (divider: int, wait: CompletionChannel)
      requires divider >= 1
      ensures this.divider == divider && this.wait == wait
      ensures count == 0 && printed == [] && waits == []
    {
      this.divider := divider;
      this.wait := wait;
      count := 0;
      printed := [];
      waits := [];
    }

    /** `for msg := range msgBus`: handle every line on the channel until it
        is drained. */
    method Run(bus: Dispatcher)
      requires divider >= 1
      modifies this`count, this`printed, this`waits, wait, bus`bus
      ensures bus.bus == []
      ensures printed == old(printed) + old(bus.bus)
      ensures wait.pending == old(wait.pending) + |old(bus.bus)|
      ensures count == old(count) + |old(bus.bus)|
      ensures waits == old(waits) + WaitPoints(old(count), |old(bus.bus)|, divider)
    {
      ghost var queue := bus.bus;
      ghost var handled: nat := 0;
      while true
        invariant handled <= |queue| && bus.bus == queue[handled..]
        invariant printed == old(printed) + queue[..handled]
        invariant wait.pending == old(wait.pending) + handled
        invariant count == old(count) + handled
        invariant waits == old(waits) + WaitPoints(old(count), handled, divider)
        decreases |bus.bus|
      {
        var ok, msg := bus.Receive();
        if !ok {
          break;
        }
        assert queue[..handled + 1] == queue[..handled] + [msg];
        printed := printed + [msg];
        wait.Send();
        if count % divider == 0 {
          waits := waits + [count];
        }
        count := count + 1;
        handled := handled + 1;
      }
      assert queue[..handled] == queue;
    }
  }

  // ---------------------------------------------------------------------
  // When a worker waits

  /** A worker calls `Wait` at exactly the counts that are multiples of the
      divider, once each, in increasing order. */
  lemma {:induction false} WaitPointsAreMultiples(start: nat, n: nat, d: int)
    requires d >= 1
    ensures forall x :: x in WaitPoints(start, n, d) <==> start <= x < start + n && x % d == 0
    ensures forall i, j :: 0 <= i < j < |WaitPoints(start, n, d)| ==>
      WaitPoints(start, n, d)[i] < WaitPoints(start, n, d)[j]
  {
    if n > 0 {
      WaitPointsAreMultiples(start, n - 1, d);
      var before := WaitPoints(start, n - 1, d);
      assert forall i :: 0 <= i < |before| ==> before[i] in before;
    }
  }

  /** One more line adds a wait exactly when the count before it is a
      multiple of d, which keeps the count of waits at the ceiling. */
  lemma CeilingStep(m: nat, d: int, c: int)
    requires d >= 1 && d * (c - 1) < m <= d * c
    ensures m % d == 0 ==> d * c < m + 1 <= d * (c + 1)
    ensures m % d != 0 ==> d * (c - 1) < m + 1 <= d * c
  {
    var base := d * (c - 1);
    assert d * c == base + d;
    assert d * (c + 1) == base + 2 * d;
    var t := m - base;
    assert 0 < t <= d;
    if t < d {
      DivModUnique(m, d, c - 1, t);
    } else {
      DivModUnique(m, d, c, 0);
    }
  }

  /** A fresh worker that handles n lines waits ceil(n / d) times: the
      number c of waits is the one with d * (c - 1) < n <= d * c. */
  lemma {:induction false} WaitCountIsCeiling(n: nat, d: int)
    requires d >= 1
    ensures var c := |WaitPoints(0, n, d)|; d * (c - 1) < n <= d * c
    ensures |WaitPoints(0, n, d)| == (n + d - 1) / d
  {
    var c := |WaitPoints(0, n, d)|;
    if n > 0 {
      WaitCountIsCeiling(n - 1, d);
      CeilingStep(n - 1, d, |WaitPoints(0, n - 1, d)|);
    }
    CeilingIsQuotient(n, d, c);
  }

  /** The integer c with d * (c - 1) < n <= d * c is (n + d - 1) / d. */
  lemma CeilingIsQuotient(n: int, d: int, c: int)
    requires d >= 1 && d * (c - 1) < n <= d * c
    ensures c == (n + d - 1) / d
  {
    var r := n + d - 1 - c * d;
    assert d * (c - 1) == c * d - d;
    assert 0 <= r < d;
    DivModUnique(n + d - 1, d, c, r);
  }

  /** The first line a fresh worker handles always makes it wait, and with a
      divider of 1 every line does. */
  lemma FirstLineWaits(n: nat, d: int)
    requires d >= 1
    ensures n >= 1 ==> |WaitPoints(0, n, d)| >= 1 && WaitPoints(0, n, d)[0] == 0
    ensures d == 1 ==> |WaitPoints(0, n, d)| == n
  {
    WaitCountIsCeiling(n, d);
    WaitPointsAreMultiples(0, n, d);
    if n >= 1 {
      assert 0 in WaitPoints(0, n, d);
    }
  }
}
