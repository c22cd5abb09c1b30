/**
 * The keep-alive ping: byte 0x94 goes out when more than `kPingInterval` milliseconds
 * have passed since the last printable key or the last ping, measured with 32-bit
 * unsigned subtraction so that the rule survives the wrap of `millis()`.
 */
module KeepAlive {
  import opened Base

  const PING: byte := 0x94
  const PING_INTERVAL: u32 := 3700

  /** `now - since` on `unsigned long`: the difference modulo 2^32. */
  function Elapsed(now: u32, since: u32): (r: u32)
    ensures now >= since ==> r as int == now as int - since as int
    ensures now < since ==> r as int == now as int - since as int + 0x1_0000_0000
    ensures r == 0 <==> now == since
  {
    ((now as int - since as int) % 0x1_0000_0000) as u32
  }

  /** The test `millis() - last_ping > kPingInterval`; strict, so 3700 ms exactly is not enough. */
  predicate PingDue(now: u32, last: u32)
    ensures PingDue(now, last) ==> now != last
  {
    Elapsed(now, last) > PING_INTERVAL
  }

  /** `t + d` on `unsigned long`, wrapping modulo 2^32. */
  function After(t: u32, d: nat): (r: u32)
    ensures Elapsed(r, t) as int == d % 0x1_0000_0000
  {
    ((t as int + d) % 0x1_0000_0000) as u32
  }

  /** Exactly 3700 ms after `last` is not yet due; 3701 ms is, also across the wrap of the clock. */
  lemma PingBoundary(last: u32)
    ensures !PingDue(After(last, 3700), last)
    ensures PingDue(After(last, 3701), last)
  {
  }

  /**
   * The instants at which loop iterations at times `nows` send a ping when no key
   * resolves to a character: each ping moves `last_ping` to its own instant.
   */
  function PingTimes(last: u32, nows: seq<u32>): (p: seq<u32>)
    ensures |p| <= |nows|
    decreases |nows|
  {
    if nows == [] then []
    else if PingDue(nows[0], last) then [nows[0]] + PingTimes(nows[0], nows[1..])
    else PingTimes(last, nows[1..])
  }

  /** `last_ping` after those iterations: the last ping's instant, or `last` if none was sent. */
  function LastPingAfter(last: u32, nows: seq<u32>): (r: u32)
    ensures r == last || r in nows
    decreases |nows|
  {
    if nows == [] then last
    else if PingDue(nows[0], last) then LastPingAfter(nows[0], nows[1..])
    else LastPingAfter(last, nows[1..])
  }

  /** The positions in `nows` of the iterations that send a ping. */
  function PingIndices(last: u32, nows: seq<u32>): seq<nat>
    decreases |nows|
  {
    if nows == [] then []
    else
      var due := PingDue(nows[0], last);
      var rest := PingIndices(if due then nows[0] else last, nows[1..]);
      var shifted := seq(|rest|, k requires 0 <= k < |rest| => rest[k] + 1);
      if due then [0] + shifted else shifted
  }

  /** One more iteration adds a ping exactly when it is due against the `last_ping` reached so far. */
  lemma {:induction false} PingTimesSnoc(last: u32, nows: seq<u32>, t: u32)
    ensures var prior := LastPingAfter(last, nows);
      PingTimes(last, nows + [t]) == PingTimes(last, nows) + (if PingDue(t, prior) then [t] else []) &&
      LastPingAfter(last, nows + [t]) == (if PingDue(t, prior) then t else prior)
    decreases |nows|
  {
    if nows == [] {
      assert [] + [t] == [t] && [t][1..] == [];
    } else {
      assert (nows + [t])[0] == nows[0];
      assert (nows + [t])[1..] == nows[1..] + [t];
      PingTimesSnoc(if PingDue(nows[0], last) then nows[0] else last, nows[1..], t);
    }
  }

  /**
   * Pings happen only at iteration instants, at most one per iteration and in order:
   * the ping instants are the iterations at strictly increasing positions of `nows`.
   */
  lemma PingTimesFromRun(last: u32, nows: seq<u32>)
    ensures var p, idx := PingTimes(last, nows), PingIndices(last, nows);
      |idx| == |p| &&
      (forall i :: 0 <= i < |idx| ==> idx[i] < |nows| && p[i] == nows[idx[i]]) &&
      (forall i, j :: 0 <= i < j < |idx| ==> idx[i] < idx[j])
  {
    PingIndicesSelect(last, nows);
    PingIndicesIncrease(last, nows);
  }

  lemma {:induction false} PingIndicesSelect(last: u32, nows: seq<u32>)
    ensures var p, idx := PingTimes(last, nows), PingIndices(last, nows);
      |idx| == |p| && forall i :: 0 <= i < |idx| ==> idx[i] < |nows| && p[i] == nows[idx[i]]
    decreases |nows|
  {
    if nows != [] {
      var due := PingDue(nows[0], last);
      var next := if due then nows[0] else last;
      PingIndicesSelect(next, nows[1..]);
      var rest, restP := PingIndices(next, nows[1..]), PingTimes(next, nows[1..]);
      var shifted := seq(|rest|, k requires 0 <= k < |rest| => rest[k] + 1);
      assert forall k :: 0 <= k < |rest| ==> shifted[k] < |nows| && nows[shifted[k]] == restP[k];
      if due {
        var idx, p := [0] + shifted, [nows[0]] + restP;
        assert PingIndices(last, nows) == idx && PingTimes(last, nows) == p;
        assert forall i :: 1 <= i < |idx| ==> idx[i] == shifted[i - 1] && p[i] == restP[i - 1];
      } else {
        assert PingIndices(last, nows) == shifted;
      }
    }
  }

  lemma {:induction false} PingIndicesIncrease(last: u32, nows: seq<u32>)
    ensures forall i, j :: 0 <= i < j < |PingIndices(last, nows)| ==>
      PingIndices(last, nows)[i] < PingIndices(last, nows)[j]
    decreases |nows|
  {
    if nows != [] {
      var due := PingDue(nows[0], last);
      var next := if due then nows[0] else last;
      PingIndicesIncrease(next, nows[1..]);
      var rest := PingIndices(next, nows[1..]);
      var shifted := seq(|rest|, k requires 0 <= k < |rest| => rest[k] + 1);
      forall i, j | 0 <= i < j < |shifted|
        ensures shifted[i] < shifted[j]
      {
        assert rest[i] < rest[j];
      }
      if due {
        var idx := [0] + shifted;
        assert PingIndices(last, nows) == idx;
        assert forall i :: 1 <= i < |idx| ==> idx[i] == shifted[i - 1] && idx[i] >= 1;
      } else {
        assert PingIndices(last, nows) == shifted;
      }
    }
  }

  /**
   * The first ping is sent at the first iteration that is due, and at no earlier one.
   */
  lemma {:induction false} PingAtFirstDue(last: u32, nows: seq<u32>, k: nat)
    requires k < |nows| && PingDue(nows[k], last)
    requires forall j :: 0 <= j < k ==> !PingDue(nows[j], last)
    ensures PingTimes(last, nows) != [] && PingTimes(last, nows)[0] == nows[k]
    ensures PingIndices(last, nows) != [] && PingIndices(last, nows)[0] == k
    decreases k
  {
    if k > 0 {
      assert forall j :: 0 <= j < k - 1 ==> nows[1..][j] == nows[j + 1];
      PingAtFirstDue(last, nows[1..], k - 1);
      var rest := PingIndices(last, nows[1..]);
      assert PingIndices(last, nows) == seq(|rest|, i requires 0 <= i < |rest| => rest[i] + 1);
    }
  }

  /**
   * The first ping comes more than one interval after `last`, and every later ping more
   * than one interval after the one before it.
   */
  lemma {:induction false} PingsSpaced(last: u32, nows: seq<u32>)
    ensures var p := PingTimes(last, nows);
      (|p| > 0 ==> Elapsed(p[0], last) > PING_INTERVAL) &&
      forall i :: 0 <= i < |p| - 1 ==> Elapsed(p[i + 1], p[i]) > PING_INTERVAL
    decreases |nows|
  {
    if nows != [] {
      if PingDue(nows[0], last) {
        PingsSpaced(nows[0], nows[1..]);
        var rest := PingTimes(nows[0], nows[1..]);
        assert PingTimes(last, nows) == [nows[0]] + rest;
      } else {
        PingsSpaced(last, nows[1..]);
      }
    }
  }

  /** While no iteration is more than one interval after `last`, no ping is sent. */
  lemma {:induction false} QuietWithinInterval(last: u32, nows: seq<u32>)
    requires forall i :: 0 <= i < |nows| ==> !PingDue(nows[i], last)
    ensures PingTimes(last, nows) == []
    decreases |nows|
  {
    if nows != [] {
      assert forall i :: 0 <= i < |nows| - 1 ==> nows[1..][i] == nows[i + 1];
      QuietWithinInterval(last, nows[1..]);
    }
  }

  /** A ping is sent once some iteration comes more than one interval after `last`. */
  lemma {:induction false} PingEventuallySent(last: u32, nows: seq<u32>)
    requires exists i :: 0 <= i < |nows| && PingDue(nows[i], last)
    ensures PingTimes(last, nows) != []
    decreases |nows|
  {
    if !PingDue(nows[0], last) {
      var i :| 0 <= i < |nows| && PingDue(nows[i], last);
      assert nows[1..][i - 1] == nows[i];
      PingEventuallySent(last, nows[1..]);
    }
  }
}
