/** The frame, second and sequence counters of the three VDIF send loops.
    Both send_vdif_std_mtu_sync_seq.py copies wrap the frame counter when it
    becomes equal to the frame rate; sim_send_vdif/send.py wraps it when it
    reaches or passes the rate, and always counts sequence numbers. */
module FrameClock {
  import opened Bytes

  /** The loop variables: `frame_within_sec` (or `frame`), `secs_from_ref`
      (or `second`) and `seqno` (or `seq`). */
  datatype Clock = Clock(frame: int, second: int, seqno: int)

  /** The end of one iteration in send_vdif_std_mtu_sync_seq.py. */
  function Tick(c: Clock, fps: int, seqOn: bool): Clock {
    var n := if seqOn then c.seqno + 1 else c.seqno;
    if c.frame + 1 == fps then Clock(0, c.second + 1, n) else Clock(c.frame + 1, c.second, n)
  }

  /** The end of one iteration in send.py. */
  function TickAtLeast(c: Clock, fps: int): Clock {
    if c.frame + 1 >= fps then Clock(0, c.second + 1, c.seqno + 1) else Clock(c.frame + 1, c.second, c.seqno + 1)
  }

  /** The counters after `k` packets. */
  function Run(c: Clock, fps: int, seqOn: bool, k: nat): Clock
    decreases k
  {
    if k == 0 then c else Tick(Run(c, fps, seqOn, k - 1), fps, seqOn)
  }

  function RunAtLeast(c: Clock, fps: int, k: nat): Clock
    decreases k
  {
    if k == 0 then c else TickAtLeast(RunAtLeast(c, fps, k - 1), fps)
  }

  /** Running `k` packets after the first one is running `k + 1` packets. */
  lemma {:induction false} RunShift(c: Clock, fps: int, seqOn: bool, k: nat)
    ensures Run(Tick(c, fps, seqOn), fps, seqOn, k) == Run(c, fps, seqOn, k + 1)
  {
    if k > 0 {
      RunShift(c, fps, seqOn, k - 1);
    }
  }

  /** For a rate of at least one frame per second a frame counter in
      `[0, fps)` stays there, and the second advances exactly on the wrap. */
  lemma {:induction false} TickInRange(c: Clock, fps: int, seqOn: bool)
    requires fps >= 1 && 0 <= c.frame < fps
    ensures var t := Tick(c, fps, seqOn);
      0 <= t.frame < fps && (t.second == c.second + 1 <==> c.frame == fps - 1) &&
      (t.second == c.second <==> c.frame != fps - 1)
  {
  }

  /** The sequence number counts the packets sent in sequence mode and stays
      put otherwise. */
  lemma {:induction false} RunSeqno(c: Clock, fps: int, seqOn: bool, k: nat)
    ensures Run(c, fps, seqOn, k).seqno == c.seqno + (if seqOn then k else 0)
  {
    if k > 0 {
      RunSeqno(c, fps, seqOn, k - 1);
    }
  }

  /** After `k` packets the frame counter is `(frame + k) mod fps` and the
      second has advanced by `(frame + k) div fps`. */
  lemma {:induction false} RunClosedForm(c: Clock, fps: int, seqOn: bool, k: nat)
    requires fps >= 1 && 0 <= c.frame < fps
    ensures Run(c, fps, seqOn, k).frame == (c.frame + k) % fps
    ensures Run(c, fps, seqOn, k).second == c.second + (c.frame + k) / fps
  {
    if k > 0 {
      RunClosedForm(c, fps, seqOn, k - 1);
      WrapStep(c.frame + k - 1, fps);
    }
  }

  /** Counting one more: the remainder wraps to zero exactly when it would
      reach the divisor, and then the quotient goes up by one. */
  lemma {:induction false} WrapStep(x: int, fps: int)
    requires fps >= 1
    ensures var r := x % fps;
      (x + 1) % fps == (if r + 1 == fps then 0 else r + 1) &&
      (x + 1) / fps == x / fps + (if r + 1 == fps then 1 else 0)
  {
    var q, r := x / fps, x % fps;
    assert x == q * fps + r;
    if r + 1 == fps {
      assert x + 1 == (q + 1) * fps;
      DivModUnique(x + 1, fps, q + 1, 0);
    } else {
      DivModUnique(x + 1, fps, q, r + 1);
    }
  }

  /** While the frame counter is in range the `>=` test of send.py and the
      `==` test of the other loops agree. */
  lemma {:induction false} TicksAgree(c: Clock, fps: int)
    requires fps >= 1 && 0 <= c.frame < fps
    ensures TickAtLeast(c, fps) == Tick(c, fps, true)
  {
  }

  lemma {:induction false} RunsAgree(c: Clock, fps: int, k: nat)
    requires fps >= 1 && 0 <= c.frame < fps
    ensures RunAtLeast(c, fps, k) == Run(c, fps, true, k)
    ensures 0 <= RunAtLeast(c, fps, k).frame < fps
  {
    if k > 0 {
      RunsAgree(c, fps, k - 1);
      TickInRange(Run(c, fps, true, k - 1), fps, true);
      TicksAgree(Run(c, fps, true, k - 1), fps);
    }
  }

  /** In send.py every packet, whatever the rate, takes the next sequence
      number. */
  lemma {:induction false} RunAtLeastSeqno(c: Clock, fps: int, k: nat)
    ensures RunAtLeast(c, fps, k).seqno == c.seqno + k
  {
    if k > 0 {
      RunAtLeastSeqno(c, fps, k - 1);
    }
  }

  /** In send.py a rate of zero or less makes every packet start a new
      second. */
  lemma {:induction false} NonPositiveRate(c: Clock, fps: int, k: nat)
    requires fps <= 0 && c.frame >= 0 && k >= 1
    ensures RunAtLeast(c, fps, k) == Clock(0, c.second + k, c.seqno + k)
  {
    if k > 1 {
      NonPositiveRate(c, fps, k - 1);
    }
  }

  /** From a fresh start the seconds never go backwards. */
  lemma {:induction false} SecondsMonotone(c: Clock, fps: int, j: nat, k: nat)
    requires j <= k
    ensures RunAtLeast(c, fps, j).second <= RunAtLeast(c, fps, k).second
  {
    if j < k {
      SecondsMonotone(c, fps, j, k - 1);
    }
  }
}
