/** Driver-enable timing. After every character written to the chip the
    driver pushes forward a deadline until which the RS-485 driver must
    stay on; times are monotonic-clock nanoseconds. */
module Timing {

  /** Nanoseconds the driver stays on per character: bits per character at
      `baud`, computed as the driver does, in whole microseconds first
      (1000000 * bits / baud, truncated) and then scaled to nanoseconds. */
  function HoldTime(bits: nat, baud: int): (ns: int)
    requires baud > 0
    ensures ns >= 0 && ns % 1000 == 0
  {
    var us := 1000000 * bits / baud;
    DivBounds(1000000 * bits, baud, us);
    us * 1000
  }

  /** The hold time is never more than the exact character time
      bits * 10^9 / baud and less than 1000 ns below it. */
  lemma HoldTimeBounds(bits: nat, baud: int)
    requires baud > 0
    ensures HoldTime(bits, baud) * baud <= bits * 1000000000
    ensures bits * 1000000000 < (HoldTime(bits, baud) + 1000) * baud
  {
    DivBounds(1000000 * bits, baud, 1000000 * bits / baud);
  }

  lemma DivBounds(a: nat, b: int, q: int)
    requires b > 0 && q == a / b
    ensures q >= 0
    ensures q * 1000 * b <= a * 1000
    ensures a * 1000 < (q * 1000 + 1000) * b
  {
    assert q * b <= a < q * b + b;
    assert q * 1000 * b == (q * b) * 1000;
    assert (q * 1000 + 1000) * b == (q * b + b) * 1000;
  }

  /** The hold time is positive for every frame of at least nine bits at
      any rate the chip can produce. */
  lemma HoldTimePositive(bits: nat, baud: int)
    requires 9 <= bits && 0 < baud <= 230400
    ensures HoldTime(bits, baud) > 0
  {
    assert 1000000 * bits >= baud;
  }

  /** 8N1 at 9600 baud: ten bits hold the driver for 1041 us, 666 ns short
      of the exact 1041666.6 ns. */
  lemma HoldTime9600Example()
    ensures HoldTime(10, 9600) == 1041000
    ensures HoldTime(10, 9600) * 9600 < 10 * 1000000000
  {
    HoldTimeBounds(10, 9600);
  }

  /** The deadline after a character completes at `now`: the hold time is
      added to the old deadline if that is still ahead, else to `now`. */
  function NextDeadline(deadline: int, now: int, hold: int): (d: int)
    requires hold >= 0
    ensures d >= deadline + hold && d >= now + hold
    ensures d == deadline + hold || d == now + hold
  {
    (if deadline > now then deadline else now) + hold
  }

  /** The deadline after a burst of characters completing at `times`. */
  function Burst(deadline: int, times: seq<int>, hold: int): (d: int)
    requires hold >= 0
    ensures d >= deadline
  {
    if times == [] then deadline
    else NextDeadline(Burst(deadline, times[..|times| - 1], hold), times[|times| - 1], hold)
  }

  /** In a burst every character gets a full hold time of its own: the
      final deadline lies at least one hold time per remaining character
      after each completion time, and at least one per character after the
      starting deadline. */
  lemma {:induction false} BurstCoversEveryCharacter(deadline: int, times: seq<int>, hold: int)
    requires hold >= 0
    ensures Burst(deadline, times, hold) >= deadline + |times| * hold
    ensures forall i :: 0 <= i < |times| ==> Burst(deadline, times, hold) >= times[i] + (|times| - i) * hold
  {
    if times != [] {
      var n := |times|;
      var init := times[..n - 1];
      BurstCoversEveryCharacter(deadline, init, hold);
      var b := Burst(deadline, init, hold);
      assert Burst(deadline, times, hold) >= b + hold;
      assert (n - 1) * hold + hold == n * hold;
      forall i | 0 <= i < n
        ensures Burst(deadline, times, hold) >= times[i] + (n - i) * hold
      {
        if i < n - 1 {
          assert init[i] == times[i];
          assert (n - 1 - i) * hold + hold == (n - i) * hold;
        }
      }
    }
  }

  /** A burst is its first character followed by the rest of the burst
      starting from the deadline that character set. */
  lemma {:induction false} BurstCons(deadline: int, first: int, rest: seq<int>, hold: int)
    requires hold >= 0
    ensures Burst(deadline, [first] + rest, hold) == Burst(NextDeadline(deadline, first, hold), rest, hold)
    decreases |rest|
  {
    if rest != [] {
      var n := |rest|;
      assert ([first] + rest)[..n] == [first] + rest[..n - 1];
      BurstCons(deadline, first, rest[..n - 1], hold);
    }
  }
}
