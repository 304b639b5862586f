/** One SPI exchange with the chip and what the driver builds from it: the
    status decode, a single command, and the bounded drain of the receive
    FIFO.

    The bus is an oracle: the i-th exchange the driver performs gets the
    reply `env.reply(i)`, which either succeeded with a status word or
    failed, and the i-th clock reading is `env.clock(i)`. A `Trace` counts
    what has been consumed and logs the words sent and the characters
    handed to the tty layer. */
module Transport {
  import opened Words
  import opened PortState

  /** The result of spi_sync for one 16-bit word. On failure `word` is
      whatever the receive buffer happens to hold. */
  datatype Reply = Reply(ok: bool, word: Word)

  datatype Env = Env(reply: nat -> Reply, clock: nat -> int, freezing: bool)

  datatype Trace = Trace(exchanges: nat, readings: nat, sent: seq<Word>, received: seq<Byte>)

  /** Whether the i-th exchange succeeds. */
  predicate Succeeds(env: Env, i: nat)
  {
    env.reply(i).ok
  }

  /** A bus on which no exchange fails. */
  ghost predicate Reliable(env: Env)
  {
    forall i: nat :: Succeeds(env, i)
  }

  /** The character a reply carries: one when the exchange succeeded and
      the chip flagged received data (R), none otherwise. */
  function RxData(r: Reply): (cs: seq<Byte>)
    ensures |cs| <= 1
    ensures |cs| == 1 <==> r.ok && r.word & StatusR != 0
  {
    if r.ok && r.word & StatusR != 0 then [Low(r.word)] else []
  }

  /** Every character the chip reported in exchanges from..to-1, in order. */
  function Rx(env: Env, from: nat, to: nat): seq<Byte>
    decreases to - from
  {
    if from >= to then [] else RxData(env.reply(from)) + Rx(env, from + 1, to)
  }

  lemma {:induction false} RxSplit(env: Env, a: nat, b: nat, c: nat)
    requires a <= b <= c
    ensures Rx(env, a, c) == Rx(env, a, b) + Rx(env, b, c)
    decreases b - a
  {
    if a < b {
      RxSplit(env, a + 1, b, c);
    }
  }

  /** On a reliable bus, delivering the characters of two consecutive
      stretches of exchanges delivers those of the whole stretch. */
  lemma RxJoin(env: Env, t0: Trace, t1: Trace, t2: Trace)
    requires t0.exchanges <= t1.exchanges <= t2.exchanges
    requires Reliable(env) ==> t1.received == t0.received + Rx(env, t0.exchanges, t1.exchanges)
    requires Reliable(env) ==> t2.received == t1.received + Rx(env, t1.exchanges, t2.exchanges)
    ensures Reliable(env) ==> t2.received == t0.received + Rx(env, t0.exchanges, t2.exchanges)
  {
    RxSplit(env, t0.exchanges, t1.exchanges, t2.exchanges);
  }

  lemma RxOne(env: Env, a: nat)
    ensures Rx(env, a, a + 1) == RxData(env.reply(a))
  {
  }

  datatype Exchanged = Exchanged(reply: Reply, trace: Trace)

  /** One spi_sync: sends `w` and takes the next reply from the oracle. */
  function Exchange(env: Env, t: Trace, w: Word): (r: Exchanged)
    ensures r.reply == env.reply(t.exchanges)
    ensures r.trace == t.(exchanges := t.exchanges + 1, sent := t.sent + [w])
  {
    Exchanged(env.reply(t.exchanges), t.(exchanges := t.exchanges + 1, sent := t.sent + [w]))
  }

  datatype Reading = Reading(now: int, trace: Trace)

  /** getrawmonotonic. */
  function Clock(env: Env, t: Trace): (r: Reading)
    ensures r.now == env.clock(t.readings)
    ensures r.trace == t.(readings := t.readings + 1)
  {
    Reading(env.clock(t.readings), t.(readings := t.readings + 1))
  }

  /** Status decode after an exchange (max3140_sr1): a successful reply
      refreshes both cached flags from its R and T bits, a failed one
      leaves them alone. */
  function Sr1(run: RunFlags, r: Reply): (run': RunFlags)
  {
    if r.ok then RunFlags(rxPending := r.word & StatusR != 0, txEmpty := r.word & StatusT != 0)
    else run
  }

  /** Decoding a status word laid out as the chip sends it gives back the
      chip's two flags; a failed exchange decodes to the old flags. */
  lemma Sr1Decodes(run: RunFlags, rxReady: bool, txEmpty: bool, data: Byte, garbage: Word)
    ensures Sr1(run, Reply(true, StatusWord(rxReady, txEmpty, data))) == RunFlags(rxReady, txEmpty)
    ensures RxData(Reply(true, StatusWord(rxReady, txEmpty, data))) == if rxReady then [data] else []
    ensures Sr1(run, Reply(false, garbage)) == run
  {
    StatusWordFields(rxReady, txEmpty, data);
  }

  /** The cached chip status after the exchanges numbered `lo` up to
      `hi`, each decoded in turn, starting from `run`. */
  function Status(run: RunFlags, env: Env, lo: nat, hi: nat): (r: RunFlags)
    decreases hi
  {
    if hi <= lo then run else Sr1(Status(run, env, lo, hi - 1), env.reply(hi - 1))
  }

  /** Decoding a stretch of exchanges is decoding its first part, then the
      rest. */
  lemma {:induction false} StatusSplit(run: RunFlags, env: Env, a: nat, b: nat, c: nat)
    requires a <= b <= c
    ensures Status(run, env, a, c) == Status(Status(run, env, a, b), env, b, c)
    decreases c
  {
    if b < c {
      StatusSplit(run, env, a, b, c - 1);
    }
  }

  /** The status after a stretch of exchanges is what the last successful
      one reported; with none successful it is the status before them. */
  lemma {:induction false} StatusIsLastSuccess(run: RunFlags, env: Env, lo: nat, hi: nat)
    requires lo <= hi
    ensures (forall j :: lo <= j < hi ==> !env.reply(j).ok) ==> Status(run, env, lo, hi) == run
    ensures forall i :: lo <= i < hi && env.reply(i).ok && (forall j :: i < j < hi ==> !env.reply(j).ok) ==>
              Status(run, env, lo, hi) == RunFlags(env.reply(i).word & StatusR != 0, env.reply(i).word & StatusT != 0)
    decreases hi
  {
    if lo < hi {
      StatusIsLastSuccess(run, env, lo, hi - 1);
    }
  }

  datatype Commanded = Commanded(run: RunFlags, trace: Trace)

  /** max3140_cmd: sends one command word; a character the chip returns
      with it goes to the tty layer. */
  function Cmd(run: RunFlags, env: Env, t: Trace, w: Word): (r: Commanded)
    ensures r.trace.exchanges == t.exchanges + 1 && r.trace.readings == t.readings
    ensures r.trace.sent == t.sent + [w]
    ensures r.trace.received == t.received + Rx(env, t.exchanges, t.exchanges + 1)
    ensures r.run == Sr1(run, env.reply(t.exchanges))
  {
    var e := Exchange(env, t, w);
    var run' := Sr1(run, e.reply);
    RxOne(env, t.exchanges);
    if !e.reply.ok then Commanded(run', e.trace)
    else if run'.rxPending then Commanded(run', e.trace.(received := e.trace.received + [Low(e.reply.word)]))
    else Commanded(run', e.trace)
  }

  /** Depth of the chip's receive FIFO: the most one drain reads. */
  const RxFifoLen: nat := 8

  /** Whether a reply is a successful one with received data. */
  predicate Ready(r: Reply)
  {
    r.ok && r.word & StatusR != 0
  }

  /** Number of consecutive ready replies starting at exchange `start`,
      counting at most `n`. */
  function ReadyRun(env: Env, start: nat, n: nat): (k: nat)
    ensures k <= n
    decreases n
  {
    if n == 0 then 0
    else if Ready(env.reply(start)) then 1 + ReadyRun(env, start + 1, n - 1)
    else 0
  }

  /** `n` read-data command words. */
  function Reads(n: nat): (ws: seq<Word>)
    ensures |ws| == n && forall i :: 0 <= i < n ==> ws[i] == ReadData
  {
    seq(n, i => ReadData)
  }

  datatype Drained = Drained(run: RunFlags, trace: Trace, count: nat)

  /** Replies a drain that has read `i` characters will still use. */
  function DrainLength(env: Env, start: nat, i: nat): nat
    requires i <= RxFifoLen
  {
    var k := ReadyRun(env, start, RxFifoLen - i);
    if i + k < RxFifoLen then k + 1 else k
  }

  /** Whether that drain stops at a failed exchange. */
  predicate DrainFails(env: Env, start: nat, i: nat)
    requires i <= RxFifoLen
  {
    var k := ReadyRun(env, start, RxFifoLen - i);
    i + k < RxFifoLen && !env.reply(start + k).ok
  }

  /** The result of a drain that starts with the characters `acc` already
      read. */
  predicate DrainOutcome(run: RunFlags, env: Env, t: Trace, acc: seq<Byte>, r: Drained)
    requires |acc| <= RxFifoLen
  {
    var i := |acc|;
    var k := ReadyRun(env, t.exchanges, RxFifoLen - i);
    var used := DrainLength(env, t.exchanges, i);
    && r.count == (if DrainFails(env, t.exchanges, i) then 0 else i + k)
    && (!DrainFails(env, t.exchanges, i) ==> r.run.rxPending == (i + k == RxFifoLen))
    && r.trace.exchanges == t.exchanges + used
    && r.trace.sent == t.sent + Reads(used)
    && r.trace.readings == t.readings
    && r.trace.received == t.received + (if DrainFails(env, t.exchanges, i) then [] else acc + Rx(env, t.exchanges, t.exchanges + used))
  }

  /** max3140_read_fifo: reads until the chip stops reporting data, at most
      RxFifoLen times. The characters go to the tty layer together at the
      end; a failed exchange abandons the drain, delivers nothing and
      reports zero. */
  function ReadFifo(run: RunFlags, env: Env, t: Trace): (r: Drained)
    ensures DrainOutcome(run, env, t, [], r)
    ensures r.count <= RxFifoLen
    ensures 1 <= r.trace.exchanges - t.exchanges <= RxFifoLen
  {
    var r := DrainFrom(run, env, t, []);
    DrainFromOutcome(run, env, t, []);
    r
  }

  function DrainFrom(run: RunFlags, env: Env, t: Trace, acc: seq<Byte>): (r: Drained)
    requires |acc| <= RxFifoLen
    decreases RxFifoLen - |acc|
  {
    if |acc| == RxFifoLen then
      Drained(run, t.(received := t.received + acc), RxFifoLen)
    else
      var e := Exchange(env, t, ReadData);
      if !e.reply.ok then
        Drained(run, e.trace, 0)
      else
        var run' := Sr1(run, e.reply);
        if run'.rxPending then
          DrainFrom(run', env, e.trace, acc + [Low(e.reply.word)])
        else
          Drained(run', e.trace.(received := e.trace.received + acc), |acc|)
  }

  lemma {:induction false} DrainFromOutcome(run: RunFlags, env: Env, t: Trace, acc: seq<Byte>)
    requires |acc| <= RxFifoLen
    requires |acc| > 0 ==> run.rxPending
    ensures DrainOutcome(run, env, t, acc, DrainFrom(run, env, t, acc))
    decreases RxFifoLen - |acc|
  {
    if |acc| < RxFifoLen {
      var e := Exchange(env, t, ReadData);
      if !Ready(e.reply) {
        DrainStops(run, env, t, acc);
      } else {
        var run' := Sr1(run, e.reply);
        var acc' := acc + [Low(e.reply.word)];
        DrainFromOutcome(run', env, e.trace, acc');
        assert DrainFrom(run, env, t, acc) == DrainFrom(run', env, e.trace, acc');
        DrainContinues(env, t, acc, Low(e.reply.word), DrainFrom(run', env, e.trace, acc'));
      }
    }
  }

  /** A drain leaves the status its exchanges decode to. */
  lemma {:induction false} DrainFromStatus(run: RunFlags, env: Env, t: Trace, acc: seq<Byte>)
    requires |acc| <= RxFifoLen
    ensures var r := DrainFrom(run, env, t, acc);
            r.trace.exchanges >= t.exchanges && r.run == Status(run, env, t.exchanges, r.trace.exchanges)
    decreases RxFifoLen - |acc|
  {
    if |acc| < RxFifoLen {
      var e := Exchange(env, t, ReadData);
      var run' := Sr1(run, e.reply);
      if e.reply.ok && run'.rxPending {
        var acc' := acc + [Low(e.reply.word)];
        DrainFromStatus(run', env, e.trace, acc');
        StatusSplit(run, env, t.exchanges, t.exchanges + 1, DrainFrom(run', env, e.trace, acc').trace.exchanges);
      }
    }
  }

  /** The drain ends at a reply that failed or carries no data. */
  lemma DrainStops(run: RunFlags, env: Env, t: Trace, acc: seq<Byte>)
    requires |acc| < RxFifoLen
    requires !Ready(env.reply(t.exchanges))
    ensures DrainOutcome(run, env, t, acc, DrainFrom(run, env, t, acc))
  {
    RxOne(env, t.exchanges);
  }

  /** A ready reply adds its character `c` and the drain goes on from the
      next exchange: whatever the rest of the drain `r` does, it does for
      the whole drain. */
  lemma DrainContinues(env: Env, t: Trace, acc: seq<Byte>, c: Byte, r: Drained)
    requires |acc| < RxFifoLen
    requires Ready(env.reply(t.exchanges)) && c == Low(env.reply(t.exchanges).word)
    requires DrainOutcome(r.run, env, t.(exchanges := t.exchanges + 1, sent := t.sent + [ReadData]), acc + [c], r)
    ensures DrainOutcome(r.run, env, t, acc, r)
  {
    DrainShift(env, t.exchanges, |acc|);
    var rest := DrainLength(env, t.exchanges + 1, |acc| + 1);
    ReadsCons(t.sent, rest);
    RxCons(env, t.exchanges, rest, acc, c);
  }

  lemma ReadsCons(sent: seq<Word>, n: nat)
    ensures sent + [ReadData] + Reads(n) == sent + Reads(n + 1)
  {
    assert [ReadData] + Reads(n) == Reads(n + 1);
  }

  lemma RxCons(env: Env, start: nat, n: nat, acc: seq<Byte>, c: Byte)
    requires Ready(env.reply(start)) && c == Low(env.reply(start).word)
    ensures acc + [c] + Rx(env, start + 1, start + 1 + n) == acc + Rx(env, start, start + 1 + n)
  {
    RxOne(env, start);
    RxSplit(env, start, start + 1, start + 1 + n);
  }

  /** After a ready reply the rest of the drain is the same drain one
      reply later with one more character read. */
  lemma DrainShift(env: Env, start: nat, i: nat)
    requires i < RxFifoLen && Ready(env.reply(start))
    ensures ReadyRun(env, start, RxFifoLen - i) == 1 + ReadyRun(env, start + 1, RxFifoLen - (i + 1))
    ensures DrainLength(env, start, i) == 1 + DrainLength(env, start + 1, i + 1)
    ensures DrainFails(env, start, i) == DrainFails(env, start + 1, i + 1)
  {
  }
}
