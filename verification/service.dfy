/** max3140_send_and_receive: the worker's service loop. Each round drains
    the receive FIFO, then, if the chip's transmit buffer is empty, writes
    one character with the RS-485 driver forced on and pushes the
    driver-enable deadline forward by one character time. When that
    character was the last one the tty layer had for the chip, the worker
    waits for the deadline and switches the driver off. */
module Service {
  import opened Words
  import opened Parity
  import opened PortState
  import opened Transport
  import Xmit
  import Timing

  /** The word that writes `ch`: the character cut to its data bits with
      its parity bit, a write-data operation, and RTS at the level that
      keeps the RS-485 driver on. */
  function TxWord(p: ParityMode, invertRts: bool, ch: Byte): (w: Word)
    ensures w & WriteConf == WriteData
    ensures w & TE == 0
    ensures DriverOn(invertRts, w)
    ensures w & DataMask(p) == (ch as Word) & DataMask(p)
  {
    var c := CalcParity(p, ch as Word);
    TxWordFields(p, c, SetRts(invertRts, false));
    c | WriteData | SetRts(invertRts, false)
  }

  /** With parity on, a receiver checking the parity bit of the word the
      driver sends finds it right. */
  lemma TxWordCarriesParity(p: ParityMode, invertRts: bool, ch: Byte)
    requires p.on
    ensures CheckParity(p, TxWord(p, invertRts, ch))
  {
    TxWordFramed(p, invertRts, ch);
    TxWordParity(p, ch as Word, TxWord(p, invertRts, ch));
  }

  /** The word sent carries the framed character's data bits and bit 8. */
  lemma TxWordFramed(p: ParityMode, invertRts: bool, ch: Byte)
    ensures var w := TxWord(p, invertRts, ch);
            && w & DataMask(p) == CalcParity(p, ch as Word) & DataMask(p)
            && ReceivedParity(w) == ReceivedParity(CalcParity(p, ch as Word))
  {
    TxWordFields(p, CalcParity(p, ch as Word), SetRts(invertRts, false));
  }

  /** Setting the operation and RTS bits leaves the data bits and bit 8 of
      a framed character alone. */
  lemma TxWordFields(p: ParityMode, c: Word, rts: Word)
    requires c & !(DataMask(p) | PT) == 0 && rts & !RTS == 0
    ensures var w := c | WriteData | rts;
            && w & DataMask(p) == c & DataMask(p)
            && ReceivedParity(w) == ReceivedParity(c)
            && w & WriteConf == WriteData && w & TE == 0
            && (w & RTS != 0) == (rts & RTS != 0)
  {
  }

  lemma TxWordParity(p: ParityMode, ch: Word, w: Word)
    requires w & DataMask(p) == CalcParity(p, ch) & DataMask(p)
    requires ReceivedParity(w) == ReceivedParity(CalcParity(p, ch))
    ensures p.on ==> CheckParity(p, w)
  {
    if p.on {
      ParityRoundTrip(p, ch);
      ParityIgnoresUpperBits(p, w, CalcParity(p, ch));
    }
  }

  /** What the service loop reads from the port but never writes: the word
      that writes each character (TxWord under the port's software parity
      and RTS polarity), the RTS polarity, the hold time per character, the
      tty layer's stop, and the two requests that end the loop (a pending
      driver switch-off and the end of the worker). */
  datatype Setup = Setup(frame: Byte -> Word, invertRts: bool, rtsSleep: nat, txStopped: bool,
                         disableRequested: bool, forceEndWork: bool)

  /** What the service loop changes: the cached chip status, the
      driver-enable deadline and the transmit side. */
  datatype Link = Link(run: RunFlags, deadline: int, xmit: Xmit.Queue, xChar: Byte, txCount: nat)

  /** The character picked for the next write, if any. */
  datatype Pick = NoTx | Tx(ch: Byte, fromQueue: bool, link: Link)

  /** The transmit choice: a pending high-priority character (x_char) goes
      first; otherwise the oldest byte of the transmit buffer, unless the
      buffer is empty or the tty layer stopped output. Either way the
      transmit count goes up by one. */
  function PickTx(c: Setup, l: Link): (r: Pick)
    requires Xmit.Valid(l.xmit)
    ensures l.xChar != 0 ==>
              r == Tx(l.xChar, false, l.(xChar := 0, txCount := l.txCount + 1))
    ensures l.xChar == 0 && !Xmit.Empty(l.xmit) && !c.txStopped ==>
              && r.Tx? && r.fromQueue
              && Xmit.Valid(r.link.xmit)
              && [r.ch] + Xmit.Contents(r.link.xmit) == Xmit.Contents(l.xmit)
              && r.link == l.(xmit := r.link.xmit, txCount := l.txCount + 1)
    ensures l.xChar == 0 && (Xmit.Empty(l.xmit) || c.txStopped) ==> r == NoTx
  {
    if l.xChar != 0 then
      Tx(l.xChar, false, l.(xChar := 0, txCount := l.txCount + 1))
    else if !Xmit.Empty(l.xmit) && !c.txStopped then
      var p := Xmit.Pop(l.xmit);
      Tx(p.ch, true, l.(xmit := p.rest, txCount := l.txCount + 1))
    else
      NoTx
  }

  /** What became of the driver after a character: left on for the next
      one, or switched off at time `at`. */
  datatype Disable = StaysOn | Off(at: int)

  /** One character written to the chip: the byte, whether it came from
      the transmit buffer, the word sent, the clock reading right after the
      exchange, the deadline it set, and the driver switch-off if any. */
  datatype TxRecord = TxRecord(ch: Byte, fromQueue: bool, word: Word, done: int, deadline: int, disable: Disable)

  /** Characters the transmit step hands to the tty layer: the one the chip
      returned with the data word, then the one it returned with the
      disable command, each only when that exchange succeeded with R set. */
  function Delivered(d: Reply, c: Reply, disable: bool): (cs: seq<Byte>)
    ensures |cs| <= (if disable then 2 else 1)
  {
    RxData(d) + (if disable then RxData(c) else [])
  }

  /** The transmit step delivers exactly the characters the chip reported
      in its one or two exchanges, in the order it reported them. */
  lemma DeliveredFollowsChip(env: Env, i: nat, disable: bool)
    ensures Delivered(env.reply(i), env.reply(i + 1), disable)
            == Rx(env, i, i + (if disable then 2 else 1))
  {
    RxOne(env, i);
    if disable {
      RxOne(env, i + 1);
      RxSplit(env, i, i + 1, i + 2);
    }
  }

  /** The same characters as the driver delivers them: the disable command
      (max3140_cmd) delivers its own reply's character, and then the
      received-data flag, by now refreshed from the command's reply, decides
      whether the data exchange's byte is delivered as well. */
  function DeliveredAsWritten(run: RunFlags, d: Reply, c: Reply, disable: bool): (cs: seq<Byte>)
    ensures !disable && d.ok ==> cs == Delivered(d, c, disable)
  {
    var run1 := Sr1(run, d);
    if disable then
      var run2 := Sr1(run1, c);
      RxData(c) + (if run2.rxPending then [Low(d.word)] else [])
    else
      if run1.rxPending then [Low(d.word)] else []
  }

  /** A character received with the data word is lost when the disable
      command's reply carries none. */
  lemma AsWrittenLosesCharacter(run: RunFlags)
    ensures DeliveredAsWritten(run, Reply(true, 0x8041), Reply(true, 0x4000), true) == []
    ensures Delivered(Reply(true, 0x8041), Reply(true, 0x4000), true) == [0x41]
  {
  }

  /** Two characters received with the data word and the disable command
      are delivered in the wrong order. */
  lemma AsWrittenReordersCharacters(run: RunFlags)
    ensures DeliveredAsWritten(run, Reply(true, 0x8041), Reply(true, 0x8042), true) == [0x42, 0x41]
    ensures Delivered(Reply(true, 0x8041), Reply(true, 0x8042), true) == [0x41, 0x42]
  {
  }

  /** When only the disable command brings a character, the data word's
      empty receive field is delivered as an extra character. */
  lemma AsWrittenInventsCharacter(run: RunFlags)
    ensures DeliveredAsWritten(run, Reply(true, 0x4000), Reply(true, 0x8042), true) == [0x42, 0x00]
    ensures Delivered(Reply(true, 0x4000), Reply(true, 0x8042), true) == [0x42]
  {
  }

  /** A failed data exchange leaves the received-data flag of a full FIFO
      drain standing, and the stale receive buffer is delivered. */
  lemma AsWrittenDeliversAfterFailure()
    ensures DeliveredAsWritten(RunFlags(true, true), Reply(false, 0x0055), Reply(true, 0), false) == [0x55]
    ensures Delivered(Reply(false, 0x0055), Reply(true, 0), false) == []
  {
  }

  datatype Sent = Sent(run: RunFlags, trace: Trace, rec: TxRecord)

  /** Writes `ch`, picked already, from link state `l`, and returns the
      new status flags. The deadline moves to one character time after the
      later of the old deadline and the end of the exchange. If nothing
      more may be sent, the driver waits until the deadline has passed and
      switches the RS-485 driver off. */
  function Transmit(c: Setup, l: Link, env: Env, t: Trace, ch: Byte, fromQueue: bool, w: Word): (r: Sent)
    requires Xmit.Valid(l.xmit)
    ensures r.rec.ch == ch && r.rec.fromQueue == fromQueue && r.rec.word == w
    ensures r.rec.done == env.clock(t.readings)
    ensures r.rec.deadline == Timing.NextDeadline(l.deadline, r.rec.done, c.rtsSleep)
    ensures r.rec.disable.Off? <==> Xmit.Empty(l.xmit) || c.txStopped
    ensures r.rec.disable.Off? ==>
              r.rec.disable.at >= r.rec.deadline && r.rec.disable.at >= env.clock(t.readings + 1)
    ensures r.trace.exchanges == t.exchanges + (if r.rec.disable.Off? then 2 else 1)
    ensures r.trace.sent == t.sent + [r.rec.word] + (if r.rec.disable.Off? then [DisableWord(c.invertRts)] else [])
  {
    var e := Exchange(env, t, w);
    var clk := Clock(env, e.trace);
    var deadline := Timing.NextDeadline(l.deadline, clk.now, c.rtsSleep);
    var t1 := clk.trace.(received := clk.trace.received + RxData(e.reply));
    assert t1.readings == t.readings + 1;
    if Xmit.Empty(l.xmit) || c.txStopped then
      var o := SwitchOff(Sr1(l.run, e.reply), env, t1, c.invertRts, deadline);
      Sent(o.run, o.trace, TxRecord(ch, fromQueue, w, clk.now, deadline, Off(o.at)))
    else
      Sent(Sr1(l.run, e.reply), t1, TxRecord(ch, fromQueue, w, clk.now, deadline, StaysOn))
  }

  /** Every character the chip returns during a write, and during the
      switch-off that may follow it, goes to the tty layer in order. */
  lemma TransmitDelivers(c: Setup, l: Link, env: Env, t: Trace, ch: Byte, fromQueue: bool, w: Word)
    requires Xmit.Valid(l.xmit)
    ensures var r := Transmit(c, l, env, t, ch, fromQueue, w);
            r.trace.received == t.received + Rx(env, t.exchanges, r.trace.exchanges)
  {
    RxOne(env, t.exchanges);
    if Xmit.Empty(l.xmit) || c.txStopped {
      RxSplit(env, t.exchanges, t.exchanges + 1, t.exchanges + 2);
    }
  }

  /** A write, and the switch-off that may follow it, leave the status
      their exchanges decode to. */
  lemma TransmitStatus(c: Setup, l: Link, env: Env, t: Trace, ch: Byte, fromQueue: bool, w: Word)
    requires Xmit.Valid(l.xmit)
    ensures var r := Transmit(c, l, env, t, ch, fromQueue, w);
            r.run == Status(l.run, env, t.exchanges, r.trace.exchanges)
  {
    assert Status(l.run, env, t.exchanges, t.exchanges + 1) == Sr1(l.run, env.reply(t.exchanges));
  }

  datatype Switched = Switched(run: RunFlags, trace: Trace, at: int)

  /** Waits until `deadline` has passed (ndelay for the time remaining
      after a fresh clock reading) and sends the disable command. */
  function SwitchOff(run: RunFlags, env: Env, t: Trace, invertRts: bool, deadline: int): (r: Switched)
    ensures r.at >= deadline && r.at >= env.clock(t.readings)
    ensures r.at == deadline || r.at == env.clock(t.readings)
    ensures r.trace.readings == t.readings + 1
    ensures r.trace.exchanges == t.exchanges + 1
    ensures r.trace.sent == t.sent + [DisableWord(invertRts)]
    ensures r.trace.received == t.received + Rx(env, t.exchanges, t.exchanges + 1)
    ensures r.run == Sr1(run, env.reply(t.exchanges))
  {
    var clk := Clock(env, t);
    var at := if deadline > clk.now then deadline else clk.now;
    var c := Cmd(run, env, clk.trace, DisableWord(invertRts));
    Switched(c.run, c.trace, at)
  }

  /** The bytes of `recs` that came from the transmit buffer, in order. */
  function QueueBytes(recs: seq<TxRecord>): (bs: seq<Byte>)
    ensures |bs| <= |recs|
  {
    if recs == [] then []
    else (if recs[0].fromQueue then [recs[0].ch] else []) + QueueBytes(recs[1..])
  }

  lemma {:induction false} QueueBytesAppend(a: seq<TxRecord>, b: seq<TxRecord>)
    ensures QueueBytes(a + b) == QueueBytes(a) + QueueBytes(b)
  {
    if a == [] {
      assert a + b == b;
    } else {
      assert (a + b)[1..] == a[1..] + b;
      QueueBytesAppend(a[1..], b);
      assert (a + b)[0] == a[0];
    }
  }

  /** A round: the link state it leaves, the trace after it, the
      character it wrote if any, and the read commands its drain sent. */
  datatype RoundOut = RoundOut(link: Link, trace: Trace, records: seq<TxRecord>, readWords: nat)

  /** The words a transmit step puts on the bus for the characters `recs`:
      each character's word, followed by the switch-off word when the driver
      was switched off after it. */
  function TxWords(c: Setup, recs: seq<TxRecord>): seq<Word>
  {
    if recs == [] then []
    else [recs[0].word] + (if recs[0].disable.Off? then [DisableWord(c.invertRts)] else []) + TxWords(c, recs[1..])
  }

  /** The words a chain of rounds puts on the bus: per round, the drain's
      read commands and then the words of the character it wrote. */
  function Bus(c: Setup, outs: seq<RoundOut>): seq<Word>
  {
    if outs == [] then [] else Reads(outs[0].readWords) + TxWords(c, outs[0].records) + Bus(c, outs[1..])
  }

  /** What a round that wrote character `x` did to the link state. */
  predicate RoundSent(c: Setup, l: Link, l': Link, x: TxRecord)
    requires Xmit.Valid(l'.xmit)
  {
    && (x.fromQueue <==> l.xChar == 0)
    && (!x.fromQueue ==> x.ch == l.xChar)
    && (x.fromQueue ==> !c.txStopped)
    && l'.xChar == 0
    && x.word == c.frame(x.ch)
    && x.deadline == Timing.NextDeadline(l.deadline, x.done, c.rtsSleep)
    && l'.deadline == x.deadline
    && (x.disable.Off? <==> Xmit.Empty(l'.xmit) || c.txStopped)
    && (x.disable.Off? ==> x.disable.at >= x.deadline)
  }

  /** What a round does to the transmit side: at most one character is
      written, it is x_char or the oldest byte of the transmit buffer, and
      when nothing is written the transmit side is as it was. */
  predicate RoundEffect(c: Setup, l: Link, r: RoundOut)
    requires Xmit.Valid(l.xmit)
  {
    && Xmit.Valid(r.link.xmit)
    && |r.records| <= 1
    && QueueBytes(r.records) + Xmit.Contents(r.link.xmit) == Xmit.Contents(l.xmit)
    && r.link.txCount == l.txCount + |r.records|
    && (r.records == [] ==>
          && r.link.xmit == l.xmit && r.link.xChar == l.xChar && r.link.deadline == l.deadline
          && (r.link.run.txEmpty ==> l.xChar == 0 && (Xmit.Empty(l.xmit) || c.txStopped)))
    && (r.records != [] ==> RoundSent(c, l, r.link, r.records[0]))
  }

  /** One pass of the do-while loop: drain the receive FIFO, then write one
      character if the chip's transmit buffer is empty and there is one to
      write. */
  function Round(c: Setup, l: Link, env: Env, t: Trace): (r: RoundOut)
    requires Xmit.Valid(l.xmit)
    ensures Xmit.Valid(r.link.xmit)
    ensures r.trace.exchanges > t.exchanges && t.sent <= r.trace.sent
    ensures 1 <= r.readWords <= RxFifoLen && r.trace.sent == t.sent + Reads(r.readWords) + TxWords(c, r.records)
    ensures Reliable(env) ==> r.trace.received == t.received + Rx(env, t.exchanges, r.trace.exchanges)
  {
    var d := Drain(l.run, env, t);
    var r := SendOne(c, l.(run := d.run), env, d.trace);
    RoundJoin(c, l, env, t, d, r);
    r.(readWords := d.trace.exchanges - t.exchanges)
  }

  /** What a round does to the transmit side. */
  lemma RoundEffectHolds(c: Setup, l: Link, env: Env, t: Trace)
    requires Xmit.Valid(l.xmit)
    ensures RoundEffect(c, l, Round(c, l, env, t))
  {
    var d := Drain(l.run, env, t);
    var r := SendOne(c, l.(run := d.run), env, d.trace);
    RoundJoin(c, l, env, t, d, r);
    RoundEffectIgnoresReads(c, l, r, d.trace.exchanges - t.exchanges);
  }

  lemma RoundEffectIgnoresReads(c: Setup, l: Link, r: RoundOut, n: nat)
    requires Xmit.Valid(l.xmit)
    ensures RoundEffect(c, l, r) ==> RoundEffect(c, l, r.(readWords := n))
  {
  }

  /** The receive half of a round (max3140_read_fifo), reduced to what the
      round needs: it sends between one and RxFifoLen read commands and
      nothing else, and on a bus where no exchange fails it delivers every
      character the chip reported. */
  function Drain(run: RunFlags, env: Env, t: Trace): (d: Drained)
    ensures d.trace.exchanges > t.exchanges && t.sent <= d.trace.sent
    ensures d.trace.exchanges - t.exchanges <= RxFifoLen
    ensures d.trace.sent == t.sent + Reads(d.trace.exchanges - t.exchanges)
    ensures Reliable(env) ==> d.trace.received == t.received + Rx(env, t.exchanges, d.trace.exchanges)
  {
    ReadFifoReliable(run, env, t);
    ReadFifo(run, env, t)
  }

  /** A drain leaves the status its read commands decode to. */
  lemma DrainStatus(run: RunFlags, env: Env, t: Trace)
    ensures var d := Drain(run, env, t);
            d.run == Status(run, env, t.exchanges, d.trace.exchanges)
  {
    DrainFromStatus(run, env, t, []);
  }

  /** The transmit half of a round leaves the status its exchanges decode
      to. */
  lemma SendOneStatus(c: Setup, l: Link, env: Env, t: Trace)
    requires Xmit.Valid(l.xmit)
    ensures var r := SendOne(c, l, env, t);
            r.link.run == Status(l.run, env, t.exchanges, r.trace.exchanges)
  {
    if l.run.txEmpty {
      var p := PickTx(c, l);
      if p.Tx? {
        TransmitStatus(c, p.link, env, t, p.ch, p.fromQueue, c.frame(p.ch));
      }
    }
  }

  /** A round leaves the status its exchanges decode to: the flags of its
      last successful exchange. */
  lemma RoundStatus(c: Setup, l: Link, env: Env, t: Trace)
    requires Xmit.Valid(l.xmit)
    ensures var r := Round(c, l, env, t);
            r.link.run == Status(l.run, env, t.exchanges, r.trace.exchanges)
  {
    var d := Drain(l.run, env, t);
    var r := SendOne(c, l.(run := d.run), env, d.trace);
    DrainStatus(l.run, env, t);
    SendOneStatus(c, l.(run := d.run), env, d.trace);
    StatusSplit(l.run, env, t.exchanges, d.trace.exchanges, r.trace.exchanges);
  }

  /** A drain followed by a transmit step is a round. */
  lemma RoundJoin(c: Setup, l: Link, env: Env, t: Trace, d: Drained, r: RoundOut)
    requires Xmit.Valid(l.xmit)
    requires d.trace.exchanges > t.exchanges && t.sent <= d.trace.sent && d.trace.sent <= r.trace.sent
    requires Reliable(env) ==> d.trace.received == t.received + Rx(env, t.exchanges, d.trace.exchanges)
    requires RoundEffect(c, l.(run := d.run), r) && r.trace.exchanges >= d.trace.exchanges
    requires r.trace.received == d.trace.received + Rx(env, d.trace.exchanges, r.trace.exchanges)
    ensures RoundEffect(c, l, r)
    ensures r.trace.exchanges > t.exchanges && t.sent <= r.trace.sent
    ensures Reliable(env) ==> r.trace.received == t.received + Rx(env, t.exchanges, r.trace.exchanges)
  {
    RxSplit(env, t.exchanges, d.trace.exchanges, r.trace.exchanges);
    RoundEffectIgnoresRun(c, l, d.run, r);
  }

  /** The effect of a round does not depend on the cached chip status it
      started from. */
  lemma RoundEffectIgnoresRun(c: Setup, l: Link, run: RunFlags, r: RoundOut)
    requires Xmit.Valid(l.xmit) && RoundEffect(c, l.(run := run), r)
    ensures RoundEffect(c, l, r)
  {
  }

  /** The transmit half of a round: with the chip's transmit buffer empty,
      one character is picked and written. */
  function SendOne(c: Setup, l: Link, env: Env, t: Trace): (r: RoundOut)
    requires Xmit.Valid(l.xmit)
    ensures RoundEffect(c, l, r)
    ensures r.trace.exchanges >= t.exchanges && t.sent <= r.trace.sent
    ensures r.trace.sent == t.sent + TxWords(c, r.records)
    ensures r.trace.received == t.received + Rx(env, t.exchanges, r.trace.exchanges)
  {
    if !l.run.txEmpty then RoundOut(l, t, [], 0)
    else
      var p := PickTx(c, l);
      if p.NoTx? then RoundOut(l, t, [], 0)
      else SendPicked(c, l, env, t, p)
  }

  function SendPicked(c: Setup, l: Link, env: Env, t: Trace, p: Pick): (r: RoundOut)
    requires Xmit.Valid(l.xmit) && p.Tx? && p == PickTx(c, l)
    ensures RoundEffect(c, l, r)
    ensures r.trace.exchanges >= t.exchanges && t.sent <= r.trace.sent
    ensures r.trace.sent == t.sent + TxWords(c, r.records)
    ensures r.trace.received == t.received + Rx(env, t.exchanges, r.trace.exchanges)
  {
    var o := Transmit(c, p.link, env, t, p.ch, p.fromQueue, c.frame(p.ch));
    TransmitDelivers(c, p.link, env, t, p.ch, p.fromQueue, c.frame(p.ch));
    var r := RoundOut(p.link.(run := o.run, deadline := o.rec.deadline), o.trace, [o.rec], 0);
    assert QueueBytes([o.rec]) == if o.rec.fromQueue then [o.rec.ch] else [];
    assert TxWords(c, [o.rec]) == [o.rec.word] + (if o.rec.disable.Off? then [DisableWord(c.invertRts)] else []) + TxWords(c, []);
    r
  }

  /** On a bus where no exchange fails, a drain delivers every character
      the chip reported during it. */
  lemma ReadFifoReliable(run: RunFlags, env: Env, t: Trace)
    ensures var d := ReadFifo(run, env, t);
            Reliable(env) ==> d.trace.received == t.received + Rx(env, t.exchanges, d.trace.exchanges)
  {
    if Reliable(env) {
      assert Succeeds(env, t.exchanges + ReadyRun(env, t.exchanges, RxFifoLen));
    }
  }

  /** The loop condition: go on unless a driver switch-off was requested,
      the worker is told to stop or the system is freezing, and only while
      the chip has received data or can take a character that is there to
      send. */
  predicate Continues(c: Setup, l: Link, env: Env)
    requires Xmit.Valid(l.xmit)
  {
    && !c.disableRequested && !c.forceEndWork && !env.freezing
    && (l.run.rxPending || (l.run.txEmpty && !Xmit.Empty(l.xmit) && !c.txStopped))
  }

  /** The rounds of one run of the loop, in order, and whether the loop
      condition ended it (rather than the round bound running out). */
  datatype Served = Served(rounds: seq<RoundOut>, finished: bool)

  /** The link state after `outs`, starting from `l`. */
  function Final(l: Link, outs: seq<RoundOut>): Link
  {
    if outs == [] then l else outs[|outs| - 1].link
  }

  /** The trace after `outs`, starting from `t`. */
  function TraceAfter(t: Trace, outs: seq<RoundOut>): Trace
  {
    if outs == [] then t else outs[|outs| - 1].trace
  }

  /** The characters written in `outs`, in order. */
  function Records(outs: seq<RoundOut>): seq<TxRecord>
  {
    if outs == [] then [] else outs[0].records + Records(outs[1..])
  }

  /** Each round of `outs` has a round's effect on the link state the one
      before it left, starting from `l`. */
  predicate Chained(c: Setup, l: Link, outs: seq<RoundOut>)
    decreases |outs|
  {
    outs == [] || (Xmit.Valid(l.xmit) && RoundEffect(c, l, outs[0]) && Chained(c, outs[0].link, outs[1..]))
  }

  /** The do-while loop, run for at most fuel + 1 rounds. */
  function Rounds(c: Setup, l: Link, env: Env, t: Trace, fuel: nat): (r: Served)
    requires Xmit.Valid(l.xmit)
    ensures |r.rounds| >= 1 && Chained(c, l, r.rounds)
    ensures Xmit.Valid(Final(l, r.rounds).xmit)
    ensures r.finished ==> !Continues(c, Final(l, r.rounds), env)
    ensures TraceAfter(t, r.rounds).exchanges > t.exchanges && t.sent <= TraceAfter(t, r.rounds).sent
    ensures TraceAfter(t, r.rounds).sent == t.sent + Bus(c, r.rounds)
    ensures Reliable(env) ==>
              TraceAfter(t, r.rounds).received == t.received + Rx(env, t.exchanges, TraceAfter(t, r.rounds).exchanges)
    ensures Final(l, r.rounds).run == Status(l.run, env, t.exchanges, TraceAfter(t, r.rounds).exchanges)
    decreases fuel
  {
    var o := Round(c, l, env, t);
    RoundEffectHolds(c, l, env, t);
    RoundStatus(c, l, env, t);
    ChainedCons(c, l, o, []);
    BusCons(c, t, o, [], o.trace);
    if !Continues(c, o.link, env) then Served([o], true)
    else if fuel == 0 then Served([o], false)
    else
      var rest := Rounds(c, o.link, env, o.trace, fuel - 1);
      ChainedCons(c, l, o, rest.rounds);
      AfterCons(l, t, o, rest.rounds);
      BusCons(c, t, o, rest.rounds, TraceAfter(o.trace, rest.rounds));
      LoopJoin(env, t, o.trace, TraceAfter(o.trace, rest.rounds));
      StatusSplit(l.run, env, t.exchanges, o.trace.exchanges, TraceAfter(o.trace, rest.rounds).exchanges);
      Served([o] + rest.rounds, rest.finished)
  }

  lemma AfterCons(l: Link, t: Trace, o: RoundOut, rest: seq<RoundOut>)
    ensures Final(l, [o]) == o.link && TraceAfter(t, [o]) == o.trace
    ensures rest != [] ==> Final(l, [o] + rest) == Final(o.link, rest) && TraceAfter(t, [o] + rest) == TraceAfter(o.trace, rest)
  {
  }

  /** A round followed by more rounds sends what the round sent, then what
      the others sent. */
  lemma BusCons(c: Setup, t: Trace, o: RoundOut, rest: seq<RoundOut>, t2: Trace)
    ensures o.trace.sent == t.sent + Reads(o.readWords) + TxWords(c, o.records) && t2.sent == o.trace.sent + Bus(c, rest)
            ==> t2.sent == t.sent + Bus(c, [o] + rest)
  {
    assert ([o] + rest)[1..] == rest;
  }

  /** A round followed by more rounds delivers what each of them delivers. */
  lemma LoopJoin(env: Env, t: Trace, t1: Trace, t2: Trace)
    requires t1.exchanges > t.exchanges && t2.exchanges > t1.exchanges
    requires t.sent <= t1.sent <= t2.sent
    requires Reliable(env) ==> t1.received == t.received + Rx(env, t.exchanges, t1.exchanges)
    requires Reliable(env) ==> t2.received == t1.received + Rx(env, t1.exchanges, t2.exchanges)
    ensures Reliable(env) ==> t2.received == t.received + Rx(env, t.exchanges, t2.exchanges)
    ensures t.sent <= t2.sent
  {
    RxSplit(env, t.exchanges, t1.exchanges, t2.exchanges);
  }

  /** A round followed by a chain is a chain. */
  lemma ChainedCons(c: Setup, l: Link, o: RoundOut, rest: seq<RoundOut>)
    ensures Xmit.Valid(l.xmit) && RoundEffect(c, l, o) && Chained(c, o.link, rest) ==> Chained(c, l, [o] + rest)
  {
    assert ([o] + rest)[1..] == rest;
  }

  lemma ChainStep(l: Link, outs: seq<RoundOut>)
    requires outs != []
    ensures Final(l, outs) == Final(outs[0].link, outs[1..])
    ensures Records(outs) == outs[0].records + Records(outs[1..])
  {
  }

  /** Over a chain of rounds the transmit buffer loses exactly the bytes
      written from it, oldest first, and the transmit count goes up by one
      per character written. */
  lemma {:induction false} ChainDrainsQueue(c: Setup, l: Link, outs: seq<RoundOut>)
    requires Xmit.Valid(l.xmit) && Chained(c, l, outs)
    ensures Xmit.Valid(Final(l, outs).xmit)
    ensures QueueBytes(Records(outs)) + Xmit.Contents(Final(l, outs).xmit) == Xmit.Contents(l.xmit)
    ensures Final(l, outs).txCount == l.txCount + |Records(outs)|
    decreases |outs|
  {
    if outs != [] {
      var o := outs[0];
      ChainStep(l, outs);
      ChainDrainsQueue(c, o.link, outs[1..]);
      QueueBytesAppend(o.records, Records(outs[1..]));
    }
  }

  /** What the loop promises about the words it sends and the order of
      x_char, relative to the link state `l` it started from. */
  predicate XCharFirst(c: Setup, l: Link, recs: seq<TxRecord>, l': Link)
  {
    && (forall i :: 0 <= i < |recs| ==> recs[i].word == c.frame(recs[i].ch))
    && (forall i :: 0 <= i < |recs| && !recs[i].fromQueue ==> i == 0 && l.xChar != 0 && recs[i].ch == l.xChar)
    && (recs != [] && l.xChar != 0 ==> !recs[0].fromQueue)
    && l'.xChar == (if recs == [] then l.xChar else 0)
  }

  /** Over a chain of rounds every character goes out in a word that keeps
      the RS-485 driver on, and only the first character may come from
      outside the transmit buffer: the pending x_char, which goes first. */
  lemma {:induction false} ChainXCharFirst(c: Setup, l: Link, outs: seq<RoundOut>)
    requires Xmit.Valid(l.xmit) && Chained(c, l, outs)
    ensures XCharFirst(c, l, Records(outs), Final(l, outs))
    decreases |outs|
  {
    if outs != [] {
      var o := outs[0];
      ChainStep(l, outs);
      ChainXCharFirst(c, o.link, outs[1..]);
      XCharFirstJoin(c, l, o.records, o.link, Records(outs[1..]), Final(o.link, outs[1..]));
    }
  }

  lemma XCharFirstJoin(c: Setup, l: Link, recs1: seq<TxRecord>, l1: Link, recs2: seq<TxRecord>, l2: Link)
    requires Xmit.Valid(l.xmit) && Xmit.Valid(l1.xmit)
    requires RoundEffect(c, l, RoundOut(l1, Trace(0, 0, [], []), recs1, 0))
    requires XCharFirst(c, l1, recs2, l2)
    ensures XCharFirst(c, l, recs1 + recs2, l2)
  {
    var recs := recs1 + recs2;
    forall i | 0 <= i < |recs|
      ensures recs[i].word == c.frame(recs[i].ch)
      ensures !recs[i].fromQueue ==> i == 0 && l.xChar != 0 && recs[i].ch == l.xChar
    {
      if i >= |recs1| {
        assert recs[i] == recs2[i - |recs1|];
      }
    }
  }

  /** Once nothing is left to send, further rounds write nothing and leave
      the transmit side alone. */
  lemma {:induction false} ChainNothingToSend(c: Setup, l: Link, outs: seq<RoundOut>)
    requires Xmit.Valid(l.xmit) && Chained(c, l, outs)
    requires l.xChar == 0 && (Xmit.Empty(l.xmit) || c.txStopped)
    ensures Records(outs) == []
    ensures Final(l, outs).xmit == l.xmit && Final(l, outs).xChar == 0 && Final(l, outs).deadline == l.deadline
    decreases |outs|
  {
    if outs != [] {
      var o := outs[0];
      ChainStep(l, outs);
      RoundSendsNothing(c, l, o);
      ChainNothingToSend(c, o.link, outs[1..]);
    }
  }

  lemma RoundSendsNothing(c: Setup, l: Link, o: RoundOut)
    requires Xmit.Valid(l.xmit) && l.xChar == 0 && (Xmit.Empty(l.xmit) || c.txStopped)
    requires RoundEffect(c, l, o)
    ensures o.records == []
    ensures o.link.xmit == l.xmit && o.link.xChar == 0 && o.link.deadline == l.deadline
  {
  }

  /** What the loop promises about switching the driver off. */
  predicate SwitchOffOnce(c: Setup, l: Link, recs: seq<TxRecord>, l': Link)
    requires Xmit.Valid(l'.xmit)
  {
    && (forall i :: 0 <= i < |recs| - 1 ==> recs[i].disable == StaysOn)
    && (recs == [] ==> l'.xmit == l.xmit && l'.deadline == l.deadline)
    && (recs != [] ==>
          && l'.deadline == recs[|recs| - 1].deadline
          && (recs[|recs| - 1].disable.Off? <==> Xmit.Empty(l'.xmit) || c.txStopped)
          && (recs[|recs| - 1].disable.Off? ==> recs[|recs| - 1].disable.at >= l'.deadline))
  }

  /** Over a chain of rounds the driver is switched off at most once,
      after the last character, and exactly when that character left
      nothing more to send; the switch-off comes no earlier than the final
      deadline. */
  lemma {:induction false} ChainSwitchOff(c: Setup, l: Link, outs: seq<RoundOut>)
    requires Xmit.Valid(l.xmit) && Chained(c, l, outs)
    ensures Xmit.Valid(Final(l, outs).xmit)
    ensures SwitchOffOnce(c, l, Records(outs), Final(l, outs))
    decreases |outs|
  {
    if outs != [] {
      var o := outs[0];
      ChainStep(l, outs);
      ChainSwitchOff(c, o.link, outs[1..]);
      RoundSwitchOff(c, l, o);
      if o.records != [] && o.records[0].disable.Off? {
        ChainNothingToSend(c, o.link, outs[1..]);
      }
      SwitchOffJoin(c, l, o.records, o.link, Records(outs[1..]), Final(o.link, outs[1..]));
    }
  }

  lemma RoundSwitchOff(c: Setup, l: Link, o: RoundOut)
    requires Xmit.Valid(l.xmit) && RoundEffect(c, l, o)
    ensures SwitchOffOnce(c, l, o.records, o.link)
    ensures o.records != [] && o.records[0].disable.Off? ==>
              o.link.xChar == 0 && (Xmit.Empty(o.link.xmit) || c.txStopped)
  {
  }

  lemma SwitchOffJoin(c: Setup, l: Link, recs1: seq<TxRecord>, l1: Link, recs2: seq<TxRecord>, l2: Link)
    requires Xmit.Valid(l1.xmit) && Xmit.Valid(l2.xmit) && |recs1| <= 1
    requires SwitchOffOnce(c, l, recs1, l1) && SwitchOffOnce(c, l1, recs2, l2)
    requires recs1 != [] && recs1[0].disable.Off? ==> recs2 == [] && l2.xmit == l1.xmit && l2.deadline == l1.deadline
    ensures SwitchOffOnce(c, l, recs1 + recs2, l2)
  {
    var recs := recs1 + recs2;
    forall i | 0 <= i < |recs| - 1
      ensures recs[i].disable == StaysOn
    {
      if i >= |recs1| {
        assert recs[i] == recs2[i - |recs1|];
      }
    }
    if recs2 != [] {
      assert recs[|recs| - 1] == recs2[|recs2| - 1];
    } else {
      assert recs == recs1;
    }
  }

  /** The completion times of the characters in `recs`. */
  function Times(recs: seq<TxRecord>): (ts: seq<int>)
    ensures |ts| == |recs|
    ensures forall i :: 0 <= i < |recs| ==> ts[i] == recs[i].done
  {
    seq(|recs|, i requires 0 <= i < |recs| => recs[i].done)
  }

  /** Over a chain of rounds the deadline is the one obtained by pushing
      it forward once per character written, at each character's
      completion time. */
  lemma {:induction false} ChainDeadline(c: Setup, l: Link, outs: seq<RoundOut>)
    requires Xmit.Valid(l.xmit) && Chained(c, l, outs)
    ensures Final(l, outs).deadline == Timing.Burst(l.deadline, Times(Records(outs)), c.rtsSleep)
    decreases |outs|
  {
    if outs != [] {
      var o := outs[0];
      ChainStep(l, outs);
      ChainDeadline(c, o.link, outs[1..]);
      var rest := Records(outs[1..]);
      if o.records == [] {
        assert Records(outs) == rest;
      } else {
        var x := o.records[0];
        assert o.records == [x];
        assert Times(Records(outs)) == [x.done] + Times(rest);
        Timing.BurstCons(l.deadline, x.done, Times(rest), c.rtsSleep);
      }
    }
  }

  /** The parts of the port the loop only reads. */
  function SetupOf(s: Port): (c: Setup)
    requires s.rtsSleep >= 0
  {
    Setup(ch => TxWord(s.parity, s.invertRts, ch), s.invertRts, s.rtsSleep, s.txStopped, s.irq.driverDisable, s.forceEndWork)
  }

  /** The parts of the port the loop changes. */
  function LinkOf(s: Port): (l: Link)
  {
    Link(s.run, s.deadline, s.xmit, s.xChar, s.txCount)
  }

  /** The port with the parts the loop changes replaced. */
  function WithLink(s: Port, l: Link): (s': Port)
    ensures LinkOf(s') == l
  {
    s.(run := l.run, deadline := l.deadline, xmit := l.xmit, xChar := l.xChar, txCount := l.txCount)
  }

  /** Everything but the loop's own state is as in `s`. */
  predicate OnlyLinkChanged(s: Port, s': Port)
  {
    s' == WithLink(s, LinkOf(s'))
  }

  datatype Serviced = Serviced(port: Port, trace: Trace, records: seq<TxRecord>, finished: bool)

  /** max3140_send_and_receive, with the do-while loop bounded by
      fuel + 1 rounds. The clock is read before and after the loop. */
  function SendAndReceive(s: Port, env: Env, t: Trace, fuel: nat): (r: Serviced)
    requires Valid(s)
    ensures Valid(r.port) && OnlyLinkChanged(s, r.port)
    ensures r.finished ==>
              || s.irq.driverDisable || s.forceEndWork || env.freezing
              || (!r.port.run.rxPending && (!r.port.run.txEmpty || Xmit.Empty(r.port.xmit) || s.txStopped))
    ensures r.trace.exchanges > t.exchanges && t.sent <= r.trace.sent
    ensures Reliable(env) ==> r.trace.received == t.received + Rx(env, t.exchanges, r.trace.exchanges)
  {
    var start := Clock(env, t);
    var srv := Rounds(SetupOf(s), LinkOf(s), env, start.trace, fuel);
    var l := Final(LinkOf(s), srv.rounds);
    var t1 := TraceAfter(start.trace, srv.rounds);
    var end := Clock(env, t1);
    Serviced(WithLink(s, l), end.trace, Records(srv.rounds), srv.finished)
  }

  /** After max3140_send_and_receive the cached status is the one its
      exchanges decode to, so the received-data flag it leaves is what the
      last successful exchange reported. */
  lemma ServiceStatus(s: Port, env: Env, t: Trace, fuel: nat)
    requires Valid(s)
    ensures var r := SendAndReceive(s, env, t, fuel);
            r.port.run == Status(s.run, env, t.exchanges, r.trace.exchanges)
  {
  }

  /** The service loop's result is the chain of its rounds. */
  lemma ServiceChain(s: Port, env: Env, t: Trace, fuel: nat)
    requires Valid(s)
    ensures var r := SendAndReceive(s, env, t, fuel);
            exists outs :: && Chained(SetupOf(s), LinkOf(s), outs)
                           && r.records == Records(outs)
                           && LinkOf(r.port) == Final(LinkOf(s), outs)
                           && r.trace.sent == t.sent + Bus(SetupOf(s), outs)
  {
    var start := Clock(env, t);
    var srv := Rounds(SetupOf(s), LinkOf(s), env, start.trace, fuel);
  }

  /** The loop takes the bytes it writes from the front of the transmit
      buffer, leaves the rest there in order, and counts every character
      written, x_char included. */
  lemma ServiceDrainsQueue(s: Port, env: Env, t: Trace, fuel: nat)
    requires Valid(s)
    ensures var r := SendAndReceive(s, env, t, fuel);
            && QueueBytes(r.records) + Xmit.Contents(r.port.xmit) == Xmit.Contents(s.xmit)
            && r.port.txCount == s.txCount + |r.records|
  {
    ServiceChain(s, env, t, fuel);
    var outs :| Chained(SetupOf(s), LinkOf(s), outs) && SendAndReceive(s, env, t, fuel).records == Records(outs)
                && LinkOf(SendAndReceive(s, env, t, fuel).port) == Final(LinkOf(s), outs);
    ChainDrainsQueue(SetupOf(s), LinkOf(s), outs);
  }

  /** Every word the loop writes carries its character with the port's
      parity and keeps the RS-485 driver on; a pending x_char is written
      first and is the only character not taken from the transmit buffer. */
  lemma ServiceWritesXCharFirst(s: Port, env: Env, t: Trace, fuel: nat)
    requires Valid(s)
    ensures var r := SendAndReceive(s, env, t, fuel);
            XCharFirst(SetupOf(s), LinkOf(s), r.records, LinkOf(r.port))
  {
    ServiceChain(s, env, t, fuel);
    var outs :| Chained(SetupOf(s), LinkOf(s), outs) && SendAndReceive(s, env, t, fuel).records == Records(outs)
                && LinkOf(SendAndReceive(s, env, t, fuel).port) == Final(LinkOf(s), outs);
    ChainXCharFirst(SetupOf(s), LinkOf(s), outs);
  }

  /** The loop switches the driver off at most once, right after the last
      character it writes, exactly when nothing more may be sent, and not
      before the final deadline. */
  lemma ServiceSwitchesOffOnce(s: Port, env: Env, t: Trace, fuel: nat)
    requires Valid(s)
    ensures var r := SendAndReceive(s, env, t, fuel);
            SwitchOffOnce(SetupOf(s), LinkOf(s), r.records, LinkOf(r.port))
  {
    ServiceChain(s, env, t, fuel);
    var outs :| Chained(SetupOf(s), LinkOf(s), outs) && SendAndReceive(s, env, t, fuel).records == Records(outs)
                && LinkOf(SendAndReceive(s, env, t, fuel).port) == Final(LinkOf(s), outs);
    ChainSwitchOff(SetupOf(s), LinkOf(s), outs);
  }

  /** The deadline the loop leaves is the old one pushed forward once per
      character at that character's completion time, so it lies at least
      one hold time per remaining character after every completion; when
      the driver is switched off, that is no earlier than this. */
  lemma ServiceHoldsDriver(s: Port, env: Env, t: Trace, fuel: nat)
    requires Valid(s)
    ensures var r := SendAndReceive(s, env, t, fuel);
            var n := |r.records|;
            && r.port.deadline == Timing.Burst(s.deadline, Times(r.records), s.rtsSleep)
            && (forall i :: 0 <= i < n ==> r.port.deadline >= r.records[i].done + (n - i) * s.rtsSleep)
            && (n > 0 && r.records[n - 1].disable.Off? ==>
                  forall i :: 0 <= i < n ==> r.records[n - 1].disable.at >= r.records[i].done + (n - i) * s.rtsSleep)
  {
    ServiceChain(s, env, t, fuel);
    var r := SendAndReceive(s, env, t, fuel);
    var outs :| Chained(SetupOf(s), LinkOf(s), outs) && r.records == Records(outs)
                && LinkOf(r.port) == Final(LinkOf(s), outs);
    ChainDeadline(SetupOf(s), LinkOf(s), outs);
    ChainSwitchOff(SetupOf(s), LinkOf(s), outs);
    HoldFromBurst(SetupOf(s), LinkOf(s), r.records, LinkOf(r.port));
  }

  lemma HoldFromBurst(c: Setup, l: Link, recs: seq<TxRecord>, l': Link)
    requires Xmit.Valid(l'.xmit)
    requires l'.deadline == Timing.Burst(l.deadline, Times(recs), c.rtsSleep)
    requires SwitchOffOnce(c, l, recs, l')
    ensures var n := |recs|;
            && (forall i :: 0 <= i < n ==> l'.deadline >= recs[i].done + (n - i) * c.rtsSleep)
            && (n > 0 && recs[n - 1].disable.Off? ==>
                  forall i :: 0 <= i < n ==> recs[n - 1].disable.at >= recs[i].done + (n - i) * c.rtsSleep)
  {
    Timing.BurstCoversEveryCharacter(l.deadline, Times(recs), c.rtsSleep);
  }

  /** With no x_char and nothing the tty layer lets the loop send, the loop
      writes nothing and leaves the transmit side and the deadline alone. */
  lemma ServiceIdleWhenNothingToSend(s: Port, env: Env, t: Trace, fuel: nat)
    requires Valid(s) && s.xChar == 0 && (Xmit.Empty(s.xmit) || s.txStopped)
    ensures var r := SendAndReceive(s, env, t, fuel);
            && r.records == []
            && r.port.xmit == s.xmit && r.port.xChar == 0 && r.port.deadline == s.deadline
  {
    ServiceChain(s, env, t, fuel);
    var outs :| Chained(SetupOf(s), LinkOf(s), outs) && SendAndReceive(s, env, t, fuel).records == Records(outs)
                && LinkOf(SendAndReceive(s, env, t, fuel).port) == Final(LinkOf(s), outs);
    ChainNothingToSend(SetupOf(s), LinkOf(s), outs);
  }

  /** `ws` without its read commands. */
  function Writes(ws: seq<Word>): (r: seq<Word>)
    ensures |r| <= |ws|
  {
    if ws == [] then [] else (if ws[0] == ReadData then [] else [ws[0]]) + Writes(ws[1..])
  }

  /** The words of `recs`, in order. */
  function CharWords(recs: seq<TxRecord>): (ws: seq<Word>)
    ensures |ws| == |recs|
    ensures forall i :: 0 <= i < |recs| ==> ws[i] == recs[i].word
  {
    seq(|recs|, i requires 0 <= i < |recs| => recs[i].word)
  }

  /** The loop puts only read commands and the words of the characters it
      writes on the bus: with the read commands taken out, what is left is
      each character's word in order, and the switch-off word once, after
      the last character, exactly when the loop switched the driver off. */
  lemma ServiceBusWords(s: Port, env: Env, t: Trace, fuel: nat)
    requires Valid(s)
    ensures var r := SendAndReceive(s, env, t, fuel);
            var n := |r.records|;
            && t.sent <= r.trace.sent
            && Writes(r.trace.sent[|t.sent|..])
               == CharWords(r.records) + (if n > 0 && r.records[n - 1].disable.Off? then [DisableWord(s.invertRts)] else [])
  {
    ServiceChain(s, env, t, fuel);
    var r := SendAndReceive(s, env, t, fuel);
    var c := SetupOf(s);
    var outs :| && Chained(c, LinkOf(s), outs) && r.records == Records(outs)
                && LinkOf(r.port) == Final(LinkOf(s), outs) && r.trace.sent == t.sent + Bus(c, outs);
    assert r.trace.sent[|t.sent|..] == Bus(c, outs);
    forall ch: Byte
      ensures c.frame(ch) & WriteConf == WriteData
    {
      assert c.frame(ch) == TxWord(s.parity, s.invertRts, ch);
    }
    ChainBusWords(c, LinkOf(s), outs);
  }

  /** Over a chain of rounds whose character words are all data writes,
      the bus carries, besides read commands, each character's word in
      order and the switch-off word after the last one when it switched the
      driver off. */
  lemma ChainBusWords(c: Setup, l: Link, outs: seq<RoundOut>)
    requires Xmit.Valid(l.xmit) && Chained(c, l, outs)
    requires forall ch: Byte :: c.frame(ch) & WriteConf == WriteData
    ensures var recs := Records(outs);
            var n := |recs|;
            Writes(Bus(c, outs)) == CharWords(recs) + (if n > 0 && recs[n - 1].disable.Off? then [DisableWord(c.invertRts)] else [])
  {
    var recs := Records(outs);
    WritesBus(c, outs);
    ChainXCharFirst(c, l, outs);
    ChainSwitchOff(c, l, outs);
    assert forall i :: 0 <= i < |recs| ==> recs[i].word == c.frame(recs[i].ch);
    TxWordsNoReads(c, recs);
    TxWordsLastOff(c, recs);
  }

  lemma {:induction false} WritesAppend(a: seq<Word>, b: seq<Word>)
    ensures Writes(a + b) == Writes(a) + Writes(b)
  {
    if a == [] {
      assert a + b == b;
    } else {
      assert (a + b)[1..] == a[1..] + b;
      WritesAppend(a[1..], b);
    }
  }

  lemma {:induction false} WritesReads(n: nat)
    ensures Writes(Reads(n)) == []
  {
    if n > 0 {
      assert Reads(n)[1..] == Reads(n - 1);
      WritesReads(n - 1);
    }
  }

  lemma {:induction false} TxWordsAppend(c: Setup, a: seq<TxRecord>, b: seq<TxRecord>)
    ensures TxWords(c, a + b) == TxWords(c, a) + TxWords(c, b)
  {
    if a == [] {
      assert a + b == b;
    } else {
      assert (a + b)[1..] == a[1..] + b;
      assert (a + b)[0] == a[0];
      TxWordsAppend(c, a[1..], b);
    }
  }

  /** Removing the read commands from what a chain of rounds sent leaves
      what its transmit steps sent. */
  lemma {:induction false} WritesBus(c: Setup, outs: seq<RoundOut>)
    ensures Writes(Bus(c, outs)) == Writes(TxWords(c, Records(outs)))
    decreases |outs|
  {
    if outs != [] {
      var o := outs[0];
      WritesBus(c, outs[1..]);
      WritesAppend(Reads(o.readWords) + TxWords(c, o.records), Bus(c, outs[1..]));
      WritesAppend(Reads(o.readWords), TxWords(c, o.records));
      WritesReads(o.readWords);
      TxWordsAppend(c, o.records, Records(outs[1..]));
      WritesAppend(TxWords(c, o.records), TxWords(c, Records(outs[1..])));
    }
  }

  /** A transmit step sends no read commands when no character's word is
      one. */
  lemma {:induction false} TxWordsNoReads(c: Setup, recs: seq<TxRecord>)
    requires forall i :: 0 <= i < |recs| ==> recs[i].word & WriteConf == WriteData
    ensures Writes(TxWords(c, recs)) == TxWords(c, recs)
  {
    if recs != [] {
      var x := recs[0];
      var tail := (if x.disable.Off? then [DisableWord(c.invertRts)] else []) + TxWords(c, recs[1..]);
      assert TxWords(c, recs) == [x.word] + tail;
      assert x.word != ReadData;
      TxWordsNoReads(c, recs[1..]);
      WritesAppend((if x.disable.Off? then [DisableWord(c.invertRts)] else []), TxWords(c, recs[1..]));
      assert Writes(tail) == tail;
      assert (([x.word] + tail)[1..]) == tail;
    }
  }

  /** When only the last character may switch the driver off, a transmit
      step sends the characters' words and then the switch-off word, once,
      if the last character switched it off. */
  lemma {:induction false} TxWordsLastOff(c: Setup, recs: seq<TxRecord>)
    requires forall i :: 0 <= i < |recs| - 1 ==> recs[i].disable == StaysOn
    ensures var n := |recs|;
            TxWords(c, recs) == CharWords(recs) + (if n > 0 && recs[n - 1].disable.Off? then [DisableWord(c.invertRts)] else [])
  {
    if recs != [] {
      var x := recs[0];
      TxWordsLastOff(c, recs[1..]);
      assert CharWords(recs) == [x.word] + CharWords(recs[1..]);
      if |recs| > 1 {
        assert recs[1..][|recs| - 2] == recs[|recs| - 1];
      }
    }
  }
}
