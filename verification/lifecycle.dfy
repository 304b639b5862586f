/** The uart_ops hooks and power-management callbacks around the worker:
    the ones that only set request flags for it (interrupt, start_tx,
    stop_rx), the ones that talk to the chip directly (startup's loopback
    command, shutdown and suspend's power-down word), resume, and the two
    that only answer the serial core (get_mctrl, verify_port). */
module Lifecycle {
  import opened Words
  import opened Parity
  import opened PortState
  import opened Transport
  import Baud
  import Xmit
  import Service
  import Worker
  import Termios

  // Error numbers the hooks return, negated as the kernel returns them.
  const EBUSY: int := 16
  const EINVAL: int := 22

  /** The configuration startup loads: receive and transmit interrupts
      enabled, BAUD code 0 (the oscillator rate over 16), eight data bits,
      one stop bit, no parity. */
  const StartupConf: Word := RM | TM

  /** The command startup sends on a board strapped for loopback. */
  const LoopbackWord: Word := 0x4001

  datatype Woken = Woken(port: Port, wake: bool)

  /** max3140_irq: the chip's falling-edge interrupt asks the worker to
      service it and always wakes it. */
  function Irq(s: Port): (r: Woken)
    ensures r.port.irq.irqPending && r.wake
    ensures r.port == s.(irq := r.port.irq)
    ensures r.port.irq.(irqPending := s.irq.irqPending) == s.irq
  {
    Woken(s.(irq := s.irq.(irqPending := true)), true)
  }

  /** max3140_start_tx: asks the worker to send and wakes it unless the
      request was already standing. */
  function StartTx(s: Port): (r: Woken)
    ensures r.port.irq.txStarted
    ensures r.wake <==> !s.irq.txStarted
    ensures r.port == s.(irq := r.port.irq)
    ensures r.port.irq.(txStarted := s.irq.txStarted) == s.irq
  {
    if s.irq.txStarted then Woken(s, false)
    else Woken(s.(irq := s.irq.(txStarted := true)), true)
  }

  /** max3140_stop_rx: disables reception in the configuration image and
      asks the worker to load it, waking it unless that request was already
      standing. */
  function StopRx(s: Port): (r: Woken)
    requires Valid(s)
    ensures Valid(r.port)
    ensures !r.port.rxEnabled && r.port.irq.confCommit
    ensures r.port.conf & RM == 0 && r.port.conf & !RM == s.conf & !RM
    ensures r.wake <==> !s.irq.confCommit
    ensures r.port.irq.(confCommit := s.irq.confCommit) == s.irq
    ensures r.port == s.(conf := r.port.conf, rxEnabled := false, irq := r.port.irq)
  {
    var s1 := s.(rxEnabled := false, irq := s.irq.(confCommit := true));
    assert Valid(s1);
    ClearRm(s.conf);
    ValidKeepsBaud(s1, s.conf & !RM);
    Woken(s1.(conf := s.conf & !RM), !s.irq.confCommit)
  }

  lemma ClearRm(conf: Word)
    requires conf & WriteConf == 0
    ensures var c := conf & !RM;
            c & RM == 0 && c & !RM == conf & !RM && c & WriteConf == 0 && c & BAUD == conf & BAUD
  {
  }

  /** Every producer's request reaches the next activation of the worker:
      the action it asks for is in that activation's plan, and set_termios'
      switch-off is carried out before its configuration load. */
  lemma RequestsReachWorker(s: Port, t: Termios.Request)
    requires Valid(s)
    ensures Worker.ServiceIrq in Worker.Plan(Irq(s).port.irq)
    ensures Worker.ServiceTx in Worker.Plan(StartTx(s).port.irq)
    ensures Worker.CommitConf in Worker.Plan(StopRx(s).port.irq)
    ensures var p := Worker.Plan(Termios.SetTermios(s, t).port.irq);
            p[0] == Worker.DisableDriver && p[1] == Worker.CommitConf
  {
    Worker.PlanFollowsFlags(Irq(s).port.irq);
    Worker.PlanFollowsFlags(StartTx(s).port.irq);
    Worker.PlanFollowsFlags(StopRx(s).port.irq);
    Worker.NoRequestIgnored(Termios.SetTermios(s, t).port.irq);
  }

  /** A second start_tx before the worker runs changes nothing and does not
      wake it again. */
  lemma StartTxIdempotent(s: Port)
    ensures StartTx(StartTx(s).port).port == StartTx(s).port
    ensures !StartTx(StartTx(s).port).wake
  {
  }

  /** The word stop_rx has the worker load leaves reception interrupts
      off and every other configuration bit as it was. */
  lemma StopRxLoadsReceiveOff(s: Port)
    requires Valid(s)
    ensures var p := StopRx(s).port;
            ConfWord(p.conf) in Worker.Commands(p)
            && ConfWord(p.conf) & RM == 0
            && ConfWord(p.conf) & !(WriteConf | RM) == s.conf & !RM
  {
    var p := StopRx(s).port;
    assert Worker.Commands(p)[|Worker.Commands(p)| - 1] == ConfWord(p.conf);
  }

  /** The word max3140_probe sends to every chip it registers: software
      shutdown over a zeroed configuration, so the chip sleeps until the
      port is opened. */
  function ProbeWord(): (w: Word)
    ensures w == ShutdownWord(0)
    ensures w & WriteConf == WriteConf && w & SHDN != 0 && w & !(WriteConf | SHDN) == 0
  {
    WriteConf | SHDN
  }

  datatype Started = Started(port: Port, trace: Trace, status: int)

  /** max3140_startup. The configuration image, rate and receive enable are
      reset first, even while the system is suspending; then, unless
      suspending, the worker's stop request and the parity are cleared and
      the interrupt is requested. When that fails startup returns -EBUSY;
      otherwise a loopback board gets its loopback command and the worker
      is asked to load the configuration. The two hooks the kernel calls
      here, the interrupt request and the settle delay, are the parameter
      `irqOk` and left out. */
  function Startup(s: Port, irqOk: bool, env: Env, t: Trace): (r: Started)
    ensures Valid(r.port) <==> s.rtsSleep >= 0 && Xmit.Valid(s.xmit)
    ensures r.port.conf == StartupConf && r.port.rxEnabled
    ensures r.port.baud == Baud.BaseRate(s.crystal)
    ensures r.status == (if !s.suspending && !irqOk then -EBUSY else 0)
    ensures s.suspending ==>
              && r.port == s.(conf := StartupConf, baud := Baud.BaseRate(s.crystal), rxEnabled := true)
              && r.trace == t
    ensures !s.suspending ==>
              r.port == s.(conf := StartupConf, baud := Baud.BaseRate(s.crystal), rxEnabled := true,
                           forceEndWork := false, parity := NoParity, run := r.port.run, irq := r.port.irq)
    ensures !s.suspending && !irqOk ==> r.trace == t && r.port.irq == s.irq && r.port.run == s.run
    ensures !s.suspending && irqOk ==>
              && r.port.irq == s.irq.(confCommit := true)
              && r.port.run == (if s.loopback then Sr1(s.run, env.reply(t.exchanges)) else s.run)
              && r.trace.sent == t.sent + (if s.loopback then [LoopbackWord] else [])
              && r.trace.received == t.received + Rx(env, t.exchanges, r.trace.exchanges)
  {
    var s1 := ResetLine(s);
    if s.suspending then Started(s1, t, 0)
    else
      var s2 := s1.(forceEndWork := false, parity := NoParity);
      if !irqOk then Started(s2, t, -EBUSY)
      else
        var c := if s.loopback then Cmd(s2.run, env, t, LoopbackWord) else Commanded(s2.run, t);
        Started(s2.(run := c.run, irq := s.irq.(confCommit := true)), c.trace, 0)
  }

  /** The part of max3140_startup that runs even while suspending: the
      startup configuration, the oscillator rate and receive enable. */
  function ResetLine(s: Port): Port
  {
    s.(conf := StartupConf, baud := Baud.BaseRate(s.crystal), rxEnabled := true)
  }

  /** After a successful startup the worker's next activation loads the
      startup configuration, whose rate is the one the port reports and
      which takes the chip out of the shutdown probe left it in. */
  lemma StartupLoadsConfiguration(s: Port, irqOk: bool, env: Env, t: Trace)
    requires !s.suspending && irqOk
    ensures var p := Startup(s, irqOk, env, t).port;
            && Worker.CommitConf in Worker.Plan(p.irq)
            && ConfWord(StartupConf) in Worker.Commands(p)
            && Baud.ChipBaud(ConfWord(StartupConf) & BAUD, s.crystal) == p.baud
            && ConfWord(StartupConf) & SHDN == 0 && ProbeWord() & SHDN != 0
  {
    var p := Startup(s, irqOk, env, t).port;
    Worker.PlanFollowsFlags(p.irq);
    assert Worker.Commands(p)[|Worker.Commands(p)| - 1] == ConfWord(StartupConf);
  }

  datatype Done = Done(port: Port, trace: Trace)

  /** max3140_shutdown: nothing while suspending; otherwise the worker is
      told to stop, every request is dropped and the chip is put into
      software shutdown with its configuration kept. */
  function Shutdown(s: Port, env: Env, t: Trace): (r: Done)
    requires s.conf & WriteConf == 0
    ensures Valid(r.port) == Valid(s)
    ensures s.suspending ==> r == Done(s, t)
    ensures !s.suspending ==>
              && r.port == s.(forceEndWork := true, irq := NoRequests, run := Sr1(s.run, env.reply(t.exchanges)))
              && r.trace.sent == t.sent + [ShutdownWord(s.conf)]
              && r.trace.received == t.received + Rx(env, t.exchanges, t.exchanges + 1)
  {
    if s.suspending then Done(s, t)
    else
      var s1 := s.(forceEndWork := true, irq := NoRequests);
      var c := Cmd(s1.run, env, t, ShutdownWord(s.conf));
      var p := s1.(run := c.run);
      ValidFrame(s, p);
      Done(p, c.trace)
  }

  /** After shutdown the worker has nothing to do, and the service loop's
      condition, read on the port shutdown leaves, is false whatever the
      chip reports and whatever the loop's own state: a loop that reads
      the stop request after shutdown set it ends after the round it is
      in. */
  lemma ShutdownEndsWork(s: Port, env: Env, t: Trace, l: Service.Link, env2: Env)
    requires s.conf & WriteConf == 0 && s.rtsSleep >= 0 && !s.suspending && Xmit.Valid(l.xmit)
    ensures var p := Shutdown(s, env, t).port;
            && Worker.Plan(p.irq) == []
            && !Service.Continues(Service.SetupOf(p), l, env2)
  {
  }

  /** max3140_suspend of a port the serial core does not have open. The
      port is marked suspending and, as the chip has no power-down pin, the
      power-down word goes out over the configuration image. No tty is
      attached, so receive_chars drops the character the chip may return
      with it. */
  function Suspend(s: Port, env: Env, t: Trace): (r: Done)
    requires s.conf & WriteConf == 0
    ensures Valid(r.port) == Valid(s)
    ensures r.port == s.(suspending := true, run := Sr1(s.run, env.reply(t.exchanges)))
    ensures r.trace.sent == t.sent + [ShutdownWord(s.conf)] && r.trace.exchanges == t.exchanges + 1
    ensures r.trace.received == t.received
  {
    var r := PowerDown(s.(suspending := true), false, env, t);
    ValidFrame(s, r.port);
    r
  }

  /** max3140_suspend of an open port. After the port is marked
      suspending, the serial core's uart_suspend_port calls back into
      stop_rx and shutdown (`SuspendHooks`), so the power-down word goes
      out over the image stop_rx left, with reception off, and the chip's
      reply reaches the tty layer. */
  function SuspendOpen(s: Port, env: Env, t: Trace): (r: Done)
    requires Valid(s)
    ensures r.port == s.(suspending := true, conf := s.conf & !RM, rxEnabled := false,
                         irq := s.irq.(confCommit := true), run := Sr1(s.run, env.reply(t.exchanges)))
    ensures r.trace.sent == t.sent + [ShutdownWord(s.conf & !RM)] && r.trace.exchanges == t.exchanges + 1
    ensures r.trace.received == t.received + Rx(env, t.exchanges, t.exchanges + 1)
  {
    PowerDown(SuspendHooks(s.(suspending := true), env, t), true, env, t)
  }

  /** Suspending an open port keeps it set up for the service loop:
      clearing RM leaves the BAUD code, so the rate still matches. */
  lemma SuspendOpenKeepsValid(s: Port, env: Env, t: Trace)
    requires Valid(s)
    ensures Valid(SuspendOpen(s, env, t).port)
  {
    ClearRm(s.conf);
  }

  /** What uart_suspend_port runs of this driver on an open port already
      marked suspending: stop_rx, then shutdown, which returns at once. */
  function SuspendHooks(s: Port, env: Env, t: Trace): (p: Port)
    requires Valid(s) && s.suspending
    ensures Valid(p)
    ensures p == s.(conf := s.conf & !RM, rxEnabled := false, irq := s.irq.(confCommit := true))
  {
    var q := StopRx(s).port;
    assert Shutdown(q, env, t).port == q;
    Shutdown(q, env, t).port
  }

  /** The power-down command (max3140_cmd of WC | conf | SHDN); the reply's
      character is handed over only when a tty is attached. */
  function PowerDown(s: Port, tty: bool, env: Env, t: Trace): (r: Done)
    requires s.conf & WriteConf == 0
    ensures r.port == s.(run := Sr1(s.run, env.reply(t.exchanges)))
    ensures r.trace.sent == t.sent + [ShutdownWord(s.conf)] && r.trace.exchanges == t.exchanges + 1
    ensures r.trace.received == t.received + (if tty then Rx(env, t.exchanges, t.exchanges + 1) else [])
  {
    var c := Cmd(s.run, env, t, ShutdownWord(s.conf));
    Done(s.(run := c.run), if tty then c.trace else c.trace.(received := t.received))
  }

  /** Suspending a closed port twice sends the same power-down word again
      and leaves the port as the first suspend did, apart from the status
      the chip reports; while suspended, shutdown does nothing and startup
      touches neither the requests nor the chip. */
  lemma SuspendIsStable(s: Port, env: Env, t: Trace, irqOk: bool)
    requires s.conf & WriteConf == 0
    ensures var r1 := Suspend(s, env, t);
            var r2 := Suspend(r1.port, env, r1.trace);
            && r2.trace.sent == t.sent + [ShutdownWord(s.conf), ShutdownWord(s.conf)]
            && r2.port.(run := r1.port.run) == r1.port
            && Shutdown(r1.port, env, r1.trace) == Done(r1.port, r1.trace)
            && Startup(r1.port, irqOk, env, r1.trace).trace == r1.trace
            && Startup(r1.port, irqOk, env, r1.trace).port.irq == r1.port.irq
  {
  }

  /** The same for an open port: the second stop_rx finds reception
      already off, so the second power-down word is the first one again
      and the port is left as the first suspend left it. */
  lemma SuspendOpenIsStable(s: Port, env: Env, t: Trace)
    requires Valid(s)
    ensures Valid(SuspendOpen(s, env, t).port)
    ensures var r1 := SuspendOpen(s, env, t);
            var r2 := SuspendOpen(r1.port, env, r1.trace);
            && r2.trace.sent == t.sent + [ShutdownWord(s.conf & !RM), ShutdownWord(s.conf & !RM)]
            && r2.port.(run := r1.port.run) == r1.port
  {
    SuspendOpenKeepsValid(s, env, t);
    SuspendOpenKeepsImage(s, env, t);
  }

  /** Clearing RM a second time changes nothing. */
  lemma SuspendOpenKeepsImage(s: Port, env: Env, t: Trace)
    requires Valid(s)
    ensures SuspendOpen(s, env, t).port.conf & !RM == s.conf & !RM
  {
    ClearRm(s.conf);
  }

  /** max3140_resume. The serial core's uart_resume_port runs first; on a
      port it suspended while open (`open`) it calls back into startup,
      set_termios with the tty's format `req` and start_tx
      (`ResumeHooks`). Then the suspending mark is cleared and the worker
      is asked to reload the configuration. The core calls back only into
      a port it suspended, which this driver has it do after marking the
      port suspending, and only resume clears that mark. */
  function Resume(s: Port, open: bool, req: Termios.Request): (r: Woken)
    requires open ==> s.suspending
    ensures !r.port.suspending && r.port.irq.confCommit && r.wake
    ensures !open ==> Valid(r.port) == Valid(s)
    ensures !open ==> r.port == s.(suspending := false, irq := s.irq.(confCommit := true))
    ensures open ==> r.port == ResumeHooks(s, req).(suspending := false)
  {
    var s1 := if open then ResumeHooks(s, req) else s;
    Woken(s1.(suspending := false, irq := s1.irq.(confCommit := true)), true)
  }

  /** What uart_resume_port runs of this driver on a port it suspended
      while open: startup, which only resets the line as the port is still
      marked suspending; set_termios with the tty's format `req`; start_tx.
      Reception is back on, the chip is out of shutdown, the rate is the
      requested one when the crystal supports it and startup's otherwise,
      and the worker is asked to switch the driver off, load the
      configuration and send. */
  function ResumeHooks(s: Port, req: Termios.Request): (p: Port)
    requires s.suspending
    ensures Valid(p) <==> Xmit.Valid(s.xmit)
    ensures p.irq == s.irq.(confCommit := true, driverDisable := true, txStarted := true)
    ensures p.rxEnabled && p.conf & RM != 0 && p.conf & TM != 0 && p.conf & SHDN == 0 && p.conf & WriteConf == 0
    ensures p.baud == (if Baud.Supported(req.rate, s.crystal) then req.rate else Baud.BaseRate(s.crystal))
    ensures p.parity == ParityMode(on := req.cflag.parenb, odd := req.cflag.parodd, sevenBit := req.cflag.size != Termios.CS8)
    ensures p == s.(conf := p.conf, baud := p.baud, parity := p.parity, rxEnabled := true,
                    rtsSleep := p.rtsSleep, ignoreStatus := p.ignoreStatus, irq := p.irq)
  {
    var q := ResetLine(s);
    assert Startup(s, true, Env(_ => Reply(false, 0), _ => 0, false), Trace(0, 0, [], [])).port == q;
    var a := Termios.SetTermios(q, req).port;
    Termios.SetTermiosRate(q, req);
    StartupConfKept(a.conf & BAUD, req.cflag, a.conf);
    StartTx(a).port
  }

  /** A format merged into the startup configuration keeps reception and
      transmit interrupts on and software shutdown off. */
  lemma StartupConfKept(code: Word, f: Termios.Cflag, c: Word)
    requires code <= 15 && c == Termios.MergeConf(StartupConf, code, f)
    ensures c & RM != 0 && c & TM != 0 && c & SHDN == 0 && c & WriteConf == 0
  {
  }

  /** Suspend and resume of a port that is not open have the worker load
      the configuration the port had, which leaves software shutdown
      whenever that configuration did. */
  lemma ResumeReloadsConfiguration(s: Port, req: Termios.Request, env: Env, t: Trace)
    requires s.conf & WriteConf == 0
    ensures var p := Resume(Suspend(s, env, t).port, false, req).port;
            && ConfWord(s.conf) in Worker.Commands(p)
            && (ConfWord(s.conf) & SHDN == 0 <==> s.conf & SHDN == 0)
  {
    var p := Resume(Suspend(s, env, t).port, false, req).port;
    assert Worker.Commands(p)[|Worker.Commands(p)| - 1] == ConfWord(s.conf);
  }

  /** Suspend and resume of an open port: suspend's stop_rx clears RM, so
      the power-down word goes out with reception off; resume has the
      worker switch the driver off, then load a configuration with
      reception back on and the shutdown bit clear, and serve the transmit
      side last. */
  lemma SuspendResumeOpenPort(s: Port, req: Termios.Request, env: Env, t: Trace)
    requires Valid(s)
    ensures var su := SuspendOpen(s, env, t);
            var p := Resume(su.port, true, req).port;
            && su.trace.sent == t.sent + [ShutdownWord(s.conf & !RM)]
            && ShutdownWord(s.conf & !RM) & RM == 0
            && Valid(p)
            && Worker.Commands(p) == [DisableWord(s.invertRts), ConfWord(p.conf)]
            && ConfWord(p.conf) & RM != 0 && ConfWord(p.conf) & SHDN == 0
            && Worker.Plan(p.irq)[|Worker.Plan(p.irq)| - 1] == Worker.ServiceTx
  {
    ClearRm(s.conf);
    var p := Resume(SuspendOpen(s, env, t).port, true, req).port;
    Worker.NoRequestIgnored(p.irq);
  }

  /** max3140_probe for a board with the given options: the port structure
      starts zeroed, the options are copied in, and the chip is put into
      software shutdown until the port is opened. The transmit buffer is
      the serial core's and does not exist before the first open; it is
      modelled as empty. A probed port is not set up for the service loop:
      its configuration image and rate are zero, and no BAUD code gives a
      zero rate. The thread, timer and registration steps are left out. */
  function Probe(crystal: bool, loopback: bool, invertRts: bool, env: Env, t: Trace): (r: Done)
    ensures !Valid(r.port)
    ensures r.port.crystal == crystal && r.port.loopback == loopback && r.port.invertRts == invertRts
    ensures r.port.conf == 0 && r.port.irq == NoRequests && !r.port.suspending && !r.port.forceEndWork
    ensures r.trace.sent == t.sent + [ProbeWord()] && r.trace.exchanges == t.exchanges + 1
    ensures r.trace.received == t.received
  {
    var s := Port(crystal, loopback, invertRts, 0, 0, NoParity, false, 0, NoRequests, RunFlags(false, false),
                  false, false, false, 0, 0, Xmit.Queue([], 0, 0), 0, false, 0);
    var c := Cmd(s.run, env, t, ProbeWord());
    Done(s.(run := c.run), c.trace.(received := t.received))
  }

  /** A port that was probed but never opened still takes a suspend and a
      resume. Suspend repeats the shutdown word probe sent, but resume asks
      the worker to load the zeroed configuration image, and that word has
      the shutdown bit clear: the chip leaves the low-power state while the
      port stays closed. The activation that sends it runs no service
      loop. Nothing the chip replies reaches the tty layer. */
  lemma ResumeWakesClosedPort(crystal: bool, loopback: bool, invertRts: bool, req: Termios.Request, env: Env, t: Trace)
    ensures var pr := Probe(crystal, loopback, invertRts, env, t);
            var su := Suspend(pr.port, env, pr.trace);
            var p := Resume(su.port, false, req).port;
            && su.trace.sent == t.sent + [ProbeWord(), ProbeWord()]
            && su.trace.received == t.received
            && !Valid(p) && !Worker.RunsService(p.irq)
            && Worker.Plan(p.irq) == [Worker.CommitConf]
            && Worker.Commands(p) == [ConfWord(0)]
            && ConfWord(0) & SHDN == 0 && ProbeWord() & SHDN != 0
  {
  }

  // Modem-status bits of TIOCMGET.
  const TiocmCar: bv32 := 0x040
  const TiocmCts: bv32 := 0x020
  const TiocmDsr: bv32 := 0x100

  /** max3140_get_mctrl: carrier detect and data-set-ready are always
      reported, since those lines are not wired; clear-to-send follows the
      cached CTS flag. */
  function GetMctrl(s: Port): (m: bv32)
    ensures (m & TiocmCts != 0) <==> s.cts
    ensures m & TiocmCar != 0 && m & TiocmDsr != 0
    ensures m & !(TiocmCar | TiocmCts | TiocmDsr) == 0
  {
    (if s.cts then TiocmCts else 0) | TiocmDsr | TiocmCar
  }

  // Port types of the serial core.
  const PortUnknown: int := 0
  const PortMax3100: int := 86
  const UartConfigType: bv32 := 1

  /** max3140_config_port: autoconfiguration sets the port type to
      MAX3100 when the serial core asks for the type. */
  function ConfigPort(portType: int, flags: bv32): (ty: int)
    ensures flags & UartConfigType != 0 ==> ty == PortMax3100
    ensures flags & UartConfigType == 0 ==> ty == portType
  {
    if flags & UartConfigType != 0 then PortMax3100 else portType
  }

  /** max3140_verify_port: a new serial setting is accepted only for an
      unknown port type or a MAX3100; anything else is -EINVAL. */
  function VerifyPort(requested: int): (r: int)
    ensures r == 0 || r == -EINVAL
    ensures r == 0 <==> requested in {PortUnknown, PortMax3100}
  {
    if requested == PortUnknown || requested == PortMax3100 then 0 else -EINVAL
  }

  /** Whatever type autoconfiguration leaves, starting from an accepted
      one, is accepted again. */
  lemma VerifyAcceptsConfiguredType(portType: int, flags: bv32)
    requires VerifyPort(portType) == 0
    ensures VerifyPort(ConfigPort(portType, flags)) == 0
  {
  }
}
