/** The driver's per-chip state (struct max3140hd_port), reduced to what
    the worker, the format mapping and the lifecycle hooks read and write. */
module PortState {
  import opened Words
  import opened Parity
  import Baud
  import Xmit

  /** The worker's request flags (irqflags). Producers set them; only the
      worker clears them. */
  datatype IrqFlags = IrqFlags(driverDisable: bool, irqPending: bool, txStarted: bool, confCommit: bool)

  const NoRequests := IrqFlags(false, false, false, false)

  /** Chip status cached from the last successful exchange (runflags). */
  datatype RunFlags = RunFlags(rxPending: bool, txEmpty: bool)

  datatype Port = Port(
    // board options, fixed at probe
    crystal: bool,
    loopback: bool,
    invertRts: bool,
    // line format
    conf: Word,            // configuration register image
    baud: int,             // current baud rate
    parity: ParityMode,    // software parity setting
    rxEnabled: bool,
    ignoreStatus: nat,     // ignore_status_mask
    // worker state
    irq: IrqFlags,
    run: RunFlags,
    cts: bool,
    forceEndWork: bool,
    suspending: bool,
    // driver-enable timing, in nanoseconds
    rtsSleep: int,         // hold time after one character
    deadline: int,         // keep the driver on until this time (now_ts)
    // transmit side, owned by the tty layer
    xmit: Xmit.Queue,
    xChar: Byte,           // high-priority character (XON/XOFF), 0 if none
    txStopped: bool,       // uart_tx_stopped
    txCount: nat           // icount.tx
  )

  /** What holds of a port between startup and shutdown: the chip's BAUD
      code produces the rate the port believes in, the configuration image
      leaves the operation bits free, the hold time is not negative and
      the transmit buffer is well formed. */
  predicate Valid(s: Port)
  {
    && s.conf & WriteConf == 0
    && Baud.ChipBaud(s.conf & BAUD, s.crystal) == s.baud
    && s.rtsSleep >= 0
    && Xmit.Valid(s.xmit)
  }

  /** Validity depends only on the line format, the board's crystal and
      the transmit buffer. */
  lemma ValidFrame(s: Port, p: Port)
    requires p.conf == s.conf && p.crystal == s.crystal && p.baud == s.baud
    requires p.rtsSleep == s.rtsSleep && p.xmit == s.xmit
    ensures Valid(p) == Valid(s)
  {
  }

  /** A configuration change that keeps the operation bits clear and the
      BAUD code as it was keeps a valid port valid. */
  lemma ValidKeepsBaud(s: Port, conf: Word)
    requires Valid(s) && conf & WriteConf == 0 && conf & BAUD == s.conf & BAUD
    ensures Valid(s.(conf := conf))
  {
  }
}
