/** max3140_set_termios: turning a requested line format into the chip's
    configuration bits, the software parity setting and the driver-enable
    hold time. */
module Termios {
  import opened Words
  import opened Parity
  import opened Baud
  import opened PortState
  import Timing

  datatype CharSize = CS5 | CS6 | CS7 | CS8

  /** The c_cflag fields the driver reads or rewrites. */
  datatype Cflag = Cflag(size: CharSize, cstopb: bool, parenb: bool, parodd: bool, cmspar: bool)

  /** A format request: c_cflag, the IGNPAR input flag and the baud rate
      the tty layer decoded from it. */
  datatype Request = Request(cflag: Cflag, ignpar: bool, rate: int)

  /** Bits on the wire per character as the driver counts them: ten for
      8N1, one less for seven data bits, one more for a second stop bit
      and one more for a parity bit. */
  function BitsPerByte(f: Cflag): (n: nat)
    ensures 9 <= n <= 12
  {
    10 - (if f.size == CS8 then 0 else 1) + (if f.cstopb then 1 else 0) + (if f.parenb then 1 else 0)
  }

  /** Length of a frame as the chip sends it under configuration `conf`:
      a start bit, seven or eight data bits, an optional parity bit and
      one or two stop bits. */
  function FrameBits(conf: Word): nat
  {
    1 + (if conf & L != 0 then 7 else 8) + (if conf & PE != 0 then 1 else 0) + (if conf & ST != 0 then 2 else 1)
  }

  /** The L, ST and PE bits for a format. */
  function FormatBits(f: Cflag): (w: Word)
    ensures w & !(L | ST | PE) == 0
  {
    (if f.size == CS8 then 0 else L) | (if f.cstopb then ST else 0) | (if f.parenb then PE else 0)
  }

  /** The configuration after a format change: the BAUD, L, ST and PE
      fields are replaced, every other bit is kept. */
  function MergeConf(conf: Word, code: Word, f: Cflag): (c: Word)
    requires code <= 15
    ensures c & !FormatMask == conf & !FormatMask
    ensures c & BAUD == code
    ensures (c & L != 0) == (f.size != CS8)
    ensures (c & ST != 0) == f.cstopb
    ensures (c & PE != 0) == f.parenb
    ensures c & IR == conf & IR
  {
    var mask := BAUD | L | ST | PE;
    (conf & !mask) | ((code | FormatBits(f)) & mask)
  }

  datatype Applied = Applied(port: Port, cflag: Cflag)

  /** Applies a format request. Sizes other than eight bits become seven,
      mark/space parity is dropped from the returned c_cflag, and the
      worker is asked both to load the new configuration and to switch the
      RS-485 driver off. */
  function SetTermios(s: Port, t: Request): (r: Applied)
    requires s.baud > 0
    ensures r.cflag.size in {CS7, CS8} && !r.cflag.cmspar
    ensures (r.cflag.size == CS8) == (t.cflag.size == CS8)
    ensures r.cflag.(size := t.cflag.size, cmspar := t.cflag.cmspar) == t.cflag
    ensures r.port.parity == ParityMode(on := t.cflag.parenb, odd := t.cflag.parodd, sevenBit := t.cflag.size != CS8)
    ensures r.port.irq == s.irq.(confCommit := true, driverDisable := true)
    ensures r.port == s.(conf := r.port.conf, baud := r.port.baud, parity := r.port.parity,
                         rtsSleep := r.port.rtsSleep, ignoreStatus := r.port.ignoreStatus,
                         irq := r.port.irq)
  {
    var choice := SelectBaud(t.rate, s.crystal, s.baud, s.conf);
    var f := t.cflag;
    var conf := MergeConf(s.conf, choice.code, f);
    var parity := ParityMode(on := f.parenb, odd := f.parodd, sevenBit := f.size != CS8);
    var s' := s.(conf := conf, baud := choice.baud, parity := parity,
                 rtsSleep := Timing.HoldTime(BitsPerByte(f), choice.baud),
                 ignoreStatus := if t.ignpar then 7 else 0,
                 irq := s.irq.(confCommit := true, driverDisable := true));
    Applied(s', f.(size := if f.size == CS8 then CS8 else CS7, cmspar := false))
  }

  /** The chip's L, ST and PE bits follow the request, and so does the
      software parity the worker applies; no other configuration bit but
      the rate code changes. */
  lemma SetTermiosFormat(s: Port, t: Request)
    requires s.baud > 0
    ensures var p := SetTermios(s, t).port;
            && p.conf & !FormatMask == s.conf & !FormatMask
            && p.parity.on == (p.conf & PE != 0) == t.cflag.parenb
            && p.parity.sevenBit == (p.conf & L != 0) == (t.cflag.size != CS8)
            && (p.conf & ST != 0) == t.cflag.cstopb
  {
  }

  /** The requested rate is taken when the chip can produce it with the
      port's crystal, and the chip's rate code is set to produce it;
      otherwise the rate and code stay as they were. */
  lemma SetTermiosRate(s: Port, t: Request)
    requires s.baud > 0
    ensures var p := SetTermios(s, t).port;
            && (Supported(t.rate, s.crystal) ==> p.baud == t.rate && ChipBaud(p.conf & BAUD, s.crystal) == t.rate)
            && (!Supported(t.rate, s.crystal) ==> p.baud == s.baud && p.conf & BAUD == s.conf & BAUD)
  {
  }

  /** The hold time is one frame at the new rate, counted as the chip
      frames characters under the new configuration. */
  lemma SetTermiosHoldsOneFrame(s: Port, t: Request)
    requires s.baud > 0
    ensures var p := SetTermios(s, t).port;
            p.rtsSleep == Timing.HoldTime(FrameBits(p.conf), p.baud)
  {
  }

  /** A format change keeps a valid port valid. */
  lemma SetTermiosKeepsValid(s: Port, t: Request)
    requires Valid(s)
    ensures Valid(SetTermios(s, t).port)
  {
  }

  /** Applying the same request twice leaves the port as the first
      application did: in particular an unsupported rate falls back to the
      same rate and code both times. */
  lemma SetTermiosIdempotent(s: Port, t: Request)
    requires s.baud > 0
    ensures SetTermios(SetTermios(s, t).port, t).port == SetTermios(s, t).port
  {
    var c1 := SelectBaud(t.rate, s.crystal, s.baud, s.conf);
    ReselectSame(t.rate, s.crystal, s.baud, s.conf, t.cflag);
    MergeConfIdempotent(s.conf, c1.code, t.cflag);
  }

  /** Selecting the rate again from the configuration a first selection
      produced gives the first selection back. */
  lemma ReselectSame(rate: int, crystal: bool, b: int, conf: Word, f: Cflag)
    ensures var c := SelectBaud(rate, crystal, b, conf);
            SelectBaud(rate, crystal, c.baud, MergeConf(conf, c.code, f)) == c
  {
  }

  lemma MergeConfIdempotent(conf: Word, code: Word, f: Cflag)
    requires code <= 15
    ensures MergeConf(MergeConf(conf, code, f), code, f) == MergeConf(conf, code, f)
  {
  }
}
