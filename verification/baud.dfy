/** Baud-rate selection. The MAX3140 divides its oscillator by 16 and then
    by one of sixteen divisors chosen with the four-bit BAUD code of the
    configuration word. Boards strap either a 1.8432 MHz or a 3.6864 MHz
    crystal; the driver's `crystal` flag says which. */
module Baud {
  import opened Words

  /** The highest rate the chip can produce: the oscillator over 16. */
  function BaseRate(crystal: bool): int
  {
    if crystal then 230400 else 115200
  }

  /** Divisor the chip applies for each BAUD code (MAX3100/MAX3140 data
      sheet, baud-rate selection table). */
  function Divisor(code: Word): (d: int)
    requires code <= 15
    ensures d > 0
  {
    if code == 0 then 1 else if code == 1 then 2 else if code == 2 then 4
    else if code == 3 then 8 else if code == 4 then 16 else if code == 5 then 32
    else if code == 6 then 64 else if code == 7 then 128 else if code == 8 then 3
    else if code == 9 then 6 else if code == 10 then 12 else if code == 11 then 24
    else if code == 12 then 48 else if code == 13 then 96 else if code == 14 then 192
    else 384
  }

  /** The line rate the chip produces with BAUD code `code`. */
  function ChipBaud(code: Word, crystal: bool): (rate: int)
    requires code <= 15
    ensures 300 <= rate <= 230400
  {
    BaseRate(crystal) / Divisor(code)
  }

  /** The rates the driver's switch accepts for a crystal. */
  predicate Supported(rate: int, crystal: bool)
  {
    rate in {600, 1200, 2400, 4800, 9600, 19200, 38400, 57600, 115200}
    || (rate == 300 && !crystal)
    || (rate == 230400 && crystal)
  }

  /** The baud rate the port keeps and the BAUD code it loads. */
  datatype BaudChoice = BaudChoice(baud: int, code: Word)

  /** Maps a requested rate to a BAUD code. A rate the crystal cannot
      produce keeps the previous rate and the previous code (the low four
      bits of the current configuration). */
  function SelectBaud(rate: int, crystal: bool, prevBaud: int, prevConf: Word): (r: BaudChoice)
    ensures r.code <= 15
    ensures Supported(rate, crystal) ==> r.baud == rate && ChipBaud(r.code, crystal) == rate
    ensures !Supported(rate, crystal) ==> r.baud == prevBaud && r.code == prevConf & BAUD
  {
    var x: Word := if crystal then 1 else 0;
    var keep := BaudChoice(prevBaud, prevConf & BAUD);
    if rate == 300 then (if crystal then keep else BaudChoice(rate, 15))
    else if rate == 600 then BaudChoice(rate, 14 + x)
    else if rate == 1200 then BaudChoice(rate, 13 + x)
    else if rate == 2400 then BaudChoice(rate, 12 + x)
    else if rate == 4800 then BaudChoice(rate, 11 + x)
    else if rate == 9600 then BaudChoice(rate, 10 + x)
    else if rate == 19200 then BaudChoice(rate, 9 + x)
    else if rate == 38400 then BaudChoice(rate, 8 + x)
    else if rate == 57600 then BaudChoice(rate, 1 + x)
    else if rate == 115200 then BaudChoice(rate, 0 + x)
    else if rate == 230400 then (if crystal then BaudChoice(rate, 0) else keep)
    else keep
  }

  /** The code families of the two crystals are one apart: the faster
      crystal needs the next larger divisor code for the same rate. */
  lemma CrystalShiftsCode(rate: int, b: int, conf: Word)
    requires rate in {600, 1200, 2400, 4800, 9600, 19200, 38400, 57600, 115200}
    ensures SelectBaud(rate, true, b, conf).code == SelectBaud(rate, false, b, conf).code + 1
  {
  }

  /** Asking for an unsupported rate a second time, from the state the first
      request left, gives the same rate and code again. */
  lemma FallbackIsStable(rate: int, crystal: bool, b: int, conf: Word)
    requires !Supported(rate, crystal)
    ensures var r := SelectBaud(rate, crystal, b, conf);
            SelectBaud(rate, crystal, r.baud, (conf & !BAUD) | r.code) == r
  {
  }
}
