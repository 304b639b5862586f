/** The 16-bit words exchanged with a MAX3140 over SPI, the bit fields the
    driver uses in them, and the fixed command words it issues.

    A command word selects its operation with bits 15 (write) and 14
    (configuration); the chip answers every exchange with a status word
    whose bit 15 says a received character is available (R) and bit 14 that
    the transmit buffer is empty (T). */
module Words {

  type Word = bv16
  type Byte = bv8

  // Operation selectors, bits 15 and 14 of a command word.
  const WriteOp: Word := 0x8000
  const ConfOp: Word := 0x4000
  const WriteConf: Word := 0xC000   // write configuration
  const WriteData: Word := 0x8000   // write data (also reads one character)
  const ReadData: Word := 0x0000    // read data

  // Status bits of a response word.
  const StatusT: Word := 0x4000     // transmit buffer empty
  const StatusR: Word := 0x8000     // received character available

  // Configuration register bits.
  const FEN: Word := 0x2000
  const SHDN: Word := 0x1000        // software shutdown
  const TM: Word := 0x0800          // transmit-empty interrupt mask
  const RM: Word := 0x0400          // receive interrupt mask
  const PM: Word := 0x0200
  const RAM: Word := 0x0100
  const IR: Word := 0x0080
  const ST: Word := 0x0040          // two stop bits
  const PE: Word := 0x0020          // parity bit enabled
  const L: Word := 0x0010           // seven data bits
  const BAUD: Word := 0x000F        // baud-rate divisor code

  /** The bits set_termios is allowed to change in the configuration. */
  const FormatMask: Word := 0x007F

  // Write-data word bits.
  const TE: Word := 0x0400          // transmit disabled: only RTS is updated
  const RTS: Word := 0x0200         // RTS output, drives the RS-485 driver enable
  const PT: Word := 0x0100          // parity bit sent with the character
  const DATA: Word := 0x00FF

  /** The RTS field of a write-data word asking for RTS level `raise`, on a
      board whose RTS line may be wired inverted. */
  function SetRts(invertRts: bool, raise: bool): (w: Word)
    ensures w & !RTS == 0
    ensures (w & RTS != 0) <==> (raise != invertRts)
  {
    if raise then (if invertRts then 0 else RTS)
    else (if invertRts then RTS else 0)
  }

  /** True when `w` drives RTS to the level that keeps the RS-485 driver on
      (the level SetRts gives for `raise == false`). */
  predicate DriverOn(invertRts: bool, w: Word)
  {
    (w & RTS != 0) == invertRts
  }

  /** The word that switches the RS-485 driver off without sending a
      character. */
  function DisableWord(invertRts: bool): (w: Word)
    ensures w & WriteConf == WriteData
    ensures w & TE != 0
    ensures !DriverOn(invertRts, w)
    ensures w & DATA == 0 && w & PT == 0
  {
    WriteData | TE | SetRts(invertRts, true)
  }

  /** The word that loads `conf` into the configuration register. */
  function ConfWord(conf: Word): (w: Word)
    requires conf & WriteConf == 0
    ensures w & WriteConf == WriteConf
    ensures w & !WriteConf == conf
  {
    WriteConf | conf
  }

  /** The configuration word that keeps `conf` but puts the chip into
      software shutdown. */
  function ShutdownWord(conf: Word): (w: Word)
    requires conf & WriteConf == 0
    ensures w & WriteConf == WriteConf
    ensures w & SHDN != 0
    ensures w & !(WriteConf | SHDN) == conf & !SHDN
  {
    WriteConf | conf | SHDN
  }

  /** Received character carried in the low byte of a status word. */
  function Low(w: Word): (b: Byte)
    ensures b as Word == w & DATA
  {
    (w & DATA) as Byte
  }

  /** The chip's answer to an exchange, as the data sheet lays it out: R in
      bit 15, T in bit 14, the received character in bits 0..7. */
  function StatusWord(rxReady: bool, txEmpty: bool, data: Byte): Word
  {
    (if rxReady then StatusR else 0) | (if txEmpty then StatusT else 0) | data as Word
  }

  /** Reading a status word back recovers the two flags and the character. */
  lemma StatusWordFields(rxReady: bool, txEmpty: bool, data: Byte)
    ensures (StatusWord(rxReady, txEmpty, data) & StatusR != 0) == rxReady
    ensures (StatusWord(rxReady, txEmpty, data) & StatusT != 0) == txEmpty
    ensures Low(StatusWord(rxReady, txEmpty, data)) == data
  {
  }
}
