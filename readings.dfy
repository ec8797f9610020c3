/** What the sweeps make of one `PIDDataReadout` result: the PV and SV cells of a row,
    and the stop test of the temperature-bounded sweep.

    The sweeps test the result only against None. When the LRC does not match,
    `PIDDataReadout` returns its diagnostic string, and `temp[0], temp[1]` then picks the
    first two letters of that string, "r" and "a", as if they were the two temperatures.
    `AsWrittenCells` and `AsWrittenReached` keep that behaviour; the rest of the model
    uses `TemperatureOf`, which treats a failed check like a missing reply. */
module Readings {
  import opened Common
  import opened FrameCodec
  import opened Frames

  /** A controller reading as the sweeps mean to use it: both registers, in tenths of a
      degree, or nothing usable. */
  datatype Temperature = Degrees(pv: int, sv: int) | Unavailable

  /** A reply counts as a reading only when it decoded with a matching LRC. */
  function TemperatureOf(r: Readout): (t: Temperature)
    ensures t.Degrees? <==> r.Reading?
    ensures t.Degrees? ==> t.pv == r.pv && t.sv == r.sv
  {
    match r
    case Reading(pv, sv) => Degrees(pv, sv)
    case _ => Unavailable
  }

  /** The PV and SV cells of a row: the registers, or `unavailable` (None in some sweeps,
      nan in others) for both. */
  function TemperatureCells(t: Temperature, unavailable: Cell): (cells: (Cell, Cell))
    ensures t.Degrees? ==> cells == (Tenths(t.pv), Tenths(t.sv))
    ensures t.Unavailable? ==> cells == (unavailable, unavailable)
  {
    match t
    case Degrees(pv, sv) => (Tenths(pv), Tenths(sv))
    case Unavailable => (unavailable, unavailable)
  }

  /** The cells never hold anything but a register value or the marker for a missing one. */
  lemma CellsAreReadingsOrMarker(r: Readout, unavailable: Cell)
    ensures var cells := TemperatureCells(TemperatureOf(r), unavailable);
            (cells.0.Tenths? && cells.1.Tenths? && r.Reading?)
            || (cells == (unavailable, unavailable) && !r.Reading?)
  {
  }

  /** A well-formed reply line ends up in the row as its two register values. */
  lemma ReplyFrameCells(pv: Word, sv: Word, unavailable: Cell)
    ensures DecodeReply(Strip(ReplyFrame(pv, sv))).Ok?
    ensures TemperatureCells(TemperatureOf(DecodeReply(Strip(ReplyFrame(pv, sv))).value), unavailable)
            == (Tenths(pv), Tenths(sv))
  {
    DecodeReplyFrame(pv, sv);
  }

  /** The cells as the sweeps compute them: `temp[0], temp[1]` of whatever is not None,
      which for the diagnostic string are its first two characters. */
  function AsWrittenCells(r: Readout, unavailable: Cell): (cells: (Cell, Cell))
    ensures r.Reading? ==> cells == (Tenths(r.pv), Tenths(r.sv))
    ensures r.NoFrame? ==> cells == (unavailable, unavailable)
  {
    match r
    case NoFrame => (unavailable, unavailable)
    case Reading(pv, sv) => (Tenths(pv), Tenths(sv))
    case LrcMismatch(d) =>
      if |d| >= 2 then (Letter(d[0]), Letter(d[1]))
      else (unavailable, unavailable)
  }

  /** The stop test of the temperature-bounded sweep on a PV cell, as written: nan
      compares false both ways; a string compared with a number raises TypeError. */
  function AsWrittenReached(pv: Cell, heating: bool, until: int): (r: Result<bool>)
    ensures pv.Letter? || pv.Missing? ==> r == Err(TypeError)
    ensures pv.NotANumber? ==> r == Ok(false)
  {
    match pv
    case Tenths(p) => Ok(if heating then p >= until else p <= until)
    case Whole(n) => Ok(if heating then 10 * n >= until else 10 * n <= until)
    case Real(x) => Ok(if heating then 10.0 * x >= until as real else 10.0 * x <= until as real)
    case NotANumber => Ok(false)
    case Missing => Err(TypeError)
    case Letter(_) => Err(TypeError)
  }

  /** The stop test as intended: a usable PV at or past the target in the direction of
      travel; an unavailable reading never stops the sweep. */
  function Reached(t: Temperature, heating: bool, until: int): (stop: bool)
    ensures stop ==> t.Degrees?
    ensures t.Degrees? && heating ==> (stop <==> t.pv >= until)
    ensures t.Degrees? && !heating ==> (stop <==> t.pv <= until)
  {
    match t
    case Degrees(pv, _) => if heating then pv >= until else pv <= until
    case Unavailable => false
  }

  /** On every reply the two agree except on a failed LRC check, where the reading is
      unavailable as intended but shows letters as written. */
  lemma AsWrittenDiffersOnlyOnMismatch(r: Readout, unavailable: Cell)
    requires !r.LrcMismatch?
    ensures AsWrittenCells(r, unavailable) == TemperatureCells(TemperatureOf(r), unavailable)
  {
  }

  /** The sweeps' test on the nan cell agrees with the intended test. */
  lemma ReachedAgreesOnCells(t: Temperature, heating: bool, until: int)
    ensures AsWrittenReached(TemperatureCells(t, NotANumber).0, heating, until) == Ok(Reached(t, heating, until))
  {
  }

  /** A reply whose LRC field was corrupted: as written, the row records "r" and "a" as
      PV and SV, and the bounded sweep's stop test raises TypeError; as intended, the
      reading is unavailable, the cells are the marker and the sweep goes on. */
  lemma CorruptedLrcShowsLetters(pv: Word, sv: Word, l: string, unavailable: Cell, heating: bool, until: int)
    requires |l| == 2 && LrcOf(ReplyBody(pv, sv)) != Ok(l)
    ensures DecodeReply(":" + ReplyBody(pv, sv) + l).Ok?
    ensures AsWrittenCells(DecodeReply(":" + ReplyBody(pv, sv) + l).value, unavailable) == (Letter('r'), Letter('a'))
    ensures AsWrittenReached(Letter('r'), heating, until) == Err(TypeError)
    ensures TemperatureOf(DecodeReply(":" + ReplyBody(pv, sv) + l).value) == Unavailable
    ensures !Reached(Unavailable, heating, until)
  {
    DecodeDetectsBadLrc(pv, sv, l);
    var d := DecodeReply(":" + ReplyBody(pv, sv) + l).value.diagnostic;
    assert d[..4] == "raw=";
    assert d[0] == 'r' && d[1] == 'a';
  }
}
