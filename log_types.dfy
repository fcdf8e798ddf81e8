// What the two PT_Log back ends (src/log/pt_log_posix.c and
// src/log/pt_log_mac.c) share through include/pt_log.h: the levels, the
// category and output bits, the level names, the level/category filter and
// the text of a performance entry.
module PtLog {
  import opened PtTypes
  import opened Compat

  // Levels (include/pt_log.h:134-138).
  const NONE := 0
  const ERR := 1
  const WARN := 2
  const INFO := 3
  const DEBUG := 4

  /** Every category bit (include/pt_log.h:163). */
  const CAT_ALL: bv16 := 0xFFFF

  // Output routing bits (include/pt_log.h:168-171).
  const OUT_NONE: bv8 := 0x00
  const OUT_FILE: bv8 := 0x01
  const OUT_CONSOLE: bv8 := 0x02
  const OUT_CALLBACK: bv8 := 0x04

  const UINT32_LIMIT := 0x1_0000_0000

  /** The three-letter names of levels 0..4. */
  const LEVEL_NAMES: seq<string> := ["---", "ERR", "WRN", "INF", "DBG"]

  /** `PT_LogLevelName`: the name of a level, "???" for anything outside 0..4. */
  function LevelName(level: int): (name: string)
    ensures |name| == 3
    ensures name == "???" <==> level < NONE || level > DEBUG
    ensures NONE <= level <= DEBUG ==> name == LEVEL_NAMES[level]
  {
    if level < NONE || level > DEBUG then "???" else LEVEL_NAMES[level]
  }

  /**
   * The filter of `PT_LogWriteV`: a message passes when its level is at most
   * the configured level and its category shares a bit with the configured
   * categories.
   */
  predicate Passes(level: int, category: bv16, threshold: int, categories: bv16)
  {
    level <= threshold && Overlaps(category, categories)
  }

  /** Whether two category masks share a bit. */
  predicate Overlaps(a: bv16, b: bv16)
  {
    a & b != 0
  }

  /** Raising the configured level, or adding categories, lets through at least as much. */
  lemma PassesMonotone(level: int, category: bv16, threshold: int, categories: bv16, threshold': int, categories': bv16)
    requires Passes(level, category, threshold, categories)
    requires threshold <= threshold' && categories & categories' == categories
    ensures Passes(level, category, threshold', categories')
  {
    assert category & categories' & categories == category & categories;
  }

  /** With every category enabled, only the level decides; level NONE silences every real message. */
  lemma PassesAll(level: int, category: bv16, threshold: int)
    ensures Passes(level, category, threshold, CAT_ALL) <==> level <= threshold && category != 0
    ensures level >= ERR ==> !Passes(level, category, NONE, CAT_ALL)
  {
  }

  /** "%08u": a 32-bit count, in decimal, zero-padded to eight places. */
  function Stamp(t: nat): (r: string)
    requires t < UINT32_LIMIT
    ensures 8 <= |r| <= 10
    ensures t < 100_000_000 ==> |r| == 8
  {
    StampLength(t);
    PaddedText(false, Numeral(t, 10, false), 8, true)
  }

  lemma StampLength(t: nat)
    requires t < UINT32_LIMIT
    ensures var r := PaddedText(false, Numeral(t, 10, false), 8, true);
            8 <= |r| <= 10 && (t < 100_000_000 ==> |r| == 8)
  {
    MagnitudeDigits(t, 10, false);
    PaddedTextLength(false, Numeral(t, 10, false), 8, true);
    if 0 < t < 100_000_000 {
      DigitsShort(t, 10, false, 8);
      assert Pow10(8) == 100_000_000;
    }
  }

  /** "[%08u][%s] ": the prefix of a log line. */
  function Prefix(t: nat, level: int): (r: string)
    requires t < UINT32_LIMIT
    ensures 16 <= |r| <= 18
    ensures r[0] == '[' && r[|r| - 2..] == "] "
  {
    "[" + Stamp(t) + "][" + LevelName(level) + "] "
  }

  /** One call of the message callback: the level, the category, the timestamp and the text handed over. */
  datatype Delivery = Delivery(level: int, category: bv16, timestampMs: uint32, text: string)

  /**
   * Where flushing leaves the buffer position (`flush_to_file` on POSIX,
   * `flush_buffer` on the Mac): the buffer is emptied only into an open file.
   */
  function AfterFlush(pos: int, fileOpen: bool): (p: int)
    ensures p == pos || (fileOpen && p == 0)
    ensures fileOpen ==> p == 0 || pos <= 0
  {
    if fileOpen && pos > 0 then 0 else pos
  }

  /** A performance record (include/pt_log.h:175-183). */
  datatype PerfEntry = PerfEntry(seqNum: uint32, timestampMs: uint32, value1: uint16, value2: uint16,
                                 eventType: byte, flags: byte, category: bv16)

  /**
   * The text line a performance entry prints as, with its label `caption` when it is
   * present and not empty, ended by `eol`.
   */
  function PerfText(e: PerfEntry, caption: Option<string>, eol: string): (r: string)
    ensures "[" + Stamp(e.timestampMs) + "][INF] PERF " <= r
  {
    var head := "[" + Stamp(e.timestampMs) + "][INF] PERF ";
    var captiond := if caption.Some? && StrLen(caption.value) > 0 then caption.value[..StrLen(caption.value)] + ": " else "";
    var body := "seq=" + Numeral(e.seqNum, 10, false) + " type=" + Numeral(e.eventType, 10, false)
                + " v1=" + Numeral(e.value1, 10, false) + " v2=" + Numeral(e.value2, 10, false)
                + " flags=0x" + PaddedText(false, Numeral(e.flags, 16, true), 2, true)
                + " cat=0x" + PaddedText(false, Numeral(e.category as int, 16, true), 4, true) + eol;
    assert (head + captiond + body)[..|head|] == head;
    head + captiond + body
  }

  /** The label's characters appear in the line, so a long label makes a long line. */
  lemma PerfTextHoldsLabel(e: PerfEntry, caption: string, eol: string)
    requires forall i :: 0 <= i < |caption| ==> caption[i] != '\0'
    ensures |PerfText(e, Some(caption), eol)| >= |Stamp(e.timestampMs)| + 13 + |caption|
  {
    assert StrLen(caption) == |caption|;
  }
}
