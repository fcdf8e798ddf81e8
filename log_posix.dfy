// PT_Log on POSIX (src/log/pt_log_posix.c): a log object holding the
// level/category filter, the output routing bits, the sequence counter and a
// 512-byte buffer in front of the log file.
//
// The file, stderr and the two callbacks are modelled as what they receive:
// `fileText` is every character written to the log file, `consoleText` every
// character written to stderr, and `delivered`/`perfDelivered` the calls made
// to the message and performance callbacks. The clock is an input.
module LogPosix {
  import opened PtTypes
  import opened Compat
  import opened PtLog

  const BUFFER_SIZE := 512
  const LINE_MAX := 256

  /** Where `write_line` appends a line of `len` characters: after a flush when it does not fit. */
  function AppendStart(pos: int, len: nat, fileOpen: bool): int
  {
    if pos + len > BUFFER_SIZE then AfterFlush(pos, fileOpen) else pos
  }

  /**
   * Whether `write_line` puts a line into the file buffer: the FILE bit is
   * set, the line is at most 512 characters, and it fits after the flush.
   * The last condition is missing in the source (see `AppendEndAsWritten`).
   */
  predicate Buffered(pos: int, len: nat, fileOpen: bool, outputs: bv8)
  {
    len <= BUFFER_SIZE && outputs & OUT_FILE != 0 && AppendStart(pos, len, fileOpen) + len <= BUFFER_SIZE
  }

  /** Whether a line of `len` characters reaches the file or its buffer. */
  predicate ToFile(pos: int, len: nat, fileOpen: bool, outputs: bv8)
  {
    (len > BUFFER_SIZE && fileOpen) || Buffered(pos, len, fileOpen, outputs)
  }

  /**
   * `write_line` as written appends whenever the FILE bit is set, ending at
   * this position, whether or not the flush before it made room.
   */
  function AppendEndAsWritten(pos: int, len: nat, fileOpen: bool): int
  {
    AppendStart(pos, len, fileOpen) + len
  }

  /** With a file open the append as written always fits. */
  lemma AppendFitsWithFile(pos: int, len: nat)
    requires 0 <= pos <= BUFFER_SIZE && len <= BUFFER_SIZE
    ensures AppendEndAsWritten(pos, len, true) <= BUFFER_SIZE
  {
  }

  /**
   * With the FILE bit set and no file open (PT_LogSetOutput before
   * PT_LogSetFile, or after a failed open), three 200-character lines put
   * the third one at bytes 400..599 of the 512-byte buffer.
   */
  lemma AppendOverflowsWithoutFile()
    ensures AppendEndAsWritten(0, 200, false) == 200
    ensures AppendEndAsWritten(200, 200, false) == 400
    ensures AppendEndAsWritten(400, 200, false) == 600 > BUFFER_SIZE
  {
  }

  /**
   * The line `PT_LogWriteV` writes: the prefix, the message cut to the room
   * `vsnprintf` is given, and a newline unless the text already ends with one.
   */
  function Line(t: uint32, level: int, msg: string): (r: string)
    ensures 17 <= |r| <= LINE_MAX - 1
    ensures Prefix(t, level) <= r
    ensures r[|r| - 1] == '\n'
  {
    var prefix := Prefix(t, level);
    var cut := Take(msg[..StrLen(msg)], LINE_MAX - |prefix| - 2);
    LineShape(prefix, cut);
    var text := prefix + cut;
    if |text| < LINE_MAX - 1 && text[|text| - 1] != '\n' then text + "\n" else text
  }

  /** A prefix and a message cut to fit make a line that ends in a newline and keeps the prefix. */
  lemma LineShape(prefix: string, cut: string)
    requires 16 <= |prefix| <= 18 && prefix[|prefix| - 2..] == "] "
    requires |cut| <= LINE_MAX - |prefix| - 2
    ensures var text := prefix + cut;
            var r := if |text| < LINE_MAX - 1 && text[|text| - 1] != '\n' then text + "\n" else text;
            17 <= |r| <= LINE_MAX - 1 && prefix <= r && r[|r| - 1] == '\n'
  {
    var text := prefix + cut;
    assert text[..|prefix|] == prefix;
    if cut == [] {
      assert text[|text| - 1] == ' ';
    }
  }

  /** A short message without a newline appears whole, between the prefix and a newline. */
  lemma LineOfShortMessage(t: uint32, level: int, msg: string)
    requires forall i :: 0 <= i < |msg| ==> msg[i] != '\0'
    requires |msg| <= LINE_MAX - 20 && (|msg| == 0 || msg[|msg| - 1] != '\n')
    ensures Line(t, level, msg) == Prefix(t, level) + msg + "\n"
  {
    var prefix := Prefix(t, level);
    assert StrLen(msg) == |msg|;
    assert msg[..StrLen(msg)] == msg;
    var cut := Take(msg, LINE_MAX - |prefix| - 2);
    assert |cut| == |msg| && cut <= msg;
    assert cut == msg;
    var text := prefix + msg;
    assert text[|text| - 1] != '\n' by {
      if |msg| == 0 {
        assert text == prefix;
        assert prefix[|prefix| - 2..] == "] ";
      } else {
        assert text[|text| - 1] == msg[|msg| - 1];
      }
    }
    assert |text| < LINE_MAX - 1;
  }

  /** A performance line: the entry's text cut to what fits in the 256-character line. */
  function PerfLine(e: PerfEntry, caption: Option<string>): (r: string)
    ensures |r| <= LINE_MAX - 1
    ensures r <= PerfText(e, caption, "\n")
    ensures |PerfText(e, caption, "\n")| < LINE_MAX ==> r == PerfText(e, caption, "\n")
  {
    Take(PerfText(e, caption, "\n"), LINE_MAX - 1)
  }

  /**
   * As written, `PT_LogPerf` passes `snprintf`'s return value as the length,
   * which is the length of the whole text: with a 250-character label it is
   * more than the 256-character line holds, so `write_line` reads past it.
   */
  lemma PerfLengthAsWrittenExceedsLine(e: PerfEntry)
    ensures |PerfText(e, Some(Rep('x', 250)), "\n")| > LINE_MAX
    ensures |PerfLine(e, Some(Rep('x', 250)))| == LINE_MAX - 1
  {
    PerfTextHoldsLabel(e, Rep('x', 250), "\n");
  }

  /** `PT_LogElapsedMs`' `/ 1000`: C's division, which truncates toward zero. */
  function Thousandths(a: int): (q: int)
    ensures a >= 0 ==> 0 <= q * 1000 <= a < q * 1000 + 1000
    ensures a < 0 ==> q * 1000 - 1000 < a <= q * 1000 <= 0
  {
    if a >= 0 then a / 1000 else -((-a) / 1000)
  }

  /**
   * `PT_LogElapsedMs` (and the timestamp of `PT_LogWriteV`): whole seconds
   * times 1000 plus the microsecond difference divided by 1000, kept in 32 bits.
   */
  function ElapsedMs(startSec: int, startUsec: int, nowSec: int, nowUsec: int): (ms: uint32)
  {
    ((nowSec - startSec) * 1000 + Thousandths(nowUsec - startUsec)) % UINT32_LIMIT
  }

  /** Without wrap-around the result is the elapsed time in milliseconds, off by less than one. */
  lemma ElapsedMsClose(startSec: int, startUsec: int, nowSec: int, nowUsec: int)
    requires 0 <= (nowSec - startSec) * 1000 + Thousandths(nowUsec - startUsec) < UINT32_LIMIT
    ensures var micros := (nowSec - startSec) * 1_000_000 + (nowUsec - startUsec);
            -1000 < micros - ElapsedMs(startSec, startUsec, nowSec, nowUsec) * 1000 < 1000
  {
    var q := Thousandths(nowUsec - startUsec);
    assert ElapsedMs(startSec, startUsec, nowSec, nowUsec) == (nowSec - startSec) * 1000 + q;
  }

  /** Whether `PT_LogPerf` prints a text line: the FILE or the CONSOLE bit is set. */
  predicate TextOut(outputs: bv8)
  {
    outputs & (OUT_FILE | OUT_CONSOLE) != 0
  }

  class Log {
    var level: byte
    var categories: bv16
    var outputs: bv8
    var autoFlush: bool
    var nextSeq: uint32
    var fileOpen: bool
    var hasMsgCallback: bool
    var hasPerfCallback: bool
    const buffer: array<char>
    var bufferPos: int
    var fileText: string
    var consoleText: string
    var delivered: seq<Delivery>
    var perfDelivered: seq<(PerfEntry, Option<string>)>

    ghost predicate Valid()
      reads this
    {
      buffer.Length == BUFFER_SIZE && 0 <= bufferPos <= BUFFER_SIZE
    }

    /** What has reached the log file, followed by what is buffered for it. */
    ghost function FileStream(): string
      reads this, buffer
      requires Valid()
    {
      fileText + buffer[..bufferPos]
    }

    /** `PT_LogCreate`'s defaults: INFO, every category, the console, sequence 1. */
    constructor ()
      ensures Valid() && fresh(buffer)
      ensures level == INFO && categories == CAT_ALL && outputs == OUT_CONSOLE && !autoFlush && nextSeq == 1
      ensures !fileOpen && !hasMsgCallback && !hasPerfCallback && bufferPos == 0
      ensures fileText == [] && consoleText == [] && delivered == [] && perfDelivered == []
    {
      level := INFO;
      categories := CAT_ALL;
      outputs := OUT_CONSOLE;
      autoFlush := false;
      nextSeq := 1;
      fileOpen := false;
      hasMsgCallback := false;
      hasPerfCallback := false;
      buffer := new char[BUFFER_SIZE](_ => '\0');
      bufferPos := 0;
      fileText := [];
      consoleText := [];
      delivered := [];
      perfDelivered := [];
    }

    /** `flush_to_file`: moves the buffer into an open file; nothing is lost or reordered. */
    method FlushToFile()
      requires Valid()
      modifies this`bufferPos, this`fileText
      ensures Valid()
      ensures bufferPos == AfterFlush(old(bufferPos), fileOpen)
      ensures FileStream() == old(FileStream())
      ensures bufferPos == old(bufferPos) ==> fileText == old(fileText)
    {
      if fileOpen && bufferPos > 0 {
        fileText := fileText + buffer[..bufferPos];
        bufferPos := 0;
      }
    }

    /** The `memcpy` of `write_line`: appends `line` to the buffer. */
    method Append(line: string)
      requires Valid() && bufferPos + |line| <= BUFFER_SIZE
      modifies this`bufferPos, buffer
      ensures Valid()
      ensures buffer[..bufferPos] == old(buffer[..bufferPos]) + line
    {
      var pos := bufferPos;
      ghost var before := buffer[..pos];
      var i := 0;
      while i < |line|
        invariant 0 <= i <= |line|
        invariant forall k :: 0 <= k < pos ==> buffer[k] == before[k]
        invariant forall k :: pos <= k < pos + i ==> buffer[k] == line[k - pos]
      {
        buffer[pos + i] := line[i];
        i := i + 1;
      }
      assert buffer[..pos + |line|] == before + line;
      bufferPos := pos + |line|;
    }

    /** The direct path of `write_line` for a line longer than the buffer. */
    method WriteDirect(line: string)
      requires Valid() && |line| > BUFFER_SIZE && (fileOpen ==> bufferPos == 0)
      modifies this`fileText, this`consoleText
      ensures Valid()
      ensures consoleText == old(consoleText) + (if outputs & OUT_CONSOLE != 0 then line else [])
      ensures FileStream() == old(FileStream()) + (if fileOpen then line else [])
    {
      if fileOpen {
        fileText := fileText + line;
        assert buffer[..bufferPos] == [];
      }
      if outputs & OUT_CONSOLE != 0 {
        consoleText := consoleText + line;
      }
    }

    /** The buffered path of `write_line`, with the flush already done. */
    method WriteBuffered(line: string)
      requires Valid() && |line| <= BUFFER_SIZE
      modifies this`bufferPos, buffer, this`consoleText
      ensures Valid()
      ensures consoleText == old(consoleText) + (if outputs & OUT_CONSOLE != 0 then line else [])
      ensures FileStream() == old(FileStream())
                              + (if outputs & OUT_FILE != 0 && old(bufferPos) + |line| <= BUFFER_SIZE then line else [])
    {
      if outputs & OUT_FILE != 0 && bufferPos + |line| <= BUFFER_SIZE {
        Append(line);
      }
      if outputs & OUT_CONSOLE != 0 {
        consoleText := consoleText + line;
      }
    }

    /**
     * `write_line`: flushes first when the line does not fit, writes lines
     * over 512 characters straight to the file, buffers the rest for the
     * file when the FILE bit is set, and copies every line to stderr when
     * the CONSOLE bit is set. The buffer never overflows.
     */
    method WriteLine(line: string)
      requires Valid()
      modifies this`bufferPos, this`fileText, this`consoleText, buffer
      ensures Valid()
      ensures consoleText == old(consoleText) + (if outputs & OUT_CONSOLE != 0 then line else [])
      ensures FileStream() == old(FileStream()) + (if ToFile(old(bufferPos), |line|, fileOpen, outputs) then line else [])
    {
      if bufferPos + |line| > BUFFER_SIZE {
        FlushToFile();
      }
      assert bufferPos == AppendStart(old(bufferPos), |line|, fileOpen);
      if |line| > BUFFER_SIZE {
        WriteDirect(line);
      } else {
        WriteBuffered(line);
      }
    }

    /**
     * `PT_LogWriteV` with the message already formatted: a message that
     * passes the filter is written as one line and, when the CALLBACK bit is
     * set and a callback is installed, handed to it.
     */
    method Write(msgLevel: int, category: bv16, msg: string, timestampMs: uint32)
      requires Valid()
      modifies this`bufferPos, this`fileText, this`consoleText, this`delivered, buffer
      ensures Valid()
      ensures !Passes(msgLevel, category, level, categories) ==>
                && bufferPos == old(bufferPos) && fileText == old(fileText) && consoleText == old(consoleText)
                && delivered == old(delivered) && unchanged(buffer)
      ensures Passes(msgLevel, category, level, categories) ==>
                var line := Line(timestampMs, msgLevel, msg);
                && consoleText == old(consoleText) + (if outputs & OUT_CONSOLE != 0 then line else [])
                && FileStream() == old(FileStream()) + (if ToFile(old(bufferPos), |line|, fileOpen, outputs) then line else [])
                && delivered == old(delivered)
                   + (if outputs & OUT_CALLBACK != 0 && hasMsgCallback then [Delivery(msgLevel, category, timestampMs, line)] else [])
    {
      if msgLevel > level {
        return;
      }
      if !Overlaps(category, categories) {
        return;
      }
      var line := Line(timestampMs, msgLevel, msg);
      WriteLine(line);
      if outputs & OUT_CALLBACK != 0 && hasMsgCallback {
        delivered := delivered + [Delivery(msgLevel, category, timestampMs, line)];
      }
    }

    /** The text output of `PT_LogPerf`: the line goes through `write_line` when FILE or CONSOLE is set. */
    method PerfOutput(line: string)
      requires Valid()
      modifies this`bufferPos, this`fileText, this`consoleText, buffer
      ensures Valid()
      ensures consoleText == old(consoleText) + (if TextOut(outputs) && outputs & OUT_CONSOLE != 0 then line else [])
      ensures FileStream() == old(FileStream())
                              + (if TextOut(outputs) && ToFile(old(bufferPos), |line|, fileOpen, outputs) then line else [])
    {
      if TextOut(outputs) {
        WriteLine(line);
      }
    }

    /**
     * `PT_LogPerf`: an entry whose category passes is handed to the
     * performance callback and, when the FILE or CONSOLE bit is set, written
     * as a text line. A NULL entry does nothing.
     */
    method Perf(entry: Option<PerfEntry>, caption: Option<string>)
      requires Valid()
      modifies this`bufferPos, this`fileText, this`consoleText, this`perfDelivered, buffer
      ensures Valid()
      ensures entry.None? || !Overlaps(entry.value.category, categories) ==>
                && bufferPos == old(bufferPos) && fileText == old(fileText) && consoleText == old(consoleText)
                && perfDelivered == old(perfDelivered) && unchanged(buffer)
      ensures entry.Some? && Overlaps(entry.value.category, categories) ==>
                var line := PerfLine(entry.value, caption);
                && perfDelivered == old(perfDelivered) + (if hasPerfCallback then [(entry.value, caption)] else [])
                && consoleText == old(consoleText) + (if TextOut(outputs) && outputs & OUT_CONSOLE != 0 then line else [])
                && FileStream() == old(FileStream())
                   + (if TextOut(outputs) && ToFile(old(bufferPos), |line|, fileOpen, outputs) then line else [])
    {
      if entry.None? {
        return;
      }
      if !Overlaps(entry.value.category, categories) {
        return;
      }
      if hasPerfCallback {
        perfDelivered := perfDelivered + [(entry.value, caption)];
      }
      var line := PerfLine(entry.value, caption);
      PerfOutput(line);
    }

    /** `PT_LogFlush`: empties the buffer into an open file. */
    method Flush()
      requires Valid()
      modifies this`bufferPos, this`fileText
      ensures Valid()
      ensures fileOpen ==> bufferPos == 0 && fileText == old(fileText + buffer[..bufferPos])
      ensures !fileOpen ==> bufferPos == old(bufferPos) && fileText == old(fileText)
    {
      FlushToFile();
    }

    /** `PT_LogDestroy` up to the release of the memory: flushes, then closes the file. */
    method Destroy()
      requires Valid()
      modifies this`bufferPos, this`fileText, this`fileOpen
      ensures Valid() && !fileOpen
      ensures old(fileOpen) ==> bufferPos == 0 && fileText == old(fileText + buffer[..bufferPos])
    {
      FlushToFile();
      fileOpen := false;
    }
  }

  /** `PT_LogCreate`: a fresh log with the defaults, or NULL when the allocation fails. */
  method Create(allocOk: bool) returns (log: Log?)
    ensures !allocOk ==> log == null
    ensures allocOk ==> log != null && fresh(log) && log.Valid()
                          && log.level == INFO && log.categories == CAT_ALL && log.outputs == OUT_CONSOLE
                          && log.nextSeq == 1
  {
    if !allocOk {
      return null;
    }
    log := new Log();
  }

  /** `PT_LogGetLevel`: NONE for a NULL log. */
  function GetLevel(log: Log?): (l: int)
    reads log
    ensures log == null ==> l == NONE
    ensures log != null ==> l == log.level
  {
    if log == null then NONE else log.level
  }

  /** `PT_LogGetCategories`: 0 for a NULL log. */
  function GetCategories(log: Log?): (c: bv16)
    reads log
    ensures log == null ==> c == 0
    ensures log != null ==> c == log.categories
  {
    if log == null then 0 else log.categories
  }

  /** `PT_LogGetOutput`: 0 for a NULL log. */
  function GetOutput(log: Log?): (o: bv8)
    reads log
    ensures log == null ==> o == OUT_NONE
    ensures log != null ==> o == log.outputs
  {
    if log == null then OUT_NONE else log.outputs
  }

  /** `PT_LogSetLevel`: stores the level as a `uint8_t`; nothing for a NULL log. */
  method SetLevel(log: Log?, level: int)
    modifies (if log == null then {} else {log})`level
    ensures log != null ==> log.level == level % 0x100
  {
    if log != null {
      log.level := level % 0x100;
    }
  }

  /** `PT_LogSetCategories`; nothing for a NULL log. */
  method SetCategories(log: Log?, categories: bv16)
    modifies (if log == null then {} else {log})`categories
    ensures log != null ==> log.categories == categories
  {
    if log != null {
      log.categories := categories;
    }
  }

  /** `PT_LogSetOutput`; nothing for a NULL log. */
  method SetOutput(log: Log?, outputs: bv8)
    modifies (if log == null then {} else {log})`outputs
    ensures log != null ==> log.outputs == outputs
  {
    if log != null {
      log.outputs := outputs;
    }
  }

  /** `PT_LogSetAutoFlush`; nothing for a NULL log. */
  method SetAutoFlush(log: Log?, enabled: bool)
    modifies (if log == null then {} else {log})`autoFlush
    ensures log != null ==> log.autoFlush == enabled
  {
    if log != null {
      log.autoFlush := enabled;
    }
  }

  /** `PT_LogSetCallback` and `PT_LogSetPerfCallback`, by whether a callback is installed. */
  method SetCallbacks(log: Log?, message: bool, perf: bool)
    modifies (if log == null then {} else {log})`hasMsgCallback, (if log == null then {} else {log})`hasPerfCallback
    ensures log != null ==> log.hasMsgCallback == message && log.hasPerfCallback == perf
  {
    if log != null {
      log.hasMsgCallback := message;
      log.hasPerfCallback := perf;
    }
  }

  /**
   * `PT_LogSetFile`: -1 for a NULL log; otherwise closes the current file
   * and, given a name, opens it (`openOk` says whether `fopen` succeeds),
   * setting the FILE bit on success and returning -1 on failure.
   */
  method SetFile(log: Log?, filename: Option<string>, openOk: bool) returns (r: int)
    modifies (if log == null then {} else {log})`fileOpen, (if log == null then {} else {log})`outputs
    ensures log == null ==> r == -1
    ensures log != null && filename.None? ==> r == 0 && !log.fileOpen && log.outputs == old(log.outputs)
    ensures log != null && filename.Some? && !openOk ==> r == -1 && !log.fileOpen && log.outputs == old(log.outputs)
    ensures log != null && filename.Some? && openOk ==>
              r == 0 && log.fileOpen && log.outputs == old(log.outputs) | OUT_FILE
  {
    if log == null {
      return -1;
    }
    log.fileOpen := false;
    if filename.Some? {
      if !openOk {
        return -1;
      }
      log.fileOpen := true;
      log.outputs := log.outputs | OUT_FILE;
    }
    return 0;
  }

  /** `PT_LogNextSeq`: 0 for a NULL log, otherwise the counter before a 32-bit increment. */
  method NextSeq(log: Log?) returns (s: uint32)
    modifies (if log == null then {} else {log})`nextSeq
    ensures log == null ==> s == 0
    ensures log != null ==> s == old(log.nextSeq) && log.nextSeq == (s + 1) % UINT32_LIMIT
  {
    if log == null {
      return 0;
    }
    s := log.nextSeq;
    log.nextSeq := (log.nextSeq + 1) % UINT32_LIMIT;
  }

  /** A fresh log numbers its first calls 1, 2, 3. */
  method FirstSequenceNumbers() returns (a: uint32, b: uint32, c: uint32)
    ensures a == 1 && b == 2 && c == 3
  {
    var log := new Log();
    a := NextSeq(log);
    b := NextSeq(log);
    c := NextSeq(log);
  }
}
