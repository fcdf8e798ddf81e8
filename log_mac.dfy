// PT_Log on the Classic Mac OS (src/log/pt_log_mac.c): the same filter and
// routing bits as the POSIX log, a 256-byte buffer in front of a File Manager
// file, and timestamps counted in ticks (sixtieths of a second).
//
// The file and the two callbacks are modelled as what they receive:
// `fileText` is every character written to the log file, and
// `delivered`/`perfDelivered` the calls made to the message and performance
// callbacks. Console output does nothing on this platform. The tick counter
// and the results of the File Manager calls are inputs.
module LogMac {
  import opened PtTypes
  import opened Compat
  import opened PtLog

  const BUFFER_SIZE := 256
  const LINE_MAX := 192
  /** Where `PT_LogWriteV` cuts the formatted message. */
  const MESSAGE_MAX := 160
  /** The longest Pascal string. */
  const PSTR_MAX := 255

  /** Whether the routing bits `outputs` include `bit`. */
  predicate Routes(outputs: bv8, bit: bv8)
  {
    outputs & bit != 0
  }

  // ---------------------------------------------------------------------
  // c_to_pstr

  /** `c_to_pstr`'s result: a length byte, then at most 255 characters of the C string. */
  function PascalString(c: string): (p: string)
    ensures 1 <= |p| <= PSTR_MAX + 1
    ensures p[0] as int == |p| - 1
    ensures p[1..] <= c
    ensures forall i :: 1 <= i < |p| ==> p[i] != '\0'
  {
    var n := Min(StrLen(c), PSTR_MAX);
    [n as char] + c[..n]
  }

  /** The text a Pascal string holds: the characters its length byte counts. */
  function PascalText(p: string): (t: string)
    requires 1 <= |p| && p[0] as int < |p|
    ensures |t| == p[0] as int
  {
    p[1..p[0] as int + 1]
  }

  /** Reading a converted name back gives the C string cut to 255 characters. */
  lemma PascalStringRoundTrip(c: string)
    ensures PascalText(PascalString(c)) == Take(c[..StrLen(c)], PSTR_MAX)
  {
    var n := Min(StrLen(c), PSTR_MAX);
    var t := Take(c[..StrLen(c)], PSTR_MAX);
    assert |t| == n;
    assert PascalText(PascalString(c)) == c[..n];
    assert t == c[..n] by {
      assert t <= c[..StrLen(c)];
    }
  }

  /** `c_to_pstr`: fills `p` with the Pascal form of `c` and leaves the rest of it alone. */
  method CToPstr(c: string, p: array<char>)
    requires p.Length == PSTR_MAX + 1
    modifies p
    ensures p[..|PascalString(c)|] == PascalString(c)
    ensures forall k :: |PascalString(c)| <= k < p.Length ==> p[k] == old(p[k])
  {
    var len := 0;
    while len < |c| && c[len] != '\0' && len < PSTR_MAX
      invariant 0 <= len <= |c| && len <= PSTR_MAX
      invariant forall k :: 0 <= k < len ==> c[k] != '\0'
      invariant forall k :: 1 <= k <= len ==> p[k] == c[k - 1]
      invariant forall k :: len + 1 <= k < p.Length ==> p[k] == old(p[k])
    {
      p[len + 1] := c[len];
      len := len + 1;
    }
    assert len == Min(StrLen(c), PSTR_MAX) by {
      if len < PSTR_MAX {
        assert StrLen(c) == len;
      } else {
        assert StrLen(c) >= len;
      }
    }
    p[0] := len as char;
    assert p[..len + 1] == PascalString(c);
  }

  // ---------------------------------------------------------------------
  // The log line

  /** The formatted message as `PT_LogWriteV` passes it on: up to its end, at most 160 characters. */
  function Cut(msg: string): (r: string)
    ensures |r| <= MESSAGE_MAX && r <= msg
    ensures forall i :: 0 <= i < |r| ==> r[i] != '\0'
  {
    Take(msg[..StrLen(msg)], MESSAGE_MAX)
  }

  /** "[%08lu][%s] %s\r": the line `PT_LogWriteV` writes, which always fits its 192-byte array. */
  function Line(t: uint32, level: int, msg: string): (r: string)
    ensures |r| < LINE_MAX
    ensures Prefix(t, level) <= r && r[|r| - 1] == '\r'
  {
    var prefix := Prefix(t, level);
    var line := prefix + Cut(msg) + "\r";
    assert line[..|prefix|] == prefix;
    line
  }

  /** A message of at most 160 characters appears whole; a longer one loses everything after its 160th. */
  lemma LineHoldsMessage(t: uint32, level: int, msg: string)
    requires forall i :: 0 <= i < |msg| ==> msg[i] != '\0'
    ensures |msg| <= MESSAGE_MAX ==> Line(t, level, msg) == Prefix(t, level) + msg + "\r"
    ensures |msg| > MESSAGE_MAX ==> Line(t, level, msg) == Prefix(t, level) + msg[..MESSAGE_MAX] + "\r"
  {
    assert StrLen(msg) == |msg|;
    assert msg[..StrLen(msg)] == msg;
    var cut := Cut(msg);
    if |msg| <= MESSAGE_MAX {
      assert |cut| == |msg| && cut <= msg;
      assert cut == msg;
    } else {
      assert |cut| == MESSAGE_MAX && cut <= msg;
      assert cut == msg[..MESSAGE_MAX];
    }
  }

  // ---------------------------------------------------------------------
  // write_to_buffer

  /** Where `write_to_buffer` starts: after a flush when the line would reach the end of the buffer. */
  function Start(pos: int, len: nat, fileOpen: bool): int
  {
    if pos + len >= BUFFER_SIZE then AfterFlush(pos, fileOpen) else pos
  }

  /**
   * Whether `write_to_buffer` copies a line into the buffer: it is shorter
   * than the buffer and fits after the flush. The last condition is missing
   * in the source (see `AppendEndAsWritten`).
   */
  predicate Buffered(pos: int, len: nat, fileOpen: bool)
  {
    len < BUFFER_SIZE && Start(pos, len, fileOpen) + len <= BUFFER_SIZE
  }

  /** Whether a line reaches the file, directly or through the buffer. */
  predicate ToFile(pos: int, len: nat, fileOpen: bool)
  {
    (len >= BUFFER_SIZE && fileOpen) || Buffered(pos, len, fileOpen)
  }

  /** The buffer position after `write_to_buffer`. */
  function PosAfter(pos: int, len: nat, fileOpen: bool): int
  {
    Start(pos, len, fileOpen) + (if Buffered(pos, len, fileOpen) then len else 0)
  }

  /** The buffer position after a line is written and, with auto-flush, flushed. */
  function OutputPos(pos: int, len: nat, fileOpen: bool, autoFlush: bool): int
  {
    var p := PosAfter(pos, len, fileOpen);
    if autoFlush then AfterFlush(p, fileOpen) else p
  }

  /** With a file open the buffer is never left full, since a line that would fill it flushes first. */
  lemma OpenFileKeepsRoom(pos: int, len: nat)
    requires 0 <= pos < BUFFER_SIZE
    ensures 0 <= PosAfter(pos, len, true) < BUFFER_SIZE
    ensures len < BUFFER_SIZE ==> Buffered(pos, len, true)
  {
  }

  /** `write_to_buffer` as written copies every line shorter than the buffer, ending here. */
  function AppendEndAsWritten(pos: int, len: nat, fileOpen: bool): int
  {
    Start(pos, len, fileOpen) + len
  }

  /** With a file open the copy as written always fits, so the guard of `Buffered` changes nothing there. */
  lemma AppendFitsWithFile(pos: int, len: nat)
    requires 0 <= pos < BUFFER_SIZE && len < BUFFER_SIZE
    ensures AppendEndAsWritten(pos, len, true) < BUFFER_SIZE
  {
  }

  /**
   * With the FILE bit set and no file open (PT_LogSetOutput before
   * PT_LogSetFile, or a PT_LogSetFile that failed after closing the old
   * file), two 175-character lines put the second at bytes 175..349 of the
   * 256-byte buffer.
   */
  lemma AppendOverflowsWithoutFile()
    ensures AppendEndAsWritten(0, 175, false) == 175
    ensures AppendEndAsWritten(175, 175, false) == 350 > BUFFER_SIZE
    ensures !Buffered(175, 175, false)
  {
  }

  /** Whether `PT_LogPerf` writes a text line: the FILE bit is set and the level is at least INFO. */
  predicate PerfToText(outputs: bv8, level: int)
  {
    Routes(outputs, OUT_FILE) && level >= INFO
  }

  // ---------------------------------------------------------------------
  // Elapsed time

  /** Ticks between two readings of the 32-bit tick counter. */
  function Ticks(startTicks: uint32, nowTicks: uint32): (e: uint32)
    ensures startTicks <= nowTicks ==> e == nowTicks - startTicks
  {
    (nowTicks - startTicks) % UINT32_LIMIT
  }

  /** The 68000/68010 conversion: 16 + 1/2 + 1/8 milliseconds per tick, by shifts, in 32 bits. */
  function ShiftMs(e: uint32): uint32
  {
    (e * 16 + e / 2 + e / 8) % UINT32_LIMIT
  }

  /** The conversion with a divide: 1000/60 milliseconds per tick, rounded down, in 32 bits. */
  function DivMs(e: uint32): uint32
  {
    (e * 1000 / 60) % UINT32_LIMIT
  }

  /** As written, `elapsed_ticks * 1000UL` is formed in a 32-bit `unsigned long` before the division. */
  function DivMsAsWritten(e: uint32): uint32
  {
    (e * 1000 % UINT32_LIMIT) / 60
  }

  /** Without wrap-around the divide conversion is the elapsed time, rounded down to a millisecond. */
  lemma DivMsExact(e: uint32)
    ensures e * 1000 / 60 < UINT32_LIMIT ==> DivMs(e) * 60 <= e * 1000 < DivMs(e) * 60 + 60
  {
  }

  /**
   * The shift conversion is never ahead of the divide one and falls behind
   * by one millisecond in every 24 ticks (1 part in 400, 0.25%), give or
   * take one.
   */
  lemma ShiftMsClose(e: uint32)
    requires e * 1000 / 60 < UINT32_LIMIT
    ensures ShiftMs(e) <= DivMs(e)
    ensures e - 24 <= 24 * (DivMs(e) - ShiftMs(e)) <= e + 33
  {
    var half, eighth, d := e / 2, e / 8, e * 1000 / 60;
    assert 2 * half <= e < 2 * half + 2;
    assert 8 * eighth <= e < 8 * eighth + 8;
    assert 60 * d <= e * 1000 < 60 * d + 60;
    assert e * 16 + half + eighth <= d;
    assert DivMs(e) == d;
    assert ShiftMs(e) == e * 16 + half + eighth;
  }

  /** The two forms agree until the product passes 32 bits, about 19.9 hours of ticks. */
  lemma DivMsAsWrittenAgrees(e: uint32)
    requires e * 1000 < UINT32_LIMIT
    ensures DivMsAsWritten(e) == DivMs(e)
  {
  }

  /** After 4294968 ticks the product wraps: 11 ms instead of 71582800. */
  lemma DivMsAsWrittenWraps()
    ensures DivMsAsWritten(4294968) == 11
    ensures DivMs(4294968) == 71582800
  {
  }

  // ---------------------------------------------------------------------
  // The log object

  /** The outcome of `pt_create_file`: created, already there (`dupFNErr`), or any other error. */
  datatype CreateResult = Created | AlreadyExists | CreateFailed

  class Log {
    var level: byte
    var categories: bv16
    var outputs: bv8
    var autoFlush: bool
    var nextSeq: uint32
    var startTicks: uint32
    var fileOpen: bool
    var fileName: string
    var hasMsgCallback: bool
    var hasPerfCallback: bool
    const buffer: array<char>
    var bufferPos: int
    var fileText: string
    var delivered: seq<Delivery>
    var perfDelivered: seq<(PerfEntry, Option<string>)>

    ghost predicate Valid()
      reads this
    {
      buffer.Length == BUFFER_SIZE && 0 <= bufferPos <= BUFFER_SIZE
    }

    /** What has reached the log file, followed by what is buffered for it. */
    ghost function FileStream(): string
      reads this, buffer
      requires Valid()
    {
      fileText + buffer[..bufferPos]
    }

    /** `PT_LogCreate`'s defaults: INFO, every category, the console, sequence 1, the clock read now. */
    constructor (nowTicks: uint32)
      ensures Valid() && fresh(buffer)
      ensures level == INFO && categories == CAT_ALL && outputs == OUT_CONSOLE && !autoFlush && nextSeq == 1
      ensures startTicks == nowTicks && !fileOpen && !hasMsgCallback && !hasPerfCallback && bufferPos == 0
      ensures fileText == [] && delivered == [] && perfDelivered == []
    {
      level := INFO;
      categories := CAT_ALL;
      outputs := OUT_CONSOLE;
      autoFlush := false;
      nextSeq := 1;
      startTicks := nowTicks;
      fileOpen := false;
      fileName := [];
      hasMsgCallback := false;
      hasPerfCallback := false;
      buffer := new char[BUFFER_SIZE](_ => '\0');
      bufferPos := 0;
      fileText := [];
      delivered := [];
      perfDelivered := [];
    }

    /** `flush_buffer`: moves the buffer into an open file; nothing is lost or reordered. */
    method FlushBuffer()
      requires Valid()
      modifies this`bufferPos, this`fileText
      ensures Valid()
      ensures bufferPos == AfterFlush(old(bufferPos), fileOpen)
      ensures FileStream() == old(FileStream())
      ensures bufferPos == old(bufferPos) ==> fileText == old(fileText)
    {
      if fileOpen && bufferPos > 0 {
        fileText := fileText + buffer[..bufferPos];
        bufferPos := 0;
      }
    }

    /** The copy of `write_to_buffer` (inline or `BlockMoveData`, to the same effect). */
    method Append(line: string)
      requires Valid() && bufferPos + |line| <= BUFFER_SIZE
      modifies this`bufferPos, buffer
      ensures Valid()
      ensures buffer[..bufferPos] == old(buffer[..bufferPos]) + line
    {
      var pos := bufferPos;
      ghost var before := buffer[..pos];
      var i := 0;
      while i < |line|
        invariant 0 <= i <= |line|
        invariant forall k :: 0 <= k < pos ==> buffer[k] == before[k]
        invariant forall k :: pos <= k < pos + i ==> buffer[k] == line[k - pos]
      {
        buffer[pos + i] := line[i];
        i := i + 1;
      }
      assert buffer[..pos + |line|] == before + line;
      bufferPos := pos + |line|;
    }

    /** The direct path of `write_to_buffer` for a line as long as the buffer or longer. */
    method WriteDirect(line: string)
      requires Valid() && |line| >= BUFFER_SIZE && (fileOpen ==> bufferPos == 0)
      modifies this`fileText
      ensures Valid()
      ensures FileStream() == old(FileStream()) + (if fileOpen then line else [])
    {
      if fileOpen {
        fileText := fileText + line;
        assert buffer[..bufferPos] == [];
      }
    }

    /**
     * `write_to_buffer`: flushes when the line would reach the end of the
     * buffer, writes a line of 256 characters or more straight to the file,
     * and copies the rest into the buffer when they fit.
     */
    method WriteToBuffer(line: string)
      requires Valid()
      modifies this`bufferPos, this`fileText, buffer
      ensures Valid()
      ensures bufferPos == PosAfter(old(bufferPos), |line|, fileOpen)
      ensures FileStream() == old(FileStream()) + (if ToFile(old(bufferPos), |line|, fileOpen) then line else [])
    {
      if bufferPos + |line| >= BUFFER_SIZE {
        FlushBuffer();
      }
      assert bufferPos == Start(old(bufferPos), |line|, fileOpen);
      if |line| >= BUFFER_SIZE {
        WriteDirect(line);
        return;
      }
      if bufferPos + |line| <= BUFFER_SIZE {
        Append(line);
      }
    }

    /** A line for the file: `write_to_buffer`, then a flush when auto-flush is on. */
    method Output(line: string)
      requires Valid()
      modifies this`bufferPos, this`fileText, buffer
      ensures Valid()
      ensures bufferPos == OutputPos(old(bufferPos), |line|, fileOpen, autoFlush)
      ensures FileStream() == old(FileStream()) + (if ToFile(old(bufferPos), |line|, fileOpen) then line else [])
    {
      WriteToBuffer(line);
      if autoFlush {
        FlushBuffer();
      }
    }

    /**
     * `PT_LogWriteV` with the message already formatted (`vsprintf` needs it
     * under 192 characters): a message that passes the filter is cut at 160
     * characters, written as one line when the FILE bit is set, and the cut
     * message is handed to the callback when the CALLBACK bit is set and a
     * callback is installed.
     */
    method Write(msgLevel: int, category: bv16, msg: string, timestampMs: uint32)
      requires Valid() && StrLen(msg) < LINE_MAX
      modifies this`bufferPos, this`fileText, this`delivered, buffer
      ensures Valid()
      ensures !Passes(msgLevel, category, level, categories) ==>
                && bufferPos == old(bufferPos) && fileText == old(fileText)
                && delivered == old(delivered) && unchanged(buffer)
      ensures Passes(msgLevel, category, level, categories) ==>
                var line := Line(timestampMs, msgLevel, msg);
                && FileStream() == old(FileStream())
                   + (if Routes(outputs, OUT_FILE) && ToFile(old(bufferPos), |line|, fileOpen) then line else [])
                && bufferPos == (if Routes(outputs, OUT_FILE) then OutputPos(old(bufferPos), |line|, fileOpen, autoFlush)
                                 else old(bufferPos))
                && delivered == old(delivered)
                   + (if Routes(outputs, OUT_CALLBACK) && hasMsgCallback
                      then [Delivery(msgLevel, category, timestampMs, Cut(msg))] else [])
    {
      if msgLevel > level {
        return;
      }
      if !Overlaps(category, categories) {
        return;
      }
      var line := Line(timestampMs, msgLevel, msg);
      if Routes(outputs, OUT_FILE) {
        Output(line);
      }
      if Routes(outputs, OUT_CALLBACK) && hasMsgCallback {
        delivered := delivered + [Delivery(msgLevel, category, timestampMs, Cut(msg))];
      }
    }

    /** The text output of `PT_LogPerf`: the line goes to the file when the FILE bit is set and the level is at least INFO. */
    method PerfOutput(line: string)
      requires Valid()
      modifies this`bufferPos, this`fileText, buffer
      ensures Valid()
      ensures FileStream() == old(FileStream())
                              + (if PerfToText(outputs, level) && ToFile(old(bufferPos), |line|, fileOpen) then line else [])
      ensures bufferPos == (if PerfToText(outputs, level) then OutputPos(old(bufferPos), |line|, fileOpen, autoFlush)
                            else old(bufferPos))
    {
      if PerfToText(outputs, level) {
        Output(line);
      }
    }

    /**
     * `PT_LogPerf`: an entry whose category passes is handed to the
     * performance callback and, when the FILE bit is set and the level is at
     * least INFO, written as a text line (`sprintf` needs it under 192
     * characters). A NULL entry does nothing.
     */
    method Perf(entry: Option<PerfEntry>, caption: Option<string>)
      requires Valid()
      requires entry.Some? ==> |PerfText(entry.value, caption, "\r")| < LINE_MAX
      modifies this`bufferPos, this`fileText, this`perfDelivered, buffer
      ensures Valid()
      ensures entry.None? || !Overlaps(entry.value.category, categories) ==>
                && bufferPos == old(bufferPos) && fileText == old(fileText)
                && perfDelivered == old(perfDelivered) && unchanged(buffer)
      ensures entry.Some? && Overlaps(entry.value.category, categories) ==>
                var line := PerfText(entry.value, caption, "\r");
                && perfDelivered == old(perfDelivered) + (if hasPerfCallback then [(entry.value, caption)] else [])
                && FileStream() == old(FileStream())
                   + (if PerfToText(outputs, level) && ToFile(old(bufferPos), |line|, fileOpen) then line else [])
                && bufferPos == (if PerfToText(outputs, level) then OutputPos(old(bufferPos), |line|, fileOpen, autoFlush)
                                 else old(bufferPos))
    {
      if entry.None? {
        return;
      }
      if !Overlaps(entry.value.category, categories) {
        return;
      }
      if hasPerfCallback {
        perfDelivered := perfDelivered + [(entry.value, caption)];
      }
      PerfOutput(PerfText(entry.value, caption, "\r"));
    }

    /** `PT_LogFlush`: empties the buffer into an open file. */
    method Flush()
      requires Valid()
      modifies this`bufferPos, this`fileText
      ensures Valid()
      ensures fileOpen ==> bufferPos == 0 && fileText == old(fileText + buffer[..bufferPos])
      ensures !fileOpen ==> bufferPos == old(bufferPos) && fileText == old(fileText)
    {
      FlushBuffer();
    }

    /** `PT_LogDestroy` up to the release of the memory: flushes, then closes the file. */
    method Destroy()
      requires Valid()
      modifies this`bufferPos, this`fileText, this`fileOpen
      ensures Valid() && !fileOpen
      ensures old(fileOpen) ==> bufferPos == 0 && fileText == old(fileText + buffer[..bufferPos])
    {
      FlushBuffer();
      fileOpen := false;
    }
  }

  /** `PT_LogCreate`: a fresh log with the defaults, or NULL when `NewPtrClear` fails. */
  method Create(allocOk: bool, nowTicks: uint32) returns (log: Log?)
    ensures !allocOk ==> log == null
    ensures allocOk ==> log != null && fresh(log) && log.Valid()
                          && log.level == INFO && log.categories == CAT_ALL && log.outputs == OUT_CONSOLE
                          && log.nextSeq == 1 && log.startTicks == nowTicks
  {
    if !allocOk {
      return null;
    }
    log := new Log(nowTicks);
  }

  /** `PT_LogGetLevel`: NONE for a NULL log. */
  function GetLevel(log: Log?): (l: int)
    reads log
    ensures log == null ==> l == NONE
    ensures log != null ==> l == log.level
  {
    if log == null then NONE else log.level
  }

  /** `PT_LogGetCategories`: 0 for a NULL log. */
  function GetCategories(log: Log?): (c: bv16)
    reads log
    ensures log == null ==> c == 0
    ensures log != null ==> c == log.categories
  {
    if log == null then 0 else log.categories
  }

  /** `PT_LogGetOutput`: 0 for a NULL log. */
  function GetOutput(log: Log?): (o: bv8)
    reads log
    ensures log == null ==> o == OUT_NONE
    ensures log != null ==> o == log.outputs
  {
    if log == null then OUT_NONE else log.outputs
  }

  /** `PT_LogSetLevel`: stores the level as a `uint8_t`; nothing for a NULL log. */
  method SetLevel(log: Log?, level: int)
    modifies (if log == null then {} else {log})`level
    ensures log != null ==> log.level == level % 0x100
  {
    if log != null {
      log.level := level % 0x100;
    }
  }

  /** `PT_LogSetCategories`; nothing for a NULL log. */
  method SetCategories(log: Log?, categories: bv16)
    modifies (if log == null then {} else {log})`categories
    ensures log != null ==> log.categories == categories
  {
    if log != null {
      log.categories := categories;
    }
  }

  /** `PT_LogSetOutput`; nothing for a NULL log. */
  method SetOutput(log: Log?, outputs: bv8)
    modifies (if log == null then {} else {log})`outputs
    ensures log != null ==> log.outputs == outputs
  {
    if log != null {
      log.outputs := outputs;
    }
  }

  /** `PT_LogSetAutoFlush`: any non-zero value turns it on; nothing for a NULL log. */
  method SetAutoFlush(log: Log?, enabled: int)
    modifies (if log == null then {} else {log})`autoFlush
    ensures log != null ==> log.autoFlush == (enabled != 0)
  {
    if log != null {
      log.autoFlush := enabled != 0;
    }
  }

  /** `PT_LogSetCallback` and `PT_LogSetPerfCallback`, by whether a callback is installed. */
  method SetCallbacks(log: Log?, message: bool, perf: bool)
    modifies (if log == null then {} else {log})`hasMsgCallback, (if log == null then {} else {log})`hasPerfCallback
    ensures log != null ==> log.hasMsgCallback == message && log.hasPerfCallback == perf
  {
    if log != null {
      log.hasMsgCallback := message;
      log.hasPerfCallback := perf;
    }
  }

  /**
   * `PT_LogSetFile`: -1 for a NULL log; otherwise closes the current file
   * and, given a name, converts it to a Pascal string, creates the file
   * (an existing one is fine) and opens it (`openOk` says whether `FSOpen`
   * succeeds), setting the FILE bit on success. Either failure returns -1
   * and leaves no file open but the routing bits as they were.
   */
  method SetFile(log: Log?, filename: Option<string>, created: CreateResult, openOk: bool) returns (r: int)
    modifies (if log == null then {} else {log})`fileOpen, (if log == null then {} else {log})`outputs,
             (if log == null then {} else {log})`fileName
    ensures log == null ==> r == -1
    ensures log != null && filename.None? ==> r == 0 && !log.fileOpen && log.outputs == old(log.outputs)
    ensures log != null && filename.Some? && (created == CreateFailed || !openOk) ==>
              r == -1 && !log.fileOpen && log.outputs == old(log.outputs)
    ensures log != null && filename.Some? && created != CreateFailed && openOk ==>
              && r == 0 && log.fileOpen && log.outputs == old(log.outputs) | OUT_FILE
              && log.fileName == Take(filename.value[..StrLen(filename.value)], PSTR_MAX)
  {
    if log == null {
      return -1;
    }
    log.fileOpen := false;
    if filename.None? {
      return 0;
    }
    var pname := new char[PSTR_MAX + 1](_ => '\0');
    CToPstr(filename.value, pname);
    if created == CreateFailed {
      return -1;
    }
    if !openOk {
      return -1;
    }
    ghost var p := PascalString(filename.value);
    assert pname[..|p|] == p;
    assert pname[1..pname[0] as int + 1] == PascalText(p);
    PascalStringRoundTrip(filename.value);
    log.fileName := pname[1..pname[0] as int + 1];
    log.fileOpen := true;
    log.outputs := log.outputs | OUT_FILE;
    return 0;
  }

  /** `PT_LogNextSeq`: 0 for a NULL log, otherwise the counter before a 32-bit increment. */
  method NextSeq(log: Log?) returns (s: uint32)
    modifies (if log == null then {} else {log})`nextSeq
    ensures log == null ==> s == 0
    ensures log != null ==> s == old(log.nextSeq) && log.nextSeq == (s + 1) % UINT32_LIMIT
  {
    if log == null {
      return 0;
    }
    s := log.nextSeq;
    log.nextSeq := (s + 1) % UINT32_LIMIT;
  }

  /**
   * `PT_LogElapsedMs`: 0 for a NULL log, otherwise the ticks since creation
   * in milliseconds, by shifts on a 68000/68010 (`noDivide`) and elsewhere by
   * a divide of the product formed in 32 bits, as written, so that past
   * about 19.9 hours the product wraps.
   */
  function ElapsedMs(log: Log?, nowTicks: uint32, noDivide: bool): (ms: uint32)
    reads log
    ensures log == null ==> ms == 0
    ensures log != null && !noDivide ==>
              var e := Ticks(log.startTicks, nowTicks);
              ms * 60 <= e * 1000 % UINT32_LIMIT < ms * 60 + 60
    ensures log != null && !noDivide && log.startTicks <= nowTicks && (nowTicks - log.startTicks) * 1000 < UINT32_LIMIT ==>
              ms * 60 <= (nowTicks - log.startTicks) * 1000 < ms * 60 + 60
    ensures log != null && noDivide ==> ms == ShiftMs(Ticks(log.startTicks, nowTicks))
    ensures log != null && noDivide && Ticks(log.startTicks, nowTicks) * 1000 / 60 < UINT32_LIMIT ==>
              ms * 60 <= Ticks(log.startTicks, nowTicks) * 1000
  {
    if log == null then 0
    else
      var e := Ticks(log.startTicks, nowTicks);
      if noDivide then
        if e * 1000 / 60 < UINT32_LIMIT then
          ShiftMsClose(e);
          DivMsExact(e);
          ShiftMs(e)
        else ShiftMs(e)
      else DivMsAsWritten(e)
  }
}
