// The function index of the book indexer (tools/book_indexer/build_index.py):
// the names listed in six tables of two Classic Mac reference books, and for
// each name whether it may be called at interrupt time. A book is the list of
// its lines; a book that is not on disk is `None`. The token filter, the line
// window and the two passes over the index are modelled; JSON output, the
// tables index, the error codes and the keyword index are not.
module BookIndex {
  import opened PtTypes
  import IsrSafety

  // ---------------------------------------------------------------------
  // Characters and string tests
  // ---------------------------------------------------------------------

  const EM_DASH: char := '\U{2014}'
  const SECTION: char := '\U{A7}'
  const DAGGER: char := '\U{2020}'
  const DOUBLE_DAGGER: char := '\U{2021}'

  /** `c.isupper()` for a single character, restricted to ASCII. */
  predicate IsUpper(c: char)
  {
    'A' <= c <= 'Z'
  }

  predicate IsLower(c: char)
  {
    'a' <= c <= 'z'
  }

  predicate IsDigit(c: char)
  {
    '0' <= c <= '9'
  }

  /** `c.isalnum()`, restricted to ASCII. */
  predicate IsAlnum(c: char)
  {
    IsUpper(c) || IsLower(c) || IsDigit(c)
  }

  /** `s.isdigit()`: not empty, and digits only. */
  predicate AllDigits(s: string)
  {
    |s| > 0 && forall i :: 0 <= i < |s| ==> IsDigit(s[i])
  }

  /** `s.islower()`: some lower-case letter and no upper-case one. */
  predicate AllLower(s: string)
  {
    (exists i :: 0 <= i < |s| && IsLower(s[i])) && forall i :: 0 <= i < |s| ==> !IsUpper(s[i])
  }

  /** `p in s` for strings: `p` occurs in `s` at some position. */
  predicate Infix(p: string, s: string)
  {
    exists k :: 0 <= k <= |s| && p <= s[k..]
  }

  /** Every character of an occurring string occurs too. */
  lemma InfixHas(p: string, s: string, c: char)
    requires Infix(p, s) && c in p
    ensures c in s
  {
    var k :| 0 <= k <= |s| && p <= s[k..];
    var j :| 0 <= j < |p| && p[j] == c;
    assert s[k..][j] == s[k + j];
  }

  // ---------------------------------------------------------------------
  // The token of a table line and the junk filter
  // ---------------------------------------------------------------------

  /** The separators of `re.split(r'[\s\*\+\‡†]+', line)`. */
  predicate IsSeparator(c: char)
  {
    IsrSafety.IsSpace(c) || c == '*' || c == '+' || c == DOUBLE_DAGGER || c == DAGGER
  }

  /** The first piece of the split: the text before the first separator. */
  function Token(s: string): (t: string)
    ensures t <= s
    ensures forall i :: 0 <= i < |t| ==> !IsSeparator(t[i])
    ensures |t| < |s| ==> IsSeparator(s[|t|])
    decreases |s|
  {
    if |s| == 0 || IsSeparator(s[0]) then "" else [s[0]] + Token(s[1..])
  }

  /** Lines that are skipped before any token is taken (the line is already stripped). */
  predicate Skipped(line: string)
  {
    |line| == 0 || "Table" <= line || [EM_DASH] <= line || "Function" <= line || "Needs" <= line
    || "Atomic" <= line || "Calling" <= line || |line| < 3
  }

  const BAD_FIRST: seq<char> := ['[', ']', '{', '}', '|', SECTION, '(', ')', '=', EM_DASH]
  const BAD_LAST: seq<char> := ['!', '?', '|', SECTION, '=', EM_DASH]
  const BAD_INSIDE: seq<char> := ['|', SECTION, DAGGER, DOUBLE_DAGGER]
  const TABLE_PREFIXES: seq<string> := ["Table", "B-", "A-", "C-", "D-", "E-"]

  /** Words that appear in the tables and are not routine names. */
  const COMMON_WORDS: seq<string> := [
    "yes", "no", "n/a", "None", "asynchronous",
    "Function", "Calling", "Needs", "Atomic", "restrictions", "Native", "Note",
    "only", "foreground", "background", "task", "calling", "provide",
    "this", "with", "that", "from", "must", "some", "Some", "other", "factor",
    "If", "In", "at", "in", "or", "and", "the", "A", "an", "of", "to", "for",
    "Continued", "Table", "Volume", "Special", "Functions",
    "AOn", "BOn", "Exp", "Leg"]

  predicate HasBadChar(f: string)
  {
    exists i :: 0 <= i < |f| && f[i] in BAD_INSIDE
  }

  predicate TablePrefixed(f: string)
  {
    exists k :: 0 <= k < |TABLE_PREFIXES| && TABLE_PREFIXES[k] <= f
  }

  /** The filter, check by check in the order the indexer applies them. */
  predicate Keep(f: string)
  {
    && |f| > 0
    && !AllDigits(f)
    && |f| >= 3
    && IsUpper(f[0])
    && (exists i :: 0 <= i < |f| && IsAlnum(f[i]))
    && f[0] !in BAD_FIRST
    && f[|f| - 1] !in BAD_LAST
    && !HasBadChar(f)
    && !TablePrefixed(f)
    && f !in COMMON_WORDS
    && !AllLower(f)
  }

  /**
   * Once a token has three characters and starts with an upper-case letter,
   * the digit, alphanumeric, first-character and lower-case checks can no
   * longer reject it: the filter is exactly this.
   */
  lemma KeepExactly(f: string)
    ensures Keep(f) <==>
      |f| >= 3 && IsUpper(f[0]) && f[|f| - 1] !in BAD_LAST && !HasBadChar(f) && !TablePrefixed(f) && f !in COMMON_WORDS
  {
    if |f| >= 3 && IsUpper(f[0]) {
      assert !IsDigit(f[0]) && IsAlnum(f[0]);
      assert f[0] !in BAD_FIRST;
    }
  }

  /**
   * A token that starts with a digit is never kept, whatever follows (so
   * "1UCompPString" is dropped, although a comment in the indexer says such
   * names are kept).
   */
  lemma DigitLedRejected(f: string)
    requires |f| > 0 && IsDigit(f[0])
    ensures !Keep(f)
  {
  }

  /** The name a book line contributes, if any. */
  function LineName(raw: string): (r: Option<string>)
    ensures r.Some? ==> Keep(r.value) && r.value <= IsrSafety.Strip(raw)
  {
    var line := IsrSafety.Strip(raw);
    if Skipped(line) then None
    else
      var f := Token(line);
      if |f| == 0 || !Keep(f) then None else Some(f)
  }

  /** What `pick` yields for each of `lines`, in line order, skipping the lines it yields nothing for. */
  function Gather(lines: seq<string>, pick: string -> Option<string>): seq<string>
  {
    if |lines| == 0 then []
    else
      var n := |lines| - 1;
      Gather(lines[..n], pick) + (match pick(lines[n]) case Some(f) => [f] case None => [])
  }

  lemma {:induction false} GatherSound(lines: seq<string>, pick: string -> Option<string>, f: string)
    requires f in Gather(lines, pick)
    ensures exists k :: 0 <= k < |lines| && pick(lines[k]) == Some(f)
    decreases |lines|
  {
    var n := |lines| - 1;
    if f in Gather(lines[..n], pick) {
      GatherSound(lines[..n], pick, f);
      var k :| 0 <= k < n && pick(lines[..n][k]) == Some(f);
      assert lines[k] == lines[..n][k];
    } else {
      assert pick(lines[n]) == Some(f);
    }
  }

  lemma {:induction false} GatherComplete(lines: seq<string>, pick: string -> Option<string>, k: nat)
    requires k < |lines| && pick(lines[k]).Some?
    ensures pick(lines[k]).value in Gather(lines, pick)
    decreases |lines|
  {
    var n := |lines| - 1;
    if k < n {
      assert lines[..n][k] == lines[k];
      GatherComplete(lines[..n], pick, k);
    }
  }

  /** The names of a run of lines, in line order. */
  function Names(lines: seq<string>): seq<string>
  {
    Gather(lines, LineName)
  }

  /** Every name comes from a line of the run, and passes the filter. */
  lemma NamesSound(lines: seq<string>, f: string)
    requires f in Names(lines)
    ensures Keep(f) && exists k :: 0 <= k < |lines| && LineName(lines[k]) == Some(f)
  {
    GatherSound(lines, LineName, f);
    var k :| 0 <= k < |lines| && LineName(lines[k]) == Some(f);
  }

  /** Every line that yields a name contributes it. */
  lemma NamesComplete(lines: seq<string>, k: nat)
    requires k < |lines| && LineName(lines[k]).Some?
    ensures LineName(lines[k]).value in Names(lines)
  {
    GatherComplete(lines, LineName, k);
  }

  /** The lines numbered `start` to `end` (counting from 1), as far as the book goes. */
  function Window(book: seq<string>, start: nat, end: nat): seq<string>
  {
    IsrSafety.Slice(book, if start > 0 then start - 1 else 0, end)
  }

  /** Reading line `i + 1` of the book adds it to the window exactly when its number is in range. */
  lemma WindowStep(book: seq<string>, start: nat, end: nat, i: nat)
    requires i < |book|
    ensures Window(book[..i + 1], start, end)
      == if start <= i + 1 <= end then Window(book[..i], start, end) + [book[i]] else Window(book[..i], start, end)
  {
    var lo := if start > 0 then start - 1 else 0;
    if start <= i + 1 <= end {
      assert book[..i + 1][lo..i + 1] == book[..i][lo..i] + [book[i]];
    } else if end < i + 1 {
      if lo <= end {
        assert book[..i + 1][lo..end] == book[..i][lo..end];
      }
    }
  }

  /** Past the end line, the rest of the book adds nothing. */
  lemma WindowDone(book: seq<string>, start: nat, end: nat, i: nat)
    requires end <= i <= |book|
    ensures Window(book[..i], start, end) == Window(book, start, end)
  {
    var lo := if start > 0 then start - 1 else 0;
    if lo <= end {
      assert book[..i][lo..end] == book[lo..end];
    }
  }

  lemma NamesStep(lines: seq<string>, line: string)
    ensures Names(lines + [line]) == Names(lines) + (match LineName(line) case Some(f) => [f] case None => [])
  {
    assert (lines + [line])[..|lines|] == lines;
    assert Names(lines + [line]) == Gather(lines + [line], LineName);
  }

  /** One line inside the window: its name, if any, joins those of the lines before it. */
  method ReadLine(functions: seq<string>, ghost lines: seq<string>, raw: string) returns (out: seq<string>)
    requires functions == Names(lines)
    ensures out == Names(lines + [raw])
  {
    NamesStep(lines, raw);
    var name := LineName(raw);
    out := functions;
    if name.Some? {
      out := out + [name.value];
    }
  }

  /** `extract_table`: the names of the lines numbered `start` to `end`, in line order. */
  method ExtractTable(book: seq<string>, start: nat, end: nat) returns (functions: seq<string>)
    ensures functions == Names(Window(book, start, end))
  {
    functions := [];
    var i := 0;
    while i < |book|
      invariant 0 <= i <= |book|
      invariant functions == Names(Window(book[..i], start, end))
    {
      WindowStep(book, start, end, i);
      if i + 1 < start {
        i := i + 1;
        continue;
      }
      if i + 1 > end {
        WindowDone(book, start, end, i);
        return;
      }
      functions := ReadLine(functions, Window(book[..i], start, end), book[i]);
      i := i + 1;
    }
    assert book[..i] == book;
  }

  // ---------------------------------------------------------------------
  // The six tables
  // ---------------------------------------------------------------------

  datatype TableId = B1 | B2 | B3 | C1 | C2 | C3

  /** The tables in the order the index is built. */
  const TABLES: seq<TableId> := [B1, B2, B3, C1, C2, C3]

  datatype Book = InsideMacintoshVI | OpenTransport

  function FileName(b: Book): string
  {
    match b
    case InsideMacintoshVI => "Inside_Macintosh_Volume_VI_1991.txt"
    case OpenTransport => "NetworkingOpenTransport.txt"
  }

  function Key(t: TableId): string
  {
    match t
    case B1 => "table_b1_moves_memory"
    case B2 => "table_b2_unsafe_no_move"
    case B3 => "table_b3_interrupt_safe"
    case C1 => "table_c1_ot_hw_interrupt"
    case C2 => "table_c2_ot_hw_interrupt_native"
    case C3 => "table_c3_ot_deferred_task"
  }

  function BookOf(t: TableId): Book
  {
    if t == B1 || t == B2 || t == B3 then InsideMacintoshVI else OpenTransport
  }

  function Start(t: TableId): nat
  {
    match t
    case B1 => 223761
    case B2 => 224216
    case B3 => 224396
    case C1 => 43052
    case C2 => 43502
    case C3 => 43748
  }

  function End(t: TableId): nat
  {
    match t
    case B1 => 224228
    case B2 => 224391
    case B3 => 224607
    case C1 => 43451
    case C2 => 43740
    case C3 => 44144
  }

  /** The first pass's test on a table's key: it lists routines safe at interrupt time. */
  predicate KeySafe(t: TableId)
  {
    Infix("interrupt_safe", Key(t)) || Infix("hw_interrupt", Key(t))
    || Key(t) in SAFE_KEYS
  }

  /** The first pass's test on a table's key: it lists routines that move memory. */
  predicate KeyMoves(t: TableId)
  {
    Infix("moves_memory", Key(t))
  }

  /** The conflict pass's lists. */
  predicate ListedSafe(t: TableId)
  {
    t in [B3, C1, C2]
  }

  predicate ListedUnsafe(t: TableId)
  {
    t in [B1, B2]
  }

  predicate HasSafe(ts: seq<TableId>)
  {
    exists k :: 0 <= k < |ts| && ListedSafe(ts[k])
  }

  predicate HasUnsafe(ts: seq<TableId>)
  {
    exists k :: 0 <= k < |ts| && ListedUnsafe(ts[k])
  }

  /** A string with a character that `key` lacks does not occur in `key`. */
  lemma NoMarker(marker: string, key: string, c: char)
    requires c in marker && forall j :: 0 <= j < |key| ==> key[j] != c
    ensures !Infix(marker, key)
  {
    if Infix(marker, key) {
      InfixHas(marker, key, c);
    }
  }

  const SAFE_KEYS: seq<string> := ["table_c1_ot_hw_interrupt", "table_c2_ot_hw_interrupt_native"]

  /** By its key, table B-1 lists routines that move memory, and not safe ones. */
  lemma KeyB1()
    ensures !KeySafe(B1) && KeyMoves(B1)
  {
    assert "moves_memory" <= Key(B1)[9..];
    NoMarker("interrupt_safe", Key(B1), 'i');
    NoMarker("hw_interrupt", Key(B1), 'h');
    assert |Key(B1)| != |SAFE_KEYS[0]| && |Key(B1)| != |SAFE_KEYS[1]|;
  }

  /** By its key, table B-2 lists neither safe routines nor routines that move memory. */
  lemma KeyB2()
    ensures !KeySafe(B2) && !KeyMoves(B2)
  {
    NoMarker("interrupt_safe", Key(B2), 'i');
    NoMarker("hw_interrupt", Key(B2), 'h');
    assert |Key(B2)| != |SAFE_KEYS[0]| && |Key(B2)| != |SAFE_KEYS[1]|;
    NoMarker("moves_memory", Key(B2), 'y');
  }

  /** By its key, table B-3 lists safe routines, and not routines that move memory. */
  lemma KeyB3()
    ensures KeySafe(B3) && !KeyMoves(B3)
  {
    assert "interrupt_safe" <= Key(B3)[9..];
    NoMarker("moves_memory", Key(B3), 'y');
  }

  /** By its key, table C-1 lists safe routines, and not routines that move memory. */
  lemma KeyC1()
    ensures KeySafe(C1) && !KeyMoves(C1)
  {
    assert Key(C1) == SAFE_KEYS[0];
    NoMarker("moves_memory", Key(C1), 'y');
  }

  /** By its key, table C-2 lists safe routines, and not routines that move memory. */
  lemma KeyC2()
    ensures KeySafe(C2) && !KeyMoves(C2)
  {
    assert Key(C2) == SAFE_KEYS[1];
    NoMarker("moves_memory", Key(C2), 'y');
  }

  /** By its key, table C-3 lists neither safe routines nor routines that move memory. */
  lemma KeyC3()
    ensures !KeySafe(C3) && !KeyMoves(C3)
  {
    NoMarker("interrupt_safe", Key(C3), 'i');
    NoMarker("hw_interrupt", Key(C3), 'h');
    assert |Key(C3)| != |SAFE_KEYS[0]| && |Key(C3)| != |SAFE_KEYS[1]|;
    NoMarker("moves_memory", Key(C3), 'y');
  }

  /** The first pass's key tests pick exactly the tables of the conflict pass's safe list: B-3, C-1 and C-2. */
  lemma SafeTables(t: TableId)
    ensures KeySafe(t) <==> ListedSafe(t)
  {
    match t
    case B1 => KeyB1();
    case B2 => KeyB2();
    case B3 => KeyB3();
    case C1 => KeyC1();
    case C2 => KeyC2();
    case C3 => KeyC3();
  }

  /** The key test picks B-1 alone as the table of routines that move memory. */
  lemma MovesTables(t: TableId)
    ensures KeyMoves(t) <==> t == B1
  {
    match t
    case B1 => KeyB1();
    case B2 => KeyB2();
    case B3 => KeyB3();
    case C1 => KeyC1();
    case C2 => KeyC2();
    case C3 => KeyC3();
  }

  // ---------------------------------------------------------------------
  // The function index
  // ---------------------------------------------------------------------

  /**
   * One record of the index: the book of the first table that lists the
   * name, every table that lists it (once per listing), and the three
   * verdicts (`None` standing for an unknown).
   */
  datatype Info = Info(book: string, tables: seq<TableId>, interruptSafe: Option<bool>,
                       movesMemory: Option<bool>, syncAsyncDependent: bool)

  /** A name listed in table `t` in the first pass. */
  datatype Entry = Entry(table: TableId, name: string)

  /** The record a name gets when it is first seen, in table `t`. */
  function Fresh(t: TableId): Info
  {
    Info(FileName(BookOf(t)), [], None, None, false)
  }

  /**
   * What one listing in table `t` does to a record: a safe table makes it
   * safe, B-1 makes it move memory and unsafe. (The indexer decides both by
   * tests on the table's key; `SafeTables` and `MovesTables` show they pick
   * these tables.)
   */
  function Apply(info: Info, t: TableId): Info
  {
    var listed := info.(tables := info.tables + [t]);
    var safe := if ListedSafe(t) then listed.(interruptSafe := Some(true)) else listed;
    if t == B1 then safe.(movesMemory := Some(true), interruptSafe := Some(false)) else safe
  }

  /** The first pass over a stream of listings. */
  function Pass(s: seq<Entry>): map<string, Info>
  {
    if |s| == 0 then map[]
    else
      var m := Pass(s[..|s| - 1]);
      var e := s[|s| - 1];
      m[e.name := Apply(if e.name in m then m[e.name] else Fresh(e.table), e.table)]
  }

  /** The second pass: a name listed by both a safe and an unsafe table depends on how it is called. */
  function Resolve(info: Info): Info
  {
    if HasSafe(info.tables) && HasUnsafe(info.tables)
    then info.(interruptSafe := None, syncAsyncDependent := true)
    else info
  }

  function Entries(t: TableId, names: seq<string>): (es: seq<Entry>)
    ensures |es| == |names|
    ensures forall i :: 0 <= i < |names| ==> es[i] == Entry(t, names[i])
  {
    seq(|names|, i requires 0 <= i < |names| => Entry(t, names[i]))
  }

  /** The text of a table's book, if it is on disk. */
  function BookText(t: TableId, imVi: Option<seq<string>>, ot: Option<seq<string>>): Option<seq<string>>
  {
    if BookOf(t) == InsideMacintoshVI then imVi else ot
  }

  /** The listings of the tables `ts`, in order; a table whose book is missing lists nothing. */
  function Stream(imVi: Option<seq<string>>, ot: Option<seq<string>>, ts: seq<TableId>): seq<Entry>
  {
    if |ts| == 0 then []
    else
      var t := ts[|ts| - 1];
      Stream(imVi, ot, ts[..|ts| - 1]) +
        match BookText(t, imVi, ot)
        case None => []
        case Some(book) => Entries(t, Names(Window(book, Start(t), End(t))))
  }

  /** The second pass over every record. */
  function ResolveAll(m: map<string, Info>): map<string, Info>
  {
    map k | k in m :: Resolve(m[k])
  }

  /** The index `build_function_index` returns. */
  function FunctionIndex(imVi: Option<seq<string>>, ot: Option<seq<string>>): map<string, Info>
  {
    ResolveAll(Pass(Stream(imVi, ot, TABLES)))
  }

  // ---------------------------------------------------------------------
  // What a record says, in closed form
  // ---------------------------------------------------------------------

  /** The tables that list `name`, in stream order, once per listing. */
  function TablesOf(s: seq<Entry>, name: string): seq<TableId>
  {
    if |s| == 0 then []
    else
      var e := s[|s| - 1];
      TablesOf(s[..|s| - 1], name) + (if e.name == name then [e.table] else [])
  }

  /** The listings of `ts` applied in order to a record. */
  function Replay(info: Info, ts: seq<TableId>): Info
  {
    if |ts| == 0 then info else Apply(Replay(info, ts[..|ts| - 1]), ts[|ts| - 1])
  }

  /**
   * The first pass holds a record for exactly the listed names, and a
   * name's record is its listings replayed on the record its first table
   * gave it.
   */
  lemma {:induction false} PassRecord(s: seq<Entry>, name: string)
    ensures name in Pass(s) <==> |TablesOf(s, name)| > 0
    ensures name in Pass(s) ==>
      Pass(s)[name] == Replay(Fresh(TablesOf(s, name)[0]), TablesOf(s, name))
    decreases |s|
  {
    if |s| > 0 {
      var init := s[..|s| - 1];
      var e := s[|s| - 1];
      PassRecord(init, name);
      if e.name == name {
        var ts := TablesOf(init, name);
        assert TablesOf(s, name) == ts + [e.table];
        assert (ts + [e.table])[..|ts|] == ts;
        if |ts| == 0 {
          assert Replay(Fresh(e.table), []) == Fresh(e.table);
        } else {
          assert (ts + [e.table])[0] == ts[0];
        }
      } else {
        assert TablesOf(s, name) == TablesOf(init, name);
      }
    }
  }

  /** Replaying listings on a fresh record: its tables are those listings, and it moves memory exactly when B-1 is one. */
  lemma {:induction false} ReplayTables(t: TableId, ts: seq<TableId>)
    ensures Replay(Fresh(t), ts).tables == ts
    ensures Replay(Fresh(t), ts).movesMemory == if B1 in ts then Some(true) else None
    ensures Replay(Fresh(t), ts).book == FileName(BookOf(t))
    ensures !Replay(Fresh(t), ts).syncAsyncDependent
    decreases |ts|
  {
    if |ts| > 0 {
      var n := |ts| - 1;
      ReplayTables(t, ts[..n]);
      assert ts == ts[..n] + [ts[n]];
      assert B1 in ts <==> B1 in ts[..n] || ts[n] == B1;
    }
  }

  /** With no safe table among the listings, the record is unsafe exactly when B-1 lists the name. */
  lemma {:induction false} ReplayUnsafeOnly(t: TableId, ts: seq<TableId>)
    requires !HasSafe(ts)
    ensures Replay(Fresh(t), ts).interruptSafe == if B1 in ts then Some(false) else None
    decreases |ts|
  {
    if |ts| > 0 {
      var n := |ts| - 1;
      assert !HasSafe(ts[..n]) by {
        forall k | 0 <= k < n
          ensures !ListedSafe(ts[..n][k])
        {
          assert ts[..n][k] == ts[k];
        }
      }
      ReplayUnsafeOnly(t, ts[..n]);
      assert !ListedSafe(ts[n]);
      assert B1 in ts <==> B1 in ts[..n] || ts[n] == B1 by {
        assert ts == ts[..n] + [ts[n]];
      }
    }
  }

  /** With a safe table and no B-1 among the listings, the record is safe. */
  lemma {:induction false} ReplaySafe(t: TableId, ts: seq<TableId>)
    requires HasSafe(ts) && B1 !in ts
    ensures Replay(Fresh(t), ts).interruptSafe == Some(true)
    decreases |ts|
  {
    var n := |ts| - 1;
    if !ListedSafe(ts[n]) {
      var k :| 0 <= k < |ts| && ListedSafe(ts[k]);
      assert k < n && ts[..n][k] == ts[k];
      assert B1 !in ts[..n];
      ReplaySafe(t, ts[..n]);
    }
  }

  /**
   * A record after both passes: safe when some safe table and no unsafe
   * one lists the name; unsafe when B-1 lists it and no safe table does;
   * unknown when only B-2 or C-3 list it, or when safe and unsafe tables
   * both do, and then (only then) it depends on synchronous or
   * asynchronous calling.
   */
  lemma Classified(t: TableId, ts: seq<TableId>)
    ensures Resolve(Replay(Fresh(t), ts)).interruptSafe ==
      if HasSafe(ts) && HasUnsafe(ts) then None
      else if HasSafe(ts) then Some(true)
      else if B1 in ts then Some(false)
      else None
    ensures Resolve(Replay(Fresh(t), ts)).syncAsyncDependent <==> HasSafe(ts) && HasUnsafe(ts)
    ensures Resolve(Replay(Fresh(t), ts)).movesMemory == if B1 in ts then Some(true) else None
  {
    ReplayTables(t, ts);
    if !HasSafe(ts) {
      ReplayUnsafeOnly(t, ts);
    } else if !HasUnsafe(ts) {
      assert B1 !in ts by {
        forall k | 0 <= k < |ts|
          ensures ts[k] != B1
        {
          assert !ListedUnsafe(ts[k]);
        }
      }
      ReplaySafe(t, ts);
    }
  }

  /**
   * After both passes over any stream of listings, the records are those
   * of the listed names; each names the book of the first table that lists
   * it and every listing in order, and carries the verdicts `Classified`
   * states.
   */
  lemma IndexOf(s: seq<Entry>, name: string)
    ensures name in ResolveAll(Pass(s)) <==> |TablesOf(s, name)| > 0
    ensures name in ResolveAll(Pass(s)) ==>
      var ts := TablesOf(s, name);
      var info := ResolveAll(Pass(s))[name];
      info == Resolve(Replay(Fresh(ts[0]), ts)) && info.tables == ts && info.book == FileName(BookOf(ts[0]))
  {
    var m := Pass(s);
    PassRecord(s, name);
    assert name in ResolveAll(m) <==> name in m;
    if name in m {
      var ts := TablesOf(s, name);
      var r := Replay(Fresh(ts[0]), ts);
      assert m[name] == r;
      assert ResolveAll(m)[name] == Resolve(r);
      ReplayTables(ts[0], ts);
      assert Resolve(r).tables == r.tables && Resolve(r).book == r.book;
    }
  }

  /** `IndexOf` for the index `build_function_index` returns, over the six tables in order. */
  lemma IndexRecord(imVi: Option<seq<string>>, ot: Option<seq<string>>, name: string)
    ensures var ts := TablesOf(Stream(imVi, ot, TABLES), name);
      (name in FunctionIndex(imVi, ot) <==> |ts| > 0)
      && (name in FunctionIndex(imVi, ot) ==>
            FunctionIndex(imVi, ot)[name] == Resolve(Replay(Fresh(ts[0]), ts))
            && FunctionIndex(imVi, ot)[name].tables == ts
            && FunctionIndex(imVi, ot)[name].book == FileName(BookOf(ts[0])))
  {
    IndexOf(Stream(imVi, ot, TABLES), name);
  }

  // ---------------------------------------------------------------------
  // build_function_index
  // ---------------------------------------------------------------------

  lemma PassStep(s: seq<Entry>, e: Entry)
    ensures Pass(s + [e]) == var m := Pass(s);
      m[e.name := Apply(if e.name in m then m[e.name] else Fresh(e.table), e.table)]
  {
    assert (s + [e])[..|s|] == s;
  }

  lemma EntriesStep(s: seq<Entry>, t: TableId, names: seq<string>, j: nat)
    requires j < |names|
    ensures s + Entries(t, names[..j + 1]) == (s + Entries(t, names[..j])) + [Entry(t, names[j])]
  {
    assert Entries(t, names[..j + 1]) == Entries(t, names[..j]) + [Entry(t, names[j])];
  }

  /** The first pass's loop body: file one listing of `name` in table `t` under its record. */
  method RecordName(functions: map<string, Info>, ghost s: seq<Entry>, t: TableId, safe: bool, moves: bool, name: string)
    returns (out: map<string, Info>)
    requires functions == Pass(s) && safe == ListedSafe(t) && moves == (t == B1)
    ensures out == Pass(s + [Entry(t, name)])
  {
    PassStep(s, Entry(t, name));
    var info := if name in functions then functions[name] else Fresh(t);
    info := info.(tables := info.tables + [t]);
    if safe {
      info := info.(interruptSafe := Some(true));
    }
    if moves {
      info := info.(movesMemory := Some(true), interruptSafe := Some(false));
    }
    out := functions[name := info];
  }

  /** The first pass's inner loop: one table's names, each filed under its record. */
  method RecordNames(functions: map<string, Info>, ghost s: seq<Entry>, t: TableId, names: seq<string>)
    returns (out: map<string, Info>)
    requires functions == Pass(s)
    ensures out == Pass(s + Entries(t, names))
  {
    var safe := KeySafe(t);
    var moves := KeyMoves(t);
    SafeTables(t);
    MovesTables(t);
    out := functions;
    var j := 0;
    assert s + Entries(t, names[..0]) == s;
    while j < |names|
      invariant 0 <= j <= |names|
      invariant out == Pass(s + Entries(t, names[..j]))
    {
      EntriesStep(s, t, names, j);
      out := RecordName(out, s + Entries(t, names[..j]), t, safe, moves, names[j]);
      j := j + 1;
    }
    assert names[..j] == names;
  }

  /** One table more in the stream: its listings come after those of the tables before it. */
  lemma StreamStep(imVi: Option<seq<string>>, ot: Option<seq<string>>, ts: seq<TableId>, k: nat)
    requires k < |ts|
    ensures BookText(ts[k], imVi, ot).None? ==> Stream(imVi, ot, ts[..k + 1]) == Stream(imVi, ot, ts[..k])
    ensures BookText(ts[k], imVi, ot).Some? ==>
      var t := ts[k];
      Stream(imVi, ot, ts[..k + 1])
        == Stream(imVi, ot, ts[..k]) + Entries(t, Names(Window(BookText(t, imVi, ot).value, Start(t), End(t))))
  {
    var u := ts[..k + 1];
    assert u[..|u| - 1] == ts[..k];
    assert u[|u| - 1] == ts[k];
  }

  /** The second pass: every record listed by both a safe and an unsafe table becomes unknown and call-dependent. */
  method MarkConflicts(functions: map<string, Info>) returns (out: map<string, Info>)
    ensures out == ResolveAll(functions)
  {
    out := functions;
    var todo := functions.Keys;
    while todo != {}
      invariant todo <= functions.Keys && out.Keys == functions.Keys
      invariant forall k :: k in functions ==> out[k] == if k in todo then functions[k] else Resolve(functions[k])
      decreases |todo|
    {
      var name :| name in todo;
      var tables := out[name].tables;
      if HasSafe(tables) && HasUnsafe(tables) {
        out := out[name := out[name].(interruptSafe := None, syncAsyncDependent := true)];
      }
      todo := todo - {name};
    }
  }

  /** `build_function_index`: the first pass table by table, skipping missing books, then the conflict pass. */
  method BuildFunctionIndex(imVi: Option<seq<string>>, ot: Option<seq<string>>) returns (index: map<string, Info>)
    ensures index == FunctionIndex(imVi, ot)
  {
    var functions: map<string, Info> := map[];
    var k := 0;
    while k < |TABLES|
      invariant 0 <= k <= |TABLES|
      invariant functions == Pass(Stream(imVi, ot, TABLES[..k]))
    {
      var t := TABLES[k];
      StreamStep(imVi, ot, TABLES, k);
      var book := BookText(t, imVi, ot);
      if book.Some? {
        var names := ExtractTable(book.value, Start(t), End(t));
        functions := RecordNames(functions, Stream(imVi, ot, TABLES[..k]), t, names);
      }
      k := k + 1;
    }
    assert TABLES[..k] == TABLES;
    index := MarkConflicts(functions);
  }
}
