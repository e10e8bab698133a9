/** Script files as a list of commands with their terminators: how nsh_parse scans a command, and where
    each command is in the file. */
module NshLayout {
  import opened NshMachine
  import opened NshCommands
  import opened NshText
  import opened NshBytes
  import opened NshRefinement

  /** How a command ends. */
  datatype Ending = Semicolon | Newline | EndOfFile

  /** The text of one command. */
  datatype Item = Item(raw: string, end: Ending)
  type Layout = seq<Item>

  function Terminator(end: Ending): string {
    match end
    case Semicolon => ";"
    case Newline => "\n"
    case EndOfFile => ""
  }

  function ItemText(it: Item): string {
    it.raw + Terminator(it.end)
  }

  /** The command ends its line. */
  predicate Last(it: Item) { !it.end.Semicolon? }

  /** The words of the text that nsh_parse hands to nsh_parse_command. */
  function ItemWords(it: Item): seq<string> {
    Words(if it.end.Newline? then it.raw + "\n" else it.raw, 0)
  }

  /** Outside quotes `raw` holds no semicolon and no newline; the last command of a line may have a
      comment. */
  predicate Clean(raw: string, i: nat, last: bool)
    requires i <= |raw|
    decreases |raw| - i
  {
    var d := NextDelimiter(raw, i);
    d == |raw|
    || (raw[d] == '#' && last)
    || (raw[d] == '"' && NextQuote(raw, d + 1) < |raw| && Clean(raw, NextQuote(raw, d + 1) + 1, last))
  }

  /** Where nsh_parse looks for the end of the command last: after the last quoted string. */
  function Resume(raw: string, i: nat): (j: nat)
    requires i <= |raw|
    ensures i <= j <= |raw|
    decreases |raw| - i
  {
    var d := NextDelimiter(raw, i);
    if d < |raw| && raw[d] == '"' && NextQuote(raw, d + 1) < |raw| then Resume(raw, NextQuote(raw, d + 1) + 1) else i
  }

  /** There is no quotation mark in `raw` before its comment, if it has one. */
  predicate Unquoted(raw: string) {
    var d := NextDelimiter(raw, 0);
    d < |raw| ==> raw[d] != '"'
  }

  lemma ResumeExact(raw: string, last: bool)
    requires Clean(raw, 0, last)
    ensures Resume(raw, 0) == 0 <==> Unquoted(raw)
  {}

  // ----- scanning one command -----

  /** `raw` stands in `line` at `start` and ends with the delimiter at `end`, or with the line. */
  ghost predicate Stands(line: string, start: nat, raw: string, end: nat) {
    && end == start + |raw| <= |line| && line[start..end] == raw
    && (end < |line| ==> line[end] == ';' || line[end] == '\n')
  }

  predicate EndsLine(line: string, end: nat)
    requires end <= |line|
  {
    end == |line| || line[end] == '\n'
  }

  lemma DelimiterAt(line: string, start: nat, raw: string, end: nat, i: nat)
    requires Stands(line, start, raw, end) && i <= |raw|
    ensures NextDelimiter(line, start + i) == start + NextDelimiter(raw, i)
    decreases |raw| - i
  {
    if i < |raw| {
      assert line[start + i] == raw[i];
      if !IsDelimiter(raw[i]) {
        DelimiterAt(line, start, raw, end, i + 1);
      }
    }
  }

  lemma QuoteAt(line: string, start: nat, raw: string, end: nat, i: nat)
    requires Stands(line, start, raw, end) && i <= |raw| && NextQuote(raw, i) < |raw|
    ensures NextQuote(line, start + i) == start + NextQuote(raw, i)
    decreases |raw| - i
  {
    if i < |raw| {
      assert line[start + i] == raw[i];
      if raw[i] != '"' {
        QuoteAt(line, start, raw, end, i + 1);
      }
    }
  }

  /** How nsh_parse goes on after a command that ended with a semicolon. */
  function AfterCommand<E>(run: Behaviour<E>, r: Step<E>, line: string, next: nat): Step<E>
    requires InBounds(r.np) && next <= |line|
  {
    if r.ok && !r.np.jump then ParseFrom(run, r.np, r.env, line, next, next) else r
  }

  lemma AtLineEnd<E>(run: Behaviour<E>, np: Np, env: E, line: string, start: nat, working: nat)
    requires InBounds(np) && start <= working <= |line|
    requires var p := NextDelimiter(line, working); p == |line| || line[p] == '\n' || line[p] == '#'
    ensures ParseFrom(run, np, env, line, start, working) ==
            ParseCommand(run, np.(loffs := Uint16(working)), env, Words(line[start..], 0))
  {
    hide Uint16, ParseCommand, Words;
  }

  lemma AtSemicolon<E>(run: Behaviour<E>, np: Np, env: E, line: string, start: nat, working: nat)
    requires InBounds(np) && start <= working <= |line|
    requires var p := NextDelimiter(line, working); p < |line| && line[p] == ';'
    ensures var p := NextDelimiter(line, working);
            ParseFrom(run, np, env, line, start, working) ==
            AfterCommand(run, ParseCommand(run, np.(loffs := Uint16(working)), env, Words(line[start..p], 0)), line,
                         p + 1)
  {
    hide Uint16, ParseCommand, Words;
  }

  lemma AtQuote<E>(run: Behaviour<E>, np: Np, env: E, line: string, start: nat, working: nat)
    requires InBounds(np) && start <= working <= |line|
    requires var p := NextDelimiter(line, working); p < |line| && line[p] == '"' && NextQuote(line, p + 1) < |line|
    ensures var p := NextDelimiter(line, working);
            ParseFrom(run, np, env, line, start, working) ==
            ParseFrom(run, np.(loffs := Uint16(working)), env, line, start, NextQuote(line, p + 1) + 1)
  {
    hide Uint16, ParseCommand, Words;
  }

  /** What nsh_parse does at the delimiter of a command whose line offset is `loffs`. */
  function AtDelimiter<E>(
    run: Behaviour<E>, np: Np, env: E, line: string, start: nat, end: nat, loffs: nat): Step<E>
    requires InBounds(np) && start <= end <= |line|
  {
    var np1 := np.(loffs := Uint16(loffs));
    if EndsLine(line, end) then ParseCommand(run, np1, env, Words(line[start..], 0))
    else AfterCommand(run, ParseCommand(run, np1, env, Words(line[start..end], 0)), line, end + 1)
  }

  /** The scan of a clean command reaches its delimiter, with the line offset last set after its quotes. */
  lemma {:induction false} ScanReaches<E>(
    run: Behaviour<E>, np: Np, env: E, line: string, start: nat, raw: string, end: nat, i: nat)
    requires InBounds(np) && Stands(line, start, raw, end) && i <= |raw|
    requires Clean(raw, i, EndsLine(line, end))
    ensures ParseFrom(run, np, env, line, start, start + i) ==
            AtDelimiter(run, np, env, line, start, end, start + Resume(raw, i))
    decreases |raw| - i
  {
    hide ParseFrom, AtDelimiter, Uint16, NextDelimiter, NextQuote;
    DelimiterAt(line, start, raw, end, i);
    var d := NextDelimiter(raw, i);
    assert d < |raw| ==> line[start + d] == raw[d];
    if d < |raw| && raw[d] == '"' {
      var next := NextQuote(raw, d + 1) + 1;
      QuoteAt(line, start, raw, end, d + 1);
      AtQuote(run, np, env, line, start, start + i);
      ScanReaches(run, np.(loffs := Uint16(start + i)), env, line, start, raw, end, next);
      SameDelimiter(run, np, env, line, start, end, start + Resume(raw, i), Uint16(start + i));
    } else {
      ScanEnds(run, np, env, line, start, raw, end, i);
    }
  }

  lemma SameDelimiter<E>(
    run: Behaviour<E>, np: Np, env: E, line: string, start: nat, end: nat, loffs: nat, before: nat)
    requires InBounds(np) && start <= end <= |line|
    ensures AtDelimiter(run, np.(loffs := before), env, line, start, end, loffs) ==
            AtDelimiter(run, np, env, line, start, end, loffs)
  {
    hide ParseCommand, AfterCommand, Words;
  }

  lemma ScanEnds<E>(run: Behaviour<E>, np: Np, env: E, line: string, start: nat, raw: string, end: nat, i: nat)
    requires InBounds(np) && Stands(line, start, raw, end) && i <= |raw|
    requires var d := NextDelimiter(raw, i);
             NextDelimiter(line, start + i) == start + d && (d == |raw| || (raw[d] == '#' && EndsLine(line, end)))
    ensures ParseFrom(run, np, env, line, start, start + i) == AtDelimiter(run, np, env, line, start, end, start + i)
  {
    hide ParseCommand, ParseFrom, AfterCommand, Words, NextDelimiter;
    var d := NextDelimiter(raw, i);
    assert d < |raw| ==> line[start + d] == raw[d];
    if EndsLine(line, end) {
      AtLineEnd(run, np, env, line, start, start + i);
    } else {
      AtSemicolon(run, np, env, line, start, start + i);
    }
  }

  // ----- where things are in the file -----

  /** The text and the cells of the first `n` commands. */
  function TextOf(items: Layout, n: nat): string
    requires n <= |items|
  {
    if n == 0 then "" else TextOf(items, n - 1) + ItemText(items[n - 1])
  }

  function CellsTo(items: Layout, n: nat): Script
    requires n <= |items|
  {
    if n == 0 then [] else CellsTo(items, n - 1) + CellsOf(ItemWords(items[n - 1]))
  }

  function Text(items: Layout): string { TextOf(items, |items|) }
  function Cells(items: Layout): Script { CellsTo(items, |items|) }

  /** The byte and the cell at which command `n` starts. */
  function Off(items: Layout, n: nat): nat
    requires n <= |items|
  {
    |TextOf(items, n)|
  }

  function First(items: Layout, n: nat): nat
    requires n <= |items|
  {
    |CellsTo(items, n)|
  }

  /** A command with any text, or the end of the file. */
  predicate HasPlace(items: Layout, n: nat) {
    n == |items| || (n < |items| && ItemText(items[n]) != "")
  }

  ghost function PlacesOf(items: Layout): Places {
    set n | 0 <= n <= |items| && HasPlace(items, n) :: (First(items, n) as int, Off(items, n) as int)
  }

  /** One past the last command of the line that command `n` is on. */
  function LineStop(items: Layout, n: nat): (stop: nat)
    requires n < |items| && Last(items[|items| - 1])
    ensures n < stop <= |items| && Last(items[stop - 1])
    decreases |items| - n
  {
    if Last(items[n]) then n + 1 else LineStop(items, n + 1)
  }

  /** A script file that the interpreter can read: every command is clean, loop heads have no quotes, and
      every line fits the line buffer.  The last line may do without a newline, and may end with a semicolon: then
      there is an empty command after it. */
  ghost predicate Readable(items: Layout) {
    && Scanned(items)
    && (forall n :: 0 <= n < |items| ==> Off(items, LineStop(items, n)) - Off(items, n) < LINELEN)
  }

  /** The same, whatever the length of its lines. */
  ghost predicate Scanned(items: Layout) {
    && (items != [] ==> Last(items[|items| - 1]))
    && (forall n :: 0 <= n < |items| ==> ReadableItem(items[n]))
    && (forall n :: 0 <= n < |items| && StartsLine(items, n) ==> ItemText(items[n]) != "")
    && (forall n :: 0 <= n < |items| - 1 ==> !items[n].end.EndOfFile?)
  }

  predicate StartsLine(items: Layout, n: nat)
    requires n <= |items|
  {
    n == 0 || Last(items[n - 1])
  }

  predicate ReadableItem(it: Item) {
    && Clean(it.raw, 0, Last(it)) && '\n' !in it.raw
    && (IsLoopHead(ItemWords(it)) ==> Unquoted(it.raw))
  }

  lemma {:induction false} TextAt(items: Layout, k: nat, n: nat)
    requires k < n <= |items|
    ensures Off(items, k + 1) == Off(items, k) + |ItemText(items[k])| <= |TextOf(items, n)|
    ensures TextOf(items, n)[Off(items, k)..Off(items, k + 1)] == ItemText(items[k])
    decreases n
  {
    hide ItemText;
    if k + 1 < n {
      TextAt(items, k, n - 1);
    }
  }

  lemma {:induction false} CellsAt(items: Layout, k: nat, n: nat)
    requires k < n <= |items|
    ensures First(items, k + 1) == First(items, k) + |CellsOf(ItemWords(items[k]))| <= |CellsTo(items, n)|
    ensures CellsTo(items, n)[First(items, k)..First(items, k + 1)] == CellsOf(ItemWords(items[k]))
    decreases n
  {
    hide CellsOf, ItemWords;
    if k + 1 < n {
      CellsAt(items, k, n - 1);
    }
  }

  lemma {:induction false} OffMonotone(items: Layout, k: nat, n: nat)
    requires k <= n <= |items|
    ensures Off(items, k) <= Off(items, n)
    decreases n - k
  {
    if k < n {
      OffMonotone(items, k, n - 1);
    }
  }

  /** The lines of a file that is shorter than the line buffer fit. */
  lemma ShortIsReadable(items: Layout)
    requires Scanned(items) && |Text(items)| < LINELEN
    ensures Readable(items)
  {
    hide TextOf, ReadableItem, ItemText;
    forall n | 0 <= n < |items| ensures Off(items, LineStop(items, n)) - Off(items, n) < LINELEN {
      OffMonotone(items, LineStop(items, n), |items|);
    }
  }

  lemma SliceOfSlice(s: string, a: nat, b: nat, c: nat, d: nat)
    requires a <= b <= |s| && c <= d <= b - a
    ensures s[a..b][c..d] == s[a + c..a + d]
  {
    forall i | 0 <= i < d - c ensures s[a..b][c..d][i] == s[a + c..a + d][i] {
      assert s[a..b][c + i] == s[a + c + i];
    }
  }

  /** A line that holds `raw` and its terminator at `start`. */
  lemma StandsIn(line: string, start: nat, it: Item)
    requires start + |ItemText(it)| <= |line| && line[start..start + |ItemText(it)|] == ItemText(it)
    requires it.end.EndOfFile? ==> start + |it.raw| == |line|
    ensures Stands(line, start, it.raw, start + |it.raw|) && (EndsLine(line, start + |it.raw|) <==> Last(it))
  {
    var text := line[start..start + |ItemText(it)|];
    assert line[start..start + |it.raw|] == text[..|it.raw|] == it.raw;
    if !it.end.EndOfFile? {
      assert line[start + |it.raw|] == text[|it.raw|] == Terminator(it.end)[0];
    }
  }

  ghost predicate OnLine(items: Layout, j: nat, k: nat) {
    && j <= k < |items| && Last(items[|items| - 1]) && k < LineStop(items, j)
  }

  /** The line that is read at command `j`. */
  function LineText(items: Layout, j: nat): string
    requires j < |items| && Last(items[|items| - 1])
    requires Off(items, j) <= Off(items, LineStop(items, j)) <= |Text(items)|
  {
    Text(items)[Off(items, j)..Off(items, LineStop(items, j))]
  }

  lemma LineBounds(items: Layout, j: nat)
    requires j < |items| && Last(items[|items| - 1]) && ItemText(items[j]) != ""
    ensures Off(items, j) < Off(items, LineStop(items, j)) <= |Text(items)|
  {
    OffMonotone(items, j + 1, LineStop(items, j));
    OffMonotone(items, LineStop(items, j), |items|);
    TextAt(items, j, |items|);
  }

  /** Command `k` as it stands in the line from command `j` on. */
  lemma StandsInLine(items: Layout, j: nat, k: nat)
    requires OnLine(items, j, k) && (items[k].end.EndOfFile? ==> k == |items| - 1)
    requires Off(items, j) <= Off(items, LineStop(items, j)) <= |Text(items)|
    ensures var start := Off(items, k) - Off(items, j);
            var end := start + |items[k].raw|;
            var line := LineText(items, j);
            && 0 <= start && Stands(line, start, items[k].raw, end)
            && (EndsLine(line, end) <==> Last(items[k]))
            && (if Last(items[k]) then k + 1 == LineStop(items, j) && line[start..] == ItemText(items[k])
                else end + 1 == Off(items, k + 1) - Off(items, j) <= |line|)
  {
    hide TextOf;
    var stop := LineStop(items, j);
    OffMonotone(items, j, k);
    OffMonotone(items, k + 1, stop);
    TextAt(items, k, |items|);
    var start := Off(items, k) - Off(items, j);
    SliceOfSlice(Text(items), Off(items, j), Off(items, stop), start, start + |ItemText(items[k])|);
    LineStopIsFirst(items, j, k);
    StandsIn(LineText(items, j), start, items[k]);
  }

  lemma {:induction false} LineStopIsFirst(items: Layout, j: nat, k: nat)
    requires j < |items| && Last(items[|items| - 1]) && j <= k < LineStop(items, j)
    ensures Last(items[k]) ==> k + 1 == LineStop(items, j)
    decreases k - j
  {
    if j < k {
      LineStopIsFirst(items, j + 1, k);
    }
  }
}
