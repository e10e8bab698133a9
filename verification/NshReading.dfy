/** Reading a script file line by line runs its commands one by one: the byte-offset machine refines the
    machine over cells, and `done` seeks to exactly the byte at which its loop head starts. */
module NshReading {
  import opened NshMachine
  import opened NshCommands
  import opened NshText
  import opened NshBytes
  import opened NshRefinement
  import opened NshLayout

  // ----- one line -----

  /** fgets reads the line, up to its newline or the end of the file. */
  lemma {:induction false} ReadsUpTo(file: string, pos: nat, end: nat, room: nat)
    requires pos < end <= |file| && end - pos <= room
    requires file[end - 1] == '\n' || end == |file|
    requires forall i :: pos <= i < end - 1 ==> file[i] != '\n'
    ensures LineEnd(file, pos, room) == end
    decreases end - pos
  {
    if pos + 1 < end {
      ReadsUpTo(file, pos + 1, end, room - 1);
    }
  }

  /** fgets stops after a newline, at the end of the file, or after 79 characters, and at nothing else. */
  lemma FgetsExact(file: string, pos: nat)
    requires pos <= |file|
    ensures var end := LineEnd(file, pos, LINELEN - 1);
            && pos <= end <= |file| && end <= pos + 79
            && (forall i :: pos <= i < end - 1 ==> file[i] != '\n')
            && (end == |file| || end == pos + 79 || (pos < end && file[end - 1] == '\n'))
  {
    ReadStops(file, pos, LINELEN - 1);
  }

  lemma {:induction false} ReadStops(file: string, pos: nat, room: nat)
    requires pos <= |file|
    ensures var end := LineEnd(file, pos, room);
            && (forall i :: pos <= i < end - 1 ==> file[i] != '\n')
            && (end == |file| || end == pos + room || (pos < end && file[end - 1] == '\n'))
    decreases room
  {
    if room > 0 && pos < |file| && file[pos] != '\n' {
      ReadStops(file, pos + 1, room - 1);
    }
  }

  lemma {:induction false} ParseKeeps<E>(run: Behaviour<E>, np: Np, env: E, line: string, start: nat, working: nat)
    requires InBounds(np) && start <= working <= |line|
    ensures ParseFrom(run, np, env, line, start, working).np.foffs == np.foffs
    decreases |line| - working
  {
    hide ParseCommand, NextDelimiter, NextQuote, Words;
    var np1 := np.(loffs := Uint16(working));
    var ptr := NextDelimiter(line, working);
    ParseCommandKeeps(run, np1, env, Words(line[start..], 0));
    if ptr < |line| && line[ptr] == ';' {
      var words := Words(line[start..ptr], 0);
      ParseCommandKeeps(run, np1, env, words);
      var r := ParseCommand(run, np1, env, words);
      ParseKeeps(run, r.np, r.env, line, ptr + 1, ptr + 1);
    } else if ptr < |line| && line[ptr] == '"' && NextQuote(line, ptr + 1) < |line| {
      ParseKeeps(run, np1, env, line, start, NextQuote(line, ptr + 1) + 1);
    }
  }

  /** A turn of nsh_script takes the offset of its line from the read position, at the end of the file too, and is the
      last one exactly if the file is at its end or a command fails. */
  lemma TurnExact<E>(run: Behaviour<E>, file: string, m: Machine<E>)
    requires InBounds(m.np) && !m.done
    ensures var t := ReadLine(run, file, m);
            t.np.foffs == m.np.fpos && (t.done <==> !(0 <= m.np.fpos < |file|) || !t.ok)
            && (!(0 <= m.np.fpos < |file|) ==> t.ok == m.ok && t.env == m.env && t.np.loffs == 0)
  {
    hide ParseFrom;
    if 0 <= m.np.fpos < |file| {
      var end := LineEnd(file, m.np.fpos, LINELEN - 1);
      var np := m.np.(foffs := m.np.fpos, loffs := 0, fpos := end, jump := false);
      ParseKeeps(run, np, m.env, file[m.np.fpos..end], 0, 0);
    }
  }

  lemma ReadableIsScanned(items: Layout)
    requires Readable(items)
    ensures Scanned(items)
  {}

  lemma {:induction false} NoNewlineBefore(items: Layout, j: nat, k: nat)
    requires Scanned(items) && j <= k <= |items| && (forall n :: j <= n < k ==> !Last(items[n]))
    requires Off(items, k) <= |Text(items)|
    ensures forall i :: Off(items, j) <= i < Off(items, k) ==> Text(items)[i] != '\n'
    decreases k - j
  {
    hide Scanned, TextOf;
    if j < k {
      OffMonotone(items, k - 1, k);
      NoNewlineBefore(items, j, k - 1);
      TextAt(items, k - 1, |items|);
      ItemIsReadable(items, k - 1);
      var text := Text(items)[Off(items, k - 1)..Off(items, k)];
      forall i | Off(items, k - 1) <= i < Off(items, k) ensures Text(items)[i] != '\n' {
        assert Text(items)[i] == text[i - Off(items, k - 1)];
      }
    }
  }

  lemma LineIsRead(items: Layout, j: nat)
    requires Readable(items) && j < |items| && HasPlace(items, j)
    ensures Off(items, j) < Off(items, LineStop(items, j)) <= |Text(items)|
    ensures LineEnd(Text(items), Off(items, j), LINELEN - 1) == Off(items, LineStop(items, j))
  {
    hide Readable, Scanned, TextOf;
    ReadableIsScanned(items);
    NonemptyEndsLine(items);
    var last := LineStop(items, j) - 1;
    ItemIsReadable(items, j);
    LineBounds(items, j);
    LineFits(items, j);
    forall n | j <= n < last ensures !Last(items[n]) {
      LineStopIsFirst(items, j, n);
    }
    OffMonotone(items, last, |items|);
    NoNewlineBefore(items, j, last);
    LastNewline(items, last);
    ReadsUpTo(Text(items), Off(items, j), Off(items, last + 1), LINELEN - 1);
  }

  lemma LineFits(items: Layout, j: nat)
    requires Readable(items) && j < |items|
    ensures Off(items, LineStop(items, j)) - Off(items, j) < LINELEN
  {}

  /** The only newline of a last command is its terminator, which only the last of a file may do without. */
  lemma LastNewline(items: Layout, k: nat)
    requires Scanned(items) && k < |items| && Last(items[k])
    ensures Off(items, k) <= Off(items, k + 1) <= |Text(items)|
    ensures Off(items, k + 1) == |Text(items)| || (Off(items, k + 1) > 0 && Text(items)[Off(items, k + 1) - 1] == '\n')
    ensures forall i :: Off(items, k) <= i < Off(items, k + 1) - 1 ==> Text(items)[i] != '\n'
  {
    hide Scanned, TextOf;
    TextAt(items, k, |items|);
    ItemIsReadable(items, k);
    OnlyLast(items, k);
    var text := Text(items)[Off(items, k)..Off(items, k + 1)];
    forall i | Off(items, k) <= i < Off(items, k + 1) - 1 ensures Text(items)[i] != '\n' {
      assert Text(items)[i] == text[i - Off(items, k)];
    }
    if items[k].end.Newline? {
      assert Text(items)[Off(items, k + 1) - 1] == text[|text| - 1];
    }
  }

  lemma OnlyLast(items: Layout, k: nat)
    requires Scanned(items) && k < |items|
    ensures items[k].end.EndOfFile? ==> k == |items| - 1
  {}

  /** The machine over cells after the commands of a line, or of the part of it that was run. */
  ghost predicate LineDone<E>(items: Layout, m: Machine<E>, y: Step<E>, stop: nat)
    requires stop <= |items|
  {
    && Tracks(PlacesOf(items), m, y)
    && (if y.np.jump then (m.np.fpos, y.np.fpos) in PlacesOf(items)
        else (y.ok ==> m.np.fpos == First(items, stop)) && y.np.fpos == Off(items, stop))
  }

  /** The offset nsh_parse has recorded when it runs command `k` of the line read at command `j`. */
  function LineOffset(items: Layout, j: nat, k: nat): nat
    requires j <= |items| && k < |items| && Off(items, j) <= Off(items, k)
  {
    Uint16(Off(items, k) - Off(items, j) + Resume(items[k].raw, 0))
  }

  /** It is the offset of the command exactly if the command has no quotes. */
  lemma OffsetExact(items: Layout, j: nat, k: nat)
    requires OnLine(items, j, k) && Off(items, j) <= Off(items, k)
    requires Clean(items[k].raw, 0, Last(items[k])) && Off(items, LineStop(items, j)) - Off(items, j) < LINELEN
    ensures Off(items, j) + LineOffset(items, j, k) == Off(items, k) <==> Unquoted(items[k].raw)
  {
    hide TextOf, Clean, Resume, Unquoted;
    ResumeExact(items[k].raw, Last(items[k]));
    TextAt(items, k, |items|);
    OffMonotone(items, k + 1, LineStop(items, j));
  }

  lemma HeadOffset(items: Layout, j: nat, k: nat)
    requires Readable(items) && OnLine(items, j, k) && Off(items, j) <= Off(items, k)
    ensures IsLoopHead(ItemWords(items[k])) ==> Off(items, j) + LineOffset(items, j, k) == Off(items, k)
  {
    hide ItemWords, TextOf, Readable, Scanned;
    ReadableIsScanned(items);
    ItemIsReadable(items, k);
    LineFits(items, j);
    OffsetExact(items, j, k);
  }

  lemma ItemScanned<E>(run: Behaviour<E>, items: Layout, b: Np, env: E, j: nat, k: nat)
    requires Readable(items) && OnLine(items, j, k) && InBounds(b)
    requires Off(items, j) <= Off(items, k) <= Off(items, k + 1) <= Off(items, LineStop(items, j)) <= |Text(items)|
    ensures var start := Off(items, k) - Off(items, j);
            var y := ParseCommand(run, b.(loffs := LineOffset(items, j, k)), env, ItemWords(items[k]));
            ParseFrom(run, b, env, LineText(items, j), start, start) ==
            if Last(items[k]) then y else AfterCommand(run, y, LineText(items, j), Off(items, k + 1) - Off(items, j))
  {
    hide ParseCommand, ParseFrom, Words, AfterCommand, AtDelimiter, TextOf, InBounds, Uint16, Readable, LineText,
      Stands, Scanned;
    ReadableIsScanned(items);
    var start := Off(items, k) - Off(items, j);
    var end := start + |items[k].raw|;
    OnlyLast(items, k);
    StandsInLine(items, j, k);
    ItemIsReadable(items, k);
    StandsBounds(LineText(items, j), start, items[k].raw, end);
    ScanReaches(run, b, env, LineText(items, j), start, items[k].raw, end, 0);
    DelimiterOfItem(run, b, env, LineText(items, j), start, items[k], end, start + Resume(items[k].raw, 0));
  }

  lemma ItemIsReadable(items: Layout, k: nat)
    requires Scanned(items) && k < |items|
    ensures ReadableItem(items[k])
  {}

  lemma StandsBounds(line: string, start: nat, raw: string, end: nat)
    requires Stands(line, start, raw, end)
    ensures start <= end <= |line|
  {}

  lemma DelimiterOfItem<E>(
    run: Behaviour<E>, b: Np, env: E, line: string, start: nat, it: Item, end: nat, loffs: nat)
    requires InBounds(b) && Stands(line, start, it.raw, end) && (EndsLine(line, end) <==> Last(it))
    requires Last(it) ==> line[start..] == ItemText(it)
    ensures var y := ParseCommand(run, b.(loffs := Uint16(loffs)), env, ItemWords(it));
            AtDelimiter(run, b, env, line, start, end, loffs) ==
            if Last(it) then y else AfterCommand(run, y, line, end + 1)
  {
    hide ParseCommand, Words, AfterCommand, InBounds, Uint16;
    assert it.raw + "" == it.raw;
  }

  lemma AlikeAnyOffset(places: Places, a: Np, b: Np, loffs: nat)
    requires Alike(places, a, b)
    ensures InBounds(a) && InBounds(b) && InBounds(b.(loffs := loffs)) && Alike(places, a, b.(loffs := loffs))
  {}

  /** Running the rest of a line from command `k` on.  The line was read at command `j`. */
  lemma {:induction false} LineRefines<E>(
    run: Behaviour<E>, items: Layout, m: Machine<E>, b: Np, j: nat, k: nat) returns (n: nat)
    requires Readable(items) && OnLine(items, j, k)
    requires InBounds(m.np) && !m.done && m.np.fpos == First(items, k)
    requires Alike(PlacesOf(items), m.np, b) && !b.jump
    requires b.foffs == Off(items, j) && b.fpos == Off(items, LineStop(items, j)) <= |Text(items)|
    requires Off(items, j) <= Off(items, k) <= Off(items, LineStop(items, j))
    ensures n > 0
    ensures var start := Off(items, k) - Off(items, j);
            LineDone(items, Iterate(run, Cells(items), m, n),
                     ParseFrom(run, b, m.env, LineText(items, j), start, start), LineStop(items, j))
    decreases |items| - k
  {
    hide ParseCommand, ParseFrom, Iterate, Advance, CellsOf, ItemWords, InBounds, Related, Alike, TextOf, CellsTo,
      LineOffset, LineText, Readable, PlacesOf;
    AlikeAnyOffset(PlacesOf(items), m.np, b, LineOffset(items, j, k));
    OffMonotone(items, k, k + 1);
    OffMonotone(items, k + 1, LineStop(items, j));
    HeadOffset(items, j, k);
    ItemScanned(run, items, b, m.env, j, k);
    var b1 := b.(loffs := LineOffset(items, j, k));
    var y := ParseCommand(run, b1, m.env, ItemWords(items[k]));
    n := ItemRefines(run, items, m, b1, k);
    LineStopIsFirst(items, j, k);
    if !Last(items[k]) && y.ok && !y.np.jump {
      var m1 := Iterate(run, Cells(items), m, n);
      ParseCommandKeeps(run, b1, m.env, ItemWords(items[k]));
      RelatedAlike(PlacesOf(items), m1.np, y.np);
      var n1 := LineRefines(run, items, m1, y.np, j, k + 1);
      Chain(run, Cells(items), m, n, m1, n1, Iterate(run, Cells(items), m1, n1));
      n := n + n1;
    }
  }

  /** One command of a line. */
  lemma ItemRefines<E>(run: Behaviour<E>, items: Layout, m: Machine<E>, b: Np, k: nat) returns (n: nat)
    requires k < |items| && InBounds(m.np) && !m.done && m.np.fpos == First(items, k)
    requires Alike(PlacesOf(items), m.np, b) && b.foffs >= 0 && !b.jump
    requires IsLoopHead(ItemWords(items[k])) ==> b.foffs + b.loffs == Off(items, k)
    ensures n > 0
    ensures var m', y := Iterate(run, Cells(items), m, n), ParseCommand(run, b, m.env, ItemWords(items[k]));
            && Tracks(PlacesOf(items), m', y)
            && (if y.np.jump then (m'.np.fpos, y.np.fpos) in PlacesOf(items)
                else m'.np.fpos == First(items, k + 1) && y.np.fpos == b.fpos)
  {
    hide ParseCommand, Iterate, Advance, CellsOf, ItemWords, InBounds, Related, TextOf;
    CellsAt(items, k, |items|);
    if IsLoopHead(ItemWords(items[k])) {
      HeadHasPlace(items, k);
    }
    n := CommandRefines(PlacesOf(items), run, Cells(items), m, First(items, k), b, ItemWords(items[k]));
  }

  lemma HeadHasPlace(items: Layout, k: nat)
    requires k < |items| && IsLoopHead(ItemWords(items[k]))
    ensures (First(items, k) as int, Off(items, k) as int) in PlacesOf(items)
  {
    hide CellsTo, TextOf;
    assert HasPlace(items, k);
  }

  // ----- whole files -----

  /** Both machines are at the same command, or have both stopped with the same result. */
  ghost predicate InStep<E>(items: Layout, m: Machine<E>, f: Machine<E>) {
    && Alike(PlacesOf(items), m.np, f.np) && m.env == f.env && m.ok == f.ok && m.done == f.done
    && (!m.done ==> (m.np.fpos, f.np.fpos) in PlacesOf(items))
  }

  /** One line on bytes is one or more commands on cells. */
  lemma LineInStep<E>(run: Behaviour<E>, items: Layout, m: Machine<E>, f: Machine<E>) returns (n: nat)
    requires Readable(items) && InStep(items, m, f) && !f.done
    ensures n > 0 && InStep(items, Iterate(run, Cells(items), m, n), ReadLine(run, Text(items), f))
  {
    hide ParseFrom, Iterate, Advance, CellsTo, TextOf, Related, Alike, Readable, InBounds, Scanned, HasPlace;
    ReadableIsScanned(items);
    var k := PlaceAt(items, m.np.fpos, f.np.fpos);
    AlikeAnyOffset(PlacesOf(items), m.np, f.np, 0);
    if k == |items| {
      EndOfCells(run, Cells(items), m);
      AlikeAnyPosition(PlacesOf(items), m.np, f.np, f.np.(foffs := f.np.fpos, loffs := 0));
      Once(run, Cells(items), m);
      n := 1;
    } else {
      NonemptyEndsLine(items);
      LineIsRead(items, k);
      var b := f.np.(foffs := Off(items, k), loffs := 0, fpos := Off(items, LineStop(items, k)), jump := false);
      AlikeAnyPosition(PlacesOf(items), m.np, f.np, b);
      n := LineRefines(run, items, m, b, k, k);
      StopHasPlace(items, k);
      StopIsPlace(items, LineStop(items, k));
      var y := ReadLine(run, Text(items), f);
      RelatedAlike(PlacesOf(items), Iterate(run, Cells(items), m, n).np, y.np);
    }
  }

  lemma NonemptyEndsLine(items: Layout)
    requires Scanned(items) && items != []
    ensures Last(items[|items| - 1])
  {}

  lemma StopHasPlace(items: Layout, k: nat)
    requires Readable(items) && k < |items|
    ensures HasPlace(items, LineStop(items, k))
  {
    assert StartsLine(items, LineStop(items, k));
  }

  /** The command at a place. */
  lemma PlaceAt(items: Layout, cell: int, byte: int) returns (k: nat)
    requires (cell, byte) in PlacesOf(items)
    ensures k <= |items| && HasPlace(items, k) && cell == First(items, k) && byte == Off(items, k)
  {
    hide CellsTo, TextOf, HasPlace;
    k :| 0 <= k <= |items| && HasPlace(items, k) && (cell, byte) == (First(items, k) as int, Off(items, k) as int);
  }

  lemma StopIsPlace(items: Layout, k: nat)
    requires k <= |items| && HasPlace(items, k)
    ensures (First(items, k) as int, Off(items, k) as int) in PlacesOf(items)
  {}

  lemma AlikeAnyPosition(places: Places, a: Np, b: Np, c: Np)
    requires Alike(places, a, b) && c == b.(foffs := c.foffs, loffs := c.loffs, fpos := c.fpos, jump := c.jump)
    ensures InBounds(c) && Alike(places, a, c)
  {}

  lemma EndOfCells<E>(run: Behaviour<E>, cmds: Script, m: Machine<E>)
    requires InBounds(m.np) && !m.done && m.np.fpos == |cmds|
    ensures Advance(run, cmds, m) == m.(done := true)
  {}

  /** Reading `n` lines is running at least `n` commands, unless both machines stop. */
  lemma {:induction false} LinesInStep<E>(run: Behaviour<E>, items: Layout, m: Machine<E>, f: Machine<E>, n: nat)
    returns (k: nat)
    requires Readable(items) && InStep(items, m, f)
    ensures InStep(items, Iterate(run, Cells(items), m, k), ReadLines(run, Text(items), f, n))
    ensures k >= n || Iterate(run, Cells(items), m, k).done
    decreases n
  {
    hide ReadLine, Iterate, Advance, InStep, Readable;
    RelatedOf(items, m, f);
    Never(run, Cells(items), m);
    if n == 0 {
      k := 0;
    } else if f.done {
      StopsReading(run, Text(items), f, n);
      k := 0;
    } else {
      var j := LineInStep(run, items, m, f);
      var m1 := Iterate(run, Cells(items), m, j);
      k := LinesInStep(run, items, m1, ReadLine(run, Text(items), f), n - 1);
      Chain(run, Cells(items), m, j, m1, k, Iterate(run, Cells(items), m1, k));
      k := j + k;
    }
  }

  lemma RelatedOf<E>(items: Layout, m: Machine<E>, f: Machine<E>)
    requires InStep(items, m, f)
    ensures InBounds(m.np) && InBounds(f.np) && m.done == f.done
  {}
}
