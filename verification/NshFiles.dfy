/** Script files have the meaning of the structured script they are written from. */
module NshFiles {
  import opened NshMachine
  import opened NshProgram
  import opened NshCommands
  import opened NshSimulation
  import opened NshExactness
  import opened NshBlanks
  import opened NshText
  import opened NshTheorems
  import opened NshBytes
  import opened NshRefinement
  import opened NshLayout
  import opened NshReading
  import opened NshMatching

  /** The file `items` holds the script `p`, among any number of blank lines, comments and empty commands, and the
      session `np` can run it. */
  ghost predicate CanRun(np: Np, p: Block, items: Layout) {
    Readable(items) && Spelled(p, Strip(Cells(items))) && Open(np) && HasRoom(np, p)
  }

  lemma {:induction false} CellsPaired(items: Layout, n: nat)
    requires n <= |items|
    ensures Paired(CellsTo(items, n))
    decreases n
  {
    hide ItemWords, KeywordOf;
    if n > 0 {
      CellsPaired(items, n - 1);
      var a, b := CellsTo(items, n - 1), CellsOf(ItemWords(items[n - 1]));
      assert Paired(b);
      forall c | 0 <= c < |a + b| && (a + b)[c].open
        ensures !Blank((a + b)[c]) && c + 1 < |a + b| && !Blank((a + b)[c + 1])
      {
        if c >= |a| {
          assert b[c - |a|] == (a + b)[c] && b[c - |a| + 1] == (a + b)[c + 1];
        }
      }
    }
  }

  lemma RunCanStart(np: Np, p: Block, items: Layout)
    requires CanRun(np, p, items)
    ensures Open(np) && InBounds(np) && Readable(items) && CanStart(np, p, Cells(items))
  {
    CellsPaired(items, |items|);
  }

  lemma AgreesToo<E>(np: Np, items: Layout, m: Machine<E>, f: Machine<E>, r: Result<E>)
    requires Open(np) && InStep(items, m, f)
    ensures Agrees(np, Cells(items), m, r) <==> Agrees(np, Cells(items), f, r)
  {
    hide CellsTo, TextOf;
  }

  /** If the machine on cells stops after `k` commands, so does the reader after as many lines, in step. */
  lemma FileFollows<E>(run: Behaviour<E>, np: Np, env: E, items: Layout, k: nat)
    requires Readable(items) && Open(np) && Iterate(run, Cells(items), Start(np, env), k).done
    ensures InStep(items, Iterate(run, Cells(items), Start(np, env), k), ReadLines(run, Text(items), Start(np, env), k))
  {
    hide ReadLines, Iterate, InStep, Readable, Cells, Text;
    var m := Start(np, env);
    StartInStep(np, env, items);
    var j := LinesInStep(run, items, m, m, k);
    StopsTogether(run, items, m, j, k);
  }

  lemma StopsTogether<E>(run: Behaviour<E>, items: Layout, m: Machine<E>, j: nat, k: nat)
    requires InBounds(m.np) && Iterate(run, Cells(items), m, k).done
    requires j >= k || Iterate(run, Cells(items), m, j).done
    ensures Iterate(run, Cells(items), m, j) == Iterate(run, Cells(items), m, k)
  {
    hide Iterate, Advance;
    if j >= k {
      StopsOnce(run, Cells(items), m, k, j);
    } else {
      StopsOnce(run, Cells(items), m, j, k);
    }
  }

  /** For every script file whose lines fit the buffer and whose loop heads have no quotes, written in any
      layout from a disciplined script that fits the stacks: if the script means an end, reading the file
      comes to it ... */
  lemma FileMeaningReached<E>(run: Behaviour<E>, np: Np, env: E, p: Block, items: Layout, fuel: nat)
    returns (n: nat)
    requires CanRun(np, p, items) && Disciplined(p, false, false) && Ended(Eval(run, p, env, np.fail, false, fuel))
    ensures InBounds(Start(np, env).np)
    ensures Agrees(np, Cells(items), ReadLines(run, Text(items), Start(np, env), n),
                   Eval(run, p, env, np.fail, false, fuel))
  {
    hide ReadLines, Iterate, Eval, InStep, CanRun, CanStart, Readable, Cells, Text;
    RunCanStart(np, p, items);
    n := MeaningReached(run, np, env, p, Cells(items), fuel);
    FileFollows(run, np, env, items, n);
    AgreesToo(np, items, Iterate(run, Cells(items), Start(np, env), n), ReadLines(run, Text(items), Start(np, env), n),
              Eval(run, p, env, np.fail, false, fuel));
  }

  /** ... and if reading the file comes to an end, that is what the script means. */
  lemma FileStopIsMeant<E>(run: Behaviour<E>, np: Np, env: E, p: Block, items: Layout, n: nat) returns (fuel: nat)
    requires CanRun(np, p, items) && Disciplined(p, false, false)
    requires InBounds(Start(np, env).np) && ReadLines(run, Text(items), Start(np, env), n).done
    ensures var r := Eval(run, p, env, np.fail, false, fuel);
            Ended(r) && Agrees(np, Cells(items), ReadLines(run, Text(items), Start(np, env), n), r)
  {
    hide ReadLines, Iterate, Eval, InStep, Agrees, CanRun, CanStart, Readable, Cells, Text;
    RunCanStart(np, p, items);
    var m := Start(np, env);
    StartInStep(np, env, items);
    var k := LinesInStep(run, items, m, m, n);
    DoneTogether(items, Iterate(run, Cells(items), m, k), ReadLines(run, Text(items), m, n));
    StopIsMeant(run, np, env, p, Cells(items), k);
    fuel := k + 1;
    AgreesToo(np, items, Iterate(run, Cells(items), m, k), ReadLines(run, Text(items), m, n),
              Eval(run, p, env, np.fail, false, fuel));
  }

  lemma DoneTogether<E>(items: Layout, m: Machine<E>, f: Machine<E>)
    requires InStep(items, m, f)
    ensures m.done == f.done
  {}

  /** For every behaviour of the commands, reading the file comes to what the script means. */
  ghost predicate FileFaithful(np: Np, p: Block, items: Layout)
    requires Open(np)
  {
    forall run: Behaviour<nat>, env: nat, fuel: nat ::
      Ended(Eval<nat>(run, p, env, np.fail, false, fuel)) ==> FileComes(run, np, env, p, items, fuel)
  }

  ghost predicate FileComes(run: Behaviour<nat>, np: Np, env: nat, p: Block, items: Layout, fuel: nat)
    requires Open(np)
  {
    exists n: nat ::
      Agrees(np, Cells(items), ReadLines<nat>(run, Text(items), Start(np, env), n),
             Eval<nat>(run, p, env, np.fail, false, fuel))
  }

  /** One run of a file comes to what the script means exactly if the run of its commands does. */
  lemma ComesToo(run: Behaviour<nat>, np: Np, env: nat, p: Block, items: Layout, fuel: nat)
    requires Readable(items) && Open(np)
    ensures FileComes(run, np, env, p, items, fuel) <==> Comes(run, np, env, p, Cells(items), fuel)
  {
    hide ReadLines, Iterate, Eval, InStep, Agrees, Readable, Cells, Text;
    var m := Start<nat>(np, env);
    var r := Eval<nat>(run, p, env, np.fail, false, fuel);
    if n: nat :| Agrees(np, Cells(items), ReadLines<nat>(run, Text(items), m, n), r) {
      StartInStep<nat>(np, env, items);
      var k := LinesInStep<nat>(run, items, m, m, n);
      AgreesToo<nat>(np, items, Iterate(run, Cells(items), m, k), ReadLines(run, Text(items), m, n), r);
    }
    if k: nat :| Agrees(np, Cells(items), Iterate<nat>(run, Cells(items), m, k), r) {
      AgreedIsDone<nat>(np, Cells(items), Iterate(run, Cells(items), m, k), r);
      FileFollows<nat>(run, np, env, items, k);
      AgreesToo<nat>(np, items, Iterate(run, Cells(items), m, k), ReadLines(run, Text(items), m, k), r);
    }
  }

  lemma AgreedIsDone<E>(np: Np, cmds: Script, m: Machine<E>, r: Result<E>)
    requires Agrees(np, cmds, m, r)
    ensures m.done
  {}

  /** The condition is exact for files too. */
  lemma FileFaithfulIffDisciplined(np: Np, p: Block, items: Layout)
    requires CanRun(np, p, items) && Known(np, p)
    ensures FileFaithful(np, p, items) <==> Disciplined(p, false, false)
  {
    hide FileComes, Comes, CanRun, CanStart, Known, Readable, Eval, Cells, Text;
    RunCanStart(np, p, items);
    FaithfulIffDisciplined(np, p, Cells(items));
    forall run: Behaviour<nat>, env: nat, fuel: nat
      ensures FileComes(run, np, env, p, items, fuel) <==> Comes(run, np, env, p, Cells(items), fuel)
    {
      ComesToo(run, np, env, p, items, fuel);
    }
  }

  // ----- a file in a loose layout -----

  /** A comment, a blank line, an empty command between semicolons, and a last line without a newline. */
  const LOOSE: Layout := [
    Item("# c", Newline), Item("", Newline), Item("ls", Semicolon), Item("", Semicolon), Item("ls", EndOfFile)]

  lemma LooseText()
    ensures TextOf(LOOSE, 1) == "# c\n" && TextOf(LOOSE, 2) == "# c\n\n" && TextOf(LOOSE, 3) == "# c\n\nls;"
    ensures TextOf(LOOSE, 4) == "# c\n\nls;;" && TextOf(LOOSE, 5) == "# c\n\nls;;ls"
  {}

  lemma LooseWords()
    ensures ItemWords(Item("# c", Newline)) == []
    ensures ItemWords(Item("", Newline)) == []
    ensures ItemWords(Item("", Semicolon)) == []
    ensures ItemWords(Item("ls", Semicolon)) == ["ls"]
    ensures ItemWords(Item("ls", EndOfFile)) == ["ls"]
  {
    var s := "ls";
    assert NextArgument(s, 0) == Word(s[0..2], 2);
    assert s[0..2] == s;
    assert NextArgument(s, 2) == NoMore;
    assert Words(s, 2) == [];
  }

  lemma LooseCells()
    ensures Strip(Cells(LOOSE)) == [Cell(["ls"], false), Cell(["ls"], false)]
  {
    hide ItemWords;
    LooseWords();
    var none, ls := Cell([], false), Cell(["ls"], false);
    assert CellsTo(LOOSE, 1) == [none];
    assert CellsTo(LOOSE, 2) == [none, none];
    assert CellsTo(LOOSE, 3) == [none, none, ls];
    assert CellsTo(LOOSE, 4) == [none, none, ls, none];
    assert Cells(LOOSE) == [none, none, ls, none, ls];
    var s := Cells(LOOSE);
    assert StripTo(s, 1) == [];
    assert StripTo(s, 2) == [];
    assert StripTo(s, 3) == [ls];
    assert StripTo(s, 4) == [ls];
  }

  lemma LooseItems(n: nat)
    requires n < |LOOSE|
    ensures ReadableItem(LOOSE[n]) && ItemText(LOOSE[n]) != ""
  {}

  lemma LooseReadable()
    ensures Readable(LOOSE)
  {
    hide TextOf, ReadableItem, ItemText;
    LooseText();
    forall n | 0 <= n < |LOOSE| ensures ReadableItem(LOOSE[n]) && ItemText(LOOSE[n]) != "" {
      LooseItems(n);
    }
    ShortIsReadable(LOOSE);
  }

  /** Such a file can be run in a fresh session. */
  lemma LooseRuns(depth: nat)
    requires depth > 0
    ensures CanRun(Fresh(depth), Seq(Run(["ls"]), Seq(Run(["ls"]), End)), LOOSE)
  {
    hide Cells, Strip, Readable, TextOf;
    LooseCells();
    LooseReadable();
    var rest := Seq(Run(["ls"]), End);
    assert Code(rest) == [["ls"]];
    assert Fits(rest, depth - 1, depth - 1);
    assert Code(Seq(Run(["ls"]), rest)) == [["ls"], ["ls"]];
  }
}
