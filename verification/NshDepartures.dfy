/** Where NSH departs from the meaning of a script for the way it is written: a second keyword in one command, and
    quotes in a loop head.  Each comes with its exact condition and a script file that shows it. */
module NshDepartures {
  import opened NshMachine
  import opened NshProgram
  import opened NshCommands
  import opened NshSimulation
  import opened NshExactness
  import opened NshText
  import opened NshBytes
  import opened NshRefinement
  import opened NshBlanks
  import opened NshTheorems
  import opened NshLayout
  import opened NshReading
  import opened NshMatching
  import opened NshFiles

  // ----- the slot of a loop head -----

  lemma ItefKeepsLoops(np: Np, words: seq<string>)
    requires InBounds(np)
    ensures ItefStep(np, words).np.lp == np.lp && ItefStep(np, words).np.lpndx == np.lpndx
  {}

  lemma SaveKeepsLoops(np: Np, failed: bool)
    requires InBounds(np)
    ensures var np' := SaveResult(np, failed);
            && np'.iendx == np.iendx && np'.lpndx == np.lpndx < |np'.lp|
            && np'.Lp() == np.Lp().(enable := np'.Lp().enable)
  {}

  /** A command changes nothing of the loop stack but whether the top loop is enabled. */
  lemma ExecuteKeepsStacks<E>(run: Behaviour<E>, np: Np, env: E, argv: seq<string>)
    requires InBounds(np) && argv != []
    ensures var np' := Execute(run, np, env, argv).np;
            && np'.lpndx == np.lpndx && np'.Lp() == np.Lp().(enable := np'.Lp().enable)
            && (np.Lp().state != LoopDo ==> np'.iendx == np.iendx)
  {
    hide KeywordOf, SaveResult, CmdBreak;
    BreakKeepsLoops(np);
    if KeywordOf(argv) == KwBreak {
      SaveKeepsLoops(CmdBreak(np), false);
      SaveKeepsLoops(np, true);
    } else {
      SaveKeepsLoops(np, run(env, np.fail, argv).1);
    }
  }

  lemma BreakKeepsLoops(np: Np)
    requires InBounds(np)
    ensures var np' := CmdBreak(np);
            && InBounds(np') && np'.lpndx == np.lpndx && np'.Lp() == np.Lp().(enable := np'.Lp().enable)
            && (np.Lp().state != LoopDo ==> np' == np)
  {}

  /** The slot that a loop head has pushed once its test has run. */
  lemma HeadSlot<E>(run: Behaviour<E>, np: Np, env: E, words: seq<string>)
    requires InBounds(np) && IsLoopHead(words) && LoopFaultOf(np, words) == NoFault
    ensures var np' := ParseCommand(run, np, env, words).np;
            np'.lpndx == np.lpndx + 1 && np'.Lp().topoffs == np.foffs + np.loffs
  {
    hide ItefStep, Execute, Argv, SaveResult;
    var a := LoopStep(np, words);
    HeadPush(np, words);
    ItefKeepsLoops(a.np, a.words);
    var b := ItefStep(a.np, a.words);
    if b.Reject? {
      SaveKeepsLoops(b.np, true);
    } else if b.words != [] && CmdEnabled(b.np) {
      ArgvKeyword(b.words);
      ExecuteKeepsStacks(run, b.np, env, Argv(b.words));
    }
  }

  lemma HeadPush(np: Np, words: seq<string>)
    requires InBounds(np) && IsLoopHead(words) && LoopFaultOf(np, words) == NoFault
    ensures var a := LoopStep(np, words);
            a.Proceed? && a.np.lpndx == np.lpndx + 1 && a.np.Lp().topoffs == np.foffs + np.loffs
  {}

  // ----- a keyword after a keyword -----

  /** In every state that accepts the keyword and for every behaviour, the command does what the keyword and then the
      rest do. */
  ghost predicate AsTwo(words: seq<string>)
    requires |words| >= 2
  {
    forall run: Behaviour<nat>, np: Np, env: nat :: InBounds(np) && Accepts(np, [words[0]]) ==>
      ParseCommand<nat>(run, np, env, words)
      == ParseCommand<nat>(run, ParseCommand<nat>(run, np, env, [words[0]]).np, env, words[1..])
  }

  /** nsh_parse_command looks for a loop word once and then for an `if` word once.  So `then`, `else` or `do` with more
      behind it is the keyword followed by the rest exactly if the rest does not start with a keyword that has been
      looked for already; otherwise that keyword is run as if it were the name of a command. */
  lemma SplitsExact(words: seq<string>)
    requires |words| >= 2 && KeywordOf(words) in {KwThen, KwElse, KwDo}
    ensures AsTwo(words) <==> Opens(words)
  {
    hide ParseCommand, Accepts, Opens, KeywordOf;
    if Opens(words) {
      forall run: Behaviour<nat>, np: Np, env: nat | InBounds(np) && Accepts(np, [words[0]])
        ensures ParseCommand<nat>(run, np, env, words)
             == ParseCommand<nat>(run, ParseCommand<nat>(run, np, env, [words[0]]).np, env, words[1..])
      {
        OpensSplits<nat>(run, np, env, words);
      }
    } else if KeywordOf(words) == KwDo {
      DoRunsKeyword(words);
    } else {
      BranchRunsKeyword(words);
    }
  }

  /** Inside an enabled `if`, and at a loop whose test held, with room for more. */
  function InIf(state: IfState, failed: bool): (np: Np)
    ensures InBounds(np)
  {
    var np := Fresh(3);
    np.(iendx := 1, ie := np.ie[1 := IfSlot(state, false, failed)])
  }

  function InHead(): (np: Np)
    ensures InBounds(np)
  {
    var np := Fresh(3);
    np.(lpndx := 1, lp := np.lp[1 := LoopSlot(LoopWhile, true, 0, 0)])
  }

  function InBody(): (np: Np)
    ensures InBounds(np)
  {
    var np := Fresh(3);
    np.(lpndx := 1, lp := np.lp[1 := LoopSlot(LoopDo, true, 0, 0)])
  }

  /** Just after `then` or `else`. */
  function InBranch(keyword: Keyword): (np: Np)
    ensures InBounds(np)
  {
    if keyword == KwThen then InIf(ItefThen, false) else InIf(ItefElse, true)
  }

  function AtBranch(keyword: Keyword): (np: Np)
    ensures InBounds(np)
  {
    if keyword == KwThen then InIf(ItefIf, false) else InIf(ItefThen, true)
  }

  lemma BranchRunsKeyword(words: seq<string>)
    requires |words| >= 2 && KeywordOf(words) in {KwThen, KwElse} && !Opens(words)
    ensures !AsTwo(words)
  {
    hide ParseCommand, Accepts, KeywordOf, InBranch;
    var np := AtBranch(KeywordOf(words));
    BranchOnce(words);
    BranchAlone(words);
    KeywordMoves(InBranch(KeywordOf(words)), words[1..]);
  }

  /** On one line the rest is run as a command: it counts, and the stacks stay as after the keyword. */
  lemma BranchOnce(words: seq<string>)
    requires |words| >= 2 && KeywordOf(words) in {KwThen, KwElse} && KeywordOf(words[1..]) != KwBreak
    ensures ParseCommand<nat>(Oracle([]), AtBranch(KeywordOf(words)), 0, words)
            == Step(InBranch(KeywordOf(words)), 1, true)
  {
    hide Argv, ResetItef, ResetLoop, PushItef, PushLoop, PopLoop, CmdBreak;
    ArgvKeyword(words[1..]);
  }

  lemma BranchAlone(words: seq<string>)
    requires |words| >= 2 && KeywordOf(words) in {KwThen, KwElse}
    ensures Accepts(AtBranch(KeywordOf(words)), [words[0]])
    ensures ParseCommand<nat>(Oracle([]), AtBranch(KeywordOf(words)), 0, [words[0]])
            == Step(InBranch(KeywordOf(words)), 0, true)
  {
    hide Argv, Execute;
  }

  lemma ArgvKeyword(words: seq<string>)
    requires words != []
    ensures Argv(words) != [] && KeywordOf(Argv(words)) == KeywordOf(words)
  {}

  /** As a command of its own, a keyword changes a stack, or runs nothing. */
  lemma KeywordMoves(np: Np, words: seq<string>)
    requires np in {InBranch(KwThen), InBranch(KwElse)} && words != [] && KeywordOf(words) !in {KwBreak, Other}
    ensures ParseCommand<nat>(Oracle([]), np, 0, words) != Step(np, 1, true)
  {
    hide ParseCommand, KeywordOf;
    if KeywordOf(words) in {KwIf, KwWhile, KwUntil} {
      HeadMoves(np, words);
    } else {
      WordRunsNothing(np, words);
    }
  }

  /** A new slot is pushed, or the head is refused. */
  lemma HeadMoves(np: Np, words: seq<string>)
    requires np in {InBranch(KwThen), InBranch(KwElse)} && KeywordOf(words) in {KwIf, KwWhile, KwUntil}
    ensures var r := ParseCommand<nat>(Oracle([]), np, 0, words); !r.ok || r.np.iendx == 2 || r.np.lpndx == 1
  {
    hide Execute, Argv, LoopEffect;
    if |words| == 1 {
      LoneHead(np, words);
    } else if KeywordOf(words) == KwIf {
      PassesLoop(np, words);
      ArgvKeyword(words[1..]);
      ExecuteKeepsStacks<nat>(Oracle([]), PushItef(np), 0, Argv(words[1..]));
    } else {
      HeadSlot<nat>(Oracle([]), np, 0, words);
    }
  }

  lemma LoneHead(np: Np, words: seq<string>)
    requires np in {InBranch(KwThen), InBranch(KwElse)} && KeywordOf(words) in {KwIf, KwWhile, KwUntil} && |words| == 1
    ensures !ParseCommand<nat>(Oracle([]), np, 0, words).ok
  {
    hide Execute, Argv;
  }

  lemma WordRunsNothing(np: Np, words: seq<string>)
    requires np in {InBranch(KwThen), InBranch(KwElse)} && words != []
    requires KeywordOf(words) !in {KwIf, KwWhile, KwUntil, KwBreak, Other}
    ensures ParseCommand<nat>(Oracle([]), np, 0, words).env == 0
  {
    hide Argv, SaveResult, Execute;
  }

  lemma DoRunsKeyword(words: seq<string>)
    requires |words| >= 2 && KeywordOf(words) == KwDo && !Opens(words)
    ensures !AsTwo(words)
  {
    hide ParseCommand, Accepts, InBody;
    var np := InHead();
    DoOnce(words);
    LoopWordMoves(words[1..]);
  }

  lemma DoOnce(words: seq<string>)
    requires |words| >= 2 && KeywordOf(words) == KwDo && KeywordOf(words[1..]) in {KwWhile, KwUntil, KwDo, KwDone}
    ensures var np := InHead();
            && Accepts(np, [words[0]])
            && ParseCommand<nat>(Oracle([]), np, 0, [words[0]]) == Step(InBody(), 0, true)
            && ParseCommand<nat>(Oracle([]), np, 0, words) == Step(InBody(), 1, true)
  {
    hide Argv;
    ArgvKeyword(words[1..]);
  }

  lemma LoopWordMoves(words: seq<string>)
    requires words != [] && KeywordOf(words) in {KwWhile, KwUntil, KwDo, KwDone}
    ensures ParseCommand<nat>(Oracle([]), InBody(), 0, words) != Step(InBody(), 1, true)
  {
    hide ParseCommand, KeywordOf;
    if |words| > 1 && IsLoopHead(words) {
      HeadSlot<nat>(Oracle([]), InBody(), 0, words);
    } else {
      LoopWordRunsNothing(words);
    }
  }

  lemma LoopWordRunsNothing(words: seq<string>)
    requires words != [] && KeywordOf(words) in {KwWhile, KwUntil, KwDo, KwDone} && (IsLoopHead(words) ==> |words| == 1)
    ensures ParseCommand<nat>(Oracle([]), InBody(), 0, words).env == 0
  {
    hide Argv, SaveResult, Execute;
  }

  // ----- words of letters -----

  predicate Letters(w: string) {
    |w| > 0 && forall i :: 0 <= i < |w| ==> 'a' <= w[i] <= 'z'
  }

  lemma {:induction false} LettersEnd(s: string, i: nat, end: nat)
    requires i <= end <= |s| && (end < |s| ==> s[end] == ' ')
    requires forall k :: i <= k < end ==> 'a' <= s[k] <= 'z'
    ensures WordEnd(s, i, false, false) == end
    decreases end - i
  {
    if i < end {
      LettersEnd(s, i + 1, end);
    }
  }

  /** The next word of a command. */
  lemma NextWord(s: string, i: nat, w: string, rest: string)
    requires i <= |s| && s[i..] == w + rest && Letters(w) && (rest != "" ==> rest[0] == ' ')
    ensures Words(s, i) == [w] + (if rest == "" then [] else Words(s, i + |w| + 1))
  {
    hide NextArgument;
    NextIsWord(s, i, w, rest);
    if rest == "" {
      NoMoreWords(s);
    }
  }

  lemma NextIsWord(s: string, i: nat, w: string, rest: string)
    requires i <= |s| && s[i..] == w + rest && Letters(w) && (rest != "" ==> rest[0] == ' ')
    ensures NextArgument(s, i) == Word(w, if rest == "" then |s| else i + |w| + 1)
  {
    hide WordEnd, Letters;
    WordStands(s, i, w, rest);
    LettersEnd(s, i, i + |w|);
  }

  lemma WordStands(s: string, i: nat, w: string, rest: string)
    requires i <= |s| && s[i..] == w + rest && Letters(w) && (rest != "" ==> rest[0] == ' ')
    ensures i < i + |w| <= |s| && s[i..i + |w|] == w && (i + |w| == |s| <==> rest == "")
    ensures forall k :: i <= k < i + |w| ==> 'a' <= s[k] <= 'z'
    ensures i + |w| < |s| ==> s[i + |w|] == ' '
  {
    assert forall k :: 0 <= k < |s| - i ==> s[i + k] == s[i..][k];
    forall k | i <= k < i + |w| ensures 'a' <= s[k] <= 'z' {
      assert s[k] == s[i..][k - i] == w[k - i];
    }
    assert s[i..i + |w|] == s[i..][..|w|];
    assert rest != "" ==> s[i + |w|] == s[i..][|w|];
  }

  lemma NoMoreWords(s: string)
    ensures Words(s, |s|) == []
  {}

  // ----- a file with a keyword after a keyword -----

  /** The line `if a;then if b;then c;fi;fi`. */
  const NESTED: Layout := [
    Item("if a", Semicolon), Item("then if b", Semicolon), Item("then c", Semicolon), Item("fi", Semicolon),
    Item("fi", EndOfFile)]

  /** What it means. */
  const BOTH: Block := Seq(If(["a"], Seq(If(["b"], Seq(Run(["c"]), End), NoElse), End), NoElse), End)

  lemma NestedWords()
    ensures ItemWords(NESTED[0]) == ["if", "a"]
    ensures ItemWords(NESTED[1]) == ["then", "if", "b"]
    ensures ItemWords(NESTED[2]) == ["then", "c"]
    ensures ItemWords(NESTED[3]) == ItemWords(NESTED[4]) == ["fi"]
  {
    hide Words;
    NextWord("if a", 0, "if", " a");
    NextWord("if a", 3, "a", "");
    NextWord("then if b", 0, "then", " if b");
    NextWord("then if b", 5, "if", " b");
    NextWord("then if b", 8, "b", "");
    NextWord("then c", 0, "then", " c");
    NextWord("then c", 5, "c", "");
    NextWord("fi", 0, "fi", "");
  }

  lemma NestedCells()
    ensures var cmds := Cells(NESTED);
            && |cmds| == 6 && cmds[0] == Cell(["if", "a"], false) && cmds[1] == Cell(["then", "if", "b"], false)
            && cmds[2] == Cell(["then"], true)
  {
    hide ItemWords;
    NestedWords();
    assert ["then", "if", "b"][1..] == ["if", "b"] && ["then", "c"][1..] == ["c"];
    assert CellsTo(NESTED, 1) == [Cell(["if", "a"], false)];
    assert CellsTo(NESTED, 2) == CellsTo(NESTED, 1) + [Cell(["then", "if", "b"], false)];
    assert CellsTo(NESTED, 3) == CellsTo(NESTED, 2) + [Cell(["then"], true), Cell(["c"], false)];
    assert CellsTo(NESTED, 4) == CellsTo(NESTED, 3) + [Cell(["fi"], false)];
    assert CellsTo(NESTED, 5) == CellsTo(NESTED, 4) + [Cell(["fi"], false)];
  }

  lemma NestedText()
    ensures TextOf(NESTED, 1) == "if a;" && TextOf(NESTED, 2) == "if a;then if b;"
    ensures TextOf(NESTED, 3) == "if a;then if b;then c;" && TextOf(NESTED, 4) == "if a;then if b;then c;fi;"
    ensures Text(NESTED) == "if a;then if b;then c;fi;fi"
  {}

  lemma NestedItems(n: nat)
    requires n < |NESTED|
    ensures ReadableItem(NESTED[n]) && ItemText(NESTED[n]) != ""
  {
    hide ItemWords;
    NestedWords();
    assert NextDelimiter("if a", 0) == 4 && NextDelimiter("then if b", 0) == 9 && NextDelimiter("then c", 0) == 6;
  }

  lemma NestedReadable()
    ensures Readable(NESTED)
  {
    hide TextOf, ReadableItem, ItemText;
    NestedText();
    forall n | 0 <= n < |NESTED| ensures ReadableItem(NESTED[n]) && ItemText(NESTED[n]) != "" {
      NestedItems(n);
    }
    ShortIsReadable(NESTED);
  }

  /** Inside the first `if`, in the given state, after `pc` cells. */
  function InFirst(depth: nat, state: IfState, pc: nat): (np: Np)
    requires depth > 2
    ensures InBounds(np)
  {
    var np := Fresh(depth);
    np.(iendx := 1, ie := np.ie[1 := IfSlot(state, false, false)], foffs := pc - 1, fpos := pc)
  }

  lemma FirstIfGoes(depth: nat)
    requires depth > 2
    ensures Advance<nat>(Oracle([]), Cells(NESTED), Start(Fresh(depth), 0))
            == Machine(InFirst(depth, ItefIf, 1), 1, true, false)
  {
    hide Cells;
    NestedCells();
    assert ["if", "a"][1..] == ["a"];
  }

  lemma SecondIfRuns(depth: nat)
    requires depth > 2
    ensures Advance<nat>(Oracle([]), Cells(NESTED), Machine(InFirst(depth, ItefIf, 1), 1, true, false))
            == Machine(InFirst(depth, ItefThen, 2), 2, true, false)
  {
    hide Cells;
    NestedCells();
    assert ["then", "if", "b"][1..] == ["if", "b"];
  }

  lemma SecondThenRefused(depth: nat)
    requires depth > 2
    ensures var m := Advance<nat>(Oracle([]), Cells(NESTED), Machine(InFirst(depth, ItefThen, 2), 2, true, false));
            m.done && !m.ok && m.env == 2 && m.np.fail
  {
    hide Cells;
    NestedCells();
  }

  /** The script means that all three commands are run.  Reading the file, NSH takes `if b` for a command, and the
      `then` after it ends the script with an error although no command failed. */
  lemma SecondKeywordFails(depth: nat)
    requires depth > 2
    ensures Fits(BOTH, depth - 1, depth - 1)
    ensures Eval<nat>(Oracle([]), BOTH, 0, false, false, 0) == Result(3, false, Normal)
    ensures Text(NESTED) == "if a;then if b;then c;fi;fi"
    ensures var f := ReadLines<nat>(Oracle([]), Text(NESTED), Start(Fresh(depth), 0), 3);
            f.done && !f.ok && f.env == 2 && f.np.fail
  {
    hide Advance, Iterate, ReadLines, Readable, Cells, Text, InFirst;
    var run, m := Oracle([]), Start(Fresh(depth), 0);
    NestedReadable();
    NestedText();
    FirstIfGoes(depth);
    SecondIfRuns(depth);
    SecondThenRefused(depth);
    var m1 := Machine(InFirst(depth, ItefIf, 1), 1, true, false);
    var m2 := Machine(InFirst(depth, ItefThen, 2), 2, true, false);
    Twice<nat>(run, Cells(NESTED), m, m1, m2);
    Once<nat>(run, Cells(NESTED), m2);
    Chain<nat>(run, Cells(NESTED), m, 2, m2, 1, Advance(run, Cells(NESTED), m2));
    FileFollows<nat>(run, Fresh(depth), 0, NESTED, 3);
    var inner := Seq(If(["b"], Seq(Run(["c"]), End), NoElse), End);
    assert Fits(inner.head.thn, depth - 3, depth - 1);
    assert Fits(inner, depth - 2, depth - 1);
    assert Eval<nat>(run, inner, 1, false, false, 0) == Result(3, false, Normal);
  }

  // ----- quotes in a loop head -----

  /** The words of the command that stands in `line` from `start` to `end`. */
  function CommandWords(line: string, start: nat, end: nat): seq<string>
    requires start <= end <= |line|
  {
    Words(if EndsLine(line, end) then line[start..] else line[start..end], 0)
  }

  /** nsh_parse on a command of a line, in any state of the parser. */
  function OneCommand<E>(run: Behaviour<E>, np: Np, env: E, line: string, start: nat, raw: string, end: nat)
    : (r: Step<E>)
    requires InBounds(np) && start <= end <= |line|
    ensures InBounds(r.np)
  {
    ParseCommand(run, np.(loffs := Uint16(start + Resume(raw, 0))), env, CommandWords(line, start, end))
  }

  /** For every line that fits the buffer and every loop head on it that is accepted: nsh_parse runs it, and the slot
      that is left remembers the first byte of the head exactly if there are no quotes in it. */
  lemma SavedOffsetExact<E>(run: Behaviour<E>, np: Np, env: E, line: string, start: nat, raw: string, end: nat)
    requires InBounds(np) && Stands(line, start, raw, end) && Clean(raw, 0, EndsLine(line, end)) && |line| < LINELEN
    requires IsLoopHead(CommandWords(line, start, end))
    requires LoopFaultOf(np, CommandWords(line, start, end)) == NoFault
    ensures var r := OneCommand(run, np, env, line, start, raw, end);
            && ParseFrom(run, np, env, line, start, start)
               == (if EndsLine(line, end) then r else AfterCommand(run, r, line, end + 1))
            && r.np.lpndx == np.lpndx + 1
            && (r.np.Lp().topoffs == np.foffs + start <==> Unquoted(raw))
  {
    hide ParseFrom, ParseCommand, AfterCommand, Words, Resume, Clean, Unquoted, IsLoopHead;
    ScanReaches(run, np, env, line, start, raw, end, 0);
    ResumeExact(raw, EndsLine(line, end));
    HeadSlot(run, np.(loffs := Uint16(start + Resume(raw, 0))), env, CommandWords(line, start, end));
  }

  // ----- a file with quotes in a loop head -----

  const QUOTED: string := "while \"a\";do b;done"

  /** What it means. */
  const ROUNDS: Block := Seq(Loop(false, ["a"], Seq(Run(["b"]), End)), End)

  /** The first two commands succeed and the third fails. */
  const OUTCOMES: seq<bool> := [false, false, true]

  lemma HeadWords()
    ensures Words(QUOTED[0..9], 0) == ["while", "a"]
  {
    var s := "while \"a\"";
    assert QUOTED[0..9] == s && s[0..5] == "while" && s[7..8] == "a";
    assert NextArgument(s, 0) == Word("while", 6);
    assert NextArgument(s, 6) == Word("a", 9);
    assert NextArgument(s, 9) == NoMore;
    assert Words(s, 6) == ["a"] + Words(s, 9);
  }

  lemma BodyWords()
    ensures Words("do b", 0) == ["do", "b"]
    ensures Words("done", 0) == ["done"]
  {
    hide Words;
    NextWord("do b", 0, "do", " b");
    NextWord("do b", 3, "b", "");
    NextWord("done", 0, "done", "");
  }

  lemma QuotedResume()
    ensures Clean("while \"a\"", 0, false) && Resume("while \"a\"", 0) == 9
    ensures Clean("do b", 0, false) && Resume("do b", 0) == 0
    ensures Clean("done", 0, true) && Resume("done", 0) == 0
    ensures Clean("", 0, false) && Resume("", 0) == 0
  {
    var s := "while \"a\"";
    assert NextDelimiter(s, 0) == 6;
    assert NextQuote(s, 7) == 8;
    assert NextDelimiter(s, 9) == 9;
    assert NextDelimiter("do b", 0) == 4;
    assert NextDelimiter("done", 0) == 4;
  }

  /** The parser in the loop, `loffs` bytes into the line, and back at the byte after the quotes. */
  function InRound(depth: nat, state: LoopState, loffs: nat): (np: Np)
    requires depth > 1
    ensures InBounds(np)
  {
    var np := Fresh(depth);
    np.(lpndx := 1, lp := np.lp[1 := LoopSlot(state, true, 0, 9)], loffs := loffs, fpos := 19)
  }

  function WentBack(depth: nat): (np: Np)
    requires depth > 1
    ensures InBounds(np)
  {
    var np := InRound(depth, LoopNormal, 15);
    np.(lpndx := 0, fpos := 9, jump := true)
  }

  lemma RoundHead(depth: nat)
    requires depth > 1
    ensures ParseCommand<nat>(Oracle(OUTCOMES), Fresh(depth).(loffs := 9, fpos := 19), 0, ["while", "a"])
            == Step(InRound(depth, LoopWhile, 9), 1, true)
  {
    assert ["while", "a"][1..] == ["a"];
  }

  lemma RoundBody(depth: nat)
    requires depth > 1
    ensures ParseCommand<nat>(Oracle(OUTCOMES), InRound(depth, LoopWhile, 10), 1, ["do", "b"])
            == Step(InRound(depth, LoopDo, 10), 2, true)
  {
    assert ["do", "b"][1..] == ["b"];
  }

  lemma RoundEnd(depth: nat)
    requires depth > 1
    ensures ParseCommand<nat>(Oracle(OUTCOMES), InRound(depth, LoopDo, 15), 2, ["done"])
            == Step(WentBack(depth), 2, true)
  {}

  lemma DoRefused(np: Np)
    requires InBounds(np) && !AwaitsDo(np) && np.lp[0].state == LoopNormal && np.Ie().state != ItefIf
    ensures var r := ParseCommand<nat>(Oracle(OUTCOMES), np, 2, ["do", "b"]);
            !r.ok && r.env == 2 && r.np.fail
  {}

  lemma OnlyOffsets(depth: nat)
    requires depth > 1
    ensures !Fresh(depth).jump && WentBack(depth).jump
    ensures forall state, a, b :: InRound(depth, state, a).(loffs := b) == InRound(depth, state, b)
    ensures forall state, a :: !InRound(depth, state, a).jump
  {}

  lemma LineFromDone(depth: nat)
    requires depth > 1
    ensures ParseFrom<nat>(Oracle(OUTCOMES), InRound(depth, LoopDo, 10), 2, QUOTED, 15, 15)
            == Step(WentBack(depth), 2, true)
  {
    hide ParseFrom, ParseCommand, Words, Clean, Resume, InRound, WentBack;
    BodyWords();
    QuotedResume();
    RoundEnd(depth);
    OnlyOffsets(depth);
    assert QUOTED[15..19] == "done" == QUOTED[15..];
    ScanReaches<nat>(Oracle(OUTCOMES), InRound(depth, LoopDo, 10), 2, QUOTED, 15, "done", 19, 0);
  }

  lemma LineFromDo(depth: nat)
    requires depth > 1
    ensures ParseFrom<nat>(Oracle(OUTCOMES), InRound(depth, LoopWhile, 9), 1, QUOTED, 10, 10)
            == Step(WentBack(depth), 2, true)
  {
    hide ParseFrom, ParseCommand, Words, Clean, Resume, InRound, WentBack;
    BodyWords();
    QuotedResume();
    RoundBody(depth);
    OnlyOffsets(depth);
    LineFromDone(depth);
    assert QUOTED[10..14] == "do b";
    ScanReaches<nat>(Oracle(OUTCOMES), InRound(depth, LoopWhile, 9), 1, QUOTED, 10, "do b", 14, 0);
  }

  lemma FirstLine(depth: nat)
    requires depth > 1
    ensures ParseLine<nat>(Oracle(OUTCOMES), Fresh(depth).(fpos := 19), 0, QUOTED) == Step(WentBack(depth), 2, true)
  {
    hide ParseFrom, ParseCommand, Words, Clean, Resume, InRound, WentBack, Fresh;
    HeadWords();
    QuotedResume();
    RoundHead(depth);
    OnlyOffsets(depth);
    LineFromDo(depth);
    assert QUOTED[0..9] == "while \"a\"";
    ScanReaches<nat>(Oracle(OUTCOMES), Fresh(depth).(fpos := 19), 0, QUOTED, 0, "while \"a\"", 9, 0);
  }

  /** What is left of the line from the wrong place on. */
  lemma SecondLine(np: Np)
    requires InBounds(np) && !AwaitsDo(np) && np.lp[0].state == LoopNormal && np.Ie().state != ItefIf
    ensures var r := ParseLine<nat>(Oracle(OUTCOMES), np, 2, QUOTED[9..19]);
            !r.ok && r.env == 2 && r.np.fail
  {
    hide ParseFrom, ParseCommand, Words, Clean, Resume;
    var line := QUOTED[9..19];
    assert line == ";do b;done" && line[0..0] == "" && line[1..5] == "do b";
    BodyWords();
    QuotedResume();
    var np1 := np.(jump := false);
    NoWordsAtAll(np1);
    ScanReaches<nat>(Oracle(OUTCOMES), np1, 2, line, 0, "", 0, 0);
    ScanReaches<nat>(Oracle(OUTCOMES), np1.(loffs := 0), 2, line, 1, "do b", 5, 0);
    DoRefused(np1.(loffs := 1));
  }

  lemma NoWordsAtAll(np: Np)
    requires InBounds(np)
    ensures Words("", 0) == []
    ensures ParseCommand<nat>(Oracle(OUTCOMES), np.(loffs := 0), 2, []) == Step(np.(loffs := 0), 2, true)
  {
    PassesNothing(np.(loffs := 0));
  }

  /** The script means two rounds of which the second does not come about, and a normal end.  Reading the file, NSH
      goes back to the byte after the quotes, finds a `do` without a loop head there, and gives up. */
  lemma QuotedHeadFails(depth: nat)
    requires depth > 1
    ensures Eval<nat>(Oracle(OUTCOMES), ROUNDS, 0, false, false, 2) == Result(3, false, Normal)
    ensures var f := ReadLines<nat>(Oracle(OUTCOMES), QUOTED, Start(Fresh(depth), 0), 2);
            f.done && !f.ok && f.env == 2 && f.np.fail
  {
    hide ParseLine;
    var m := Start(Fresh(depth), 0);
    ReadsUpTo(QUOTED, 0, 19, LINELEN - 1);
    assert QUOTED[0..19] == QUOTED;
    FirstLine(depth);
    var m1 := ReadLine<nat>(Oracle(OUTCOMES), QUOTED, m);
    assert m1 == Machine(WentBack(depth), 2, true, false);
    ReadsUpTo(QUOTED, 9, 19, LINELEN - 1);
    SecondLine(m1.np.(foffs := 9, loffs := 0, fpos := 19));
  }
}
