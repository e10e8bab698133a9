/** The flat two-stack machine has the meaning of the structured script. */
module NshSimulation {
  import opened NshMachine
  import opened NshProgram
  import opened NshCommands

  /** The live parts of both stacks agree. */
  ghost predicate SameStacks(a: Np, b: Np) {
    && InBounds(a) && InBounds(b)
    && a.Depth() == b.Depth() && a.stream == b.stream
    && a.iendx == b.iendx && a.lpndx == b.lpndx
    && (forall i :: 0 <= i <= a.iendx ==> a.ie[i] == b.ie[i])
    && (forall i :: 0 <= i <= a.lpndx ==> a.lp[i] == b.lp[i])
  }

  /** As `SameStacks`, but the top loop has been broken out of. */
  ghost predicate BrokenStacks(a: Np, b: Np) {
    InBounds(a) && InBounds(b) && SameStacks(SetLoop(a, a.Lp().(enable := false)), b)
  }

  /** `code` stands in `cmds` at `pc`. */
  ghost predicate Holds(cmds: Script, pc: nat, code: Listing) {
    pc + |code| <= |cmds| && forall i :: 0 <= i < |code| ==> cmds[pc + i].words == code[i]
  }

  lemma HoldsConcat(cmds: Script, pc: nat, a: Listing, b: Listing)
    requires Holds(cmds, pc, a + b)
    ensures Holds(cmds, pc, a) && Holds(cmds, pc + |a|, b)
  {
    forall i | 0 <= i < |a| ensures cmds[pc + i].words == a[i] {
      assert (a + b)[i] == a[i];
    }
    forall i | 0 <= i < |b| ensures cmds[pc + |a| + i].words == b[i] {
      assert cmds[pc + (|a| + i)].words == (a + b)[|a| + i];
    }
  }

  lemma HoldsFirst(cmds: Script, pc: nat, x: seq<string>, rest: Listing)
    requires Holds(cmds, pc, [x] + rest)
    ensures pc < |cmds| && cmds[pc].words == x && Holds(cmds, pc + 1, rest)
  {
    HoldsConcat(cmds, pc, [x], rest);
    assert cmds[pc + 0].words == [x][0];
  }

  lemma HoldsPair(cmds: Script, pc: nat, x: seq<string>, y: seq<string>, rest: Listing)
    requires Holds(cmds, pc, [x, y] + rest)
    ensures pc + 1 < |cmds| && cmds[pc].words == x && cmds[pc + 1].words == y && Holds(cmds, pc + 2, rest)
  {
    assert [x, y] + rest == [x] + ([y] + rest);
    HoldsFirst(cmds, pc, x, [y] + rest);
    HoldsFirst(cmds, pc + 1, y, rest);
  }

  lemma HoldsLast(cmds: Script, pc: nat, a: Listing, x: seq<string>)
    requires Holds(cmds, pc, a + [x])
    ensures Holds(cmds, pc, a) && pc + |a| < |cmds| && cmds[pc + |a|].words == x
  {
    HoldsConcat(cmds, pc, a, [x]);
    assert cmds[pc + |a| + 0].words == [x][0];
  }

  /** The next command may be any statement. */
  ghost predicate Ready(np: Np) {
    InBounds(np) && np.stream && np.Ie().state != ItefIf && !AwaitsDo(np)
  }

  ghost predicate At<E>(m: Machine<E>, pc: nat) {
    !m.done && m.np.fpos == pc && Ready(m.np)
  }

  /** Between two machines nothing ran: same environment, same last status. */
  ghost predicate Quiet<E>(m: Machine<E>, m': Machine<E>) {
    m'.env == m.env && m'.np.fail == m.np.fail
  }

  /** `b` is `a` with one more live `if` slot. */
  ghost predicate PushedIf(a: Np, b: Np, slot: IfSlot) {
    && InBounds(a) && InBounds(b)
    && b.iendx == a.iendx + 1 && b.Ie() == slot
    && SameStacks(a, b.(iendx := a.iendx))
  }

  /** `b` is `a` with one more live loop slot. */
  ghost predicate PushedLoop(a: Np, b: Np, slot: LoopSlot) {
    && InBounds(a) && InBounds(b)
    && b.lpndx == a.lpndx + 1 && b.Lp() == slot
    && SameStacks(a, b.(lpndx := a.lpndx))
  }

  /** The command at `pc` was read and nothing failed. */
  ghost predicate Passed<E>(m: Machine<E>, pc: nat) {
    InBounds(m.np) && !m.done && m.ok && m.np.fpos == pc + 1
  }

  // ----- single commands -----

  lemma PlainSkipped<E>(run: Behaviour<E>, cmds: Script, m: Machine<E>, pc: nat)
    requires At(m, pc) && pc < |cmds| && !CmdEnabled(m.np)
    requires KeywordOf(cmds[pc].words) == Other || KeywordOf(cmds[pc].words) == KwBreak
    ensures var m' := Advance(run, cmds, m);
            Passed(m', pc) && SameStacks(m.np, m'.np) && Quiet(m, m')
  {}

  lemma PlainRun<E>(run: Behaviour<E>, cmds: Script, m: Machine<E>, pc: nat)
    requires At(m, pc) && pc < |cmds| && CmdEnabled(m.np) && Plain(cmds[pc].words)
    ensures var m' := Advance(run, cmds, m);
            var (env', failed) := run(m.env, m.np.fail, Argv(cmds[pc].words));
            && m'.env == env' && m'.np.fail == failed
            && SameStacks(m.np, m'.np)
            && (if failed then m'.done && !m'.ok else Passed(m', pc))
  {
    hide LoopStep, ItefStep, Argv;
    ArgvWord(cmds[pc].words);
    var np := m.np.(foffs := pc, loffs := 0, fpos := pc + 1, jump := false);
    PassesLoop(np, cmds[pc].words);
    PassesItef(np, cmds[pc].words);
  }

  /** The words that are dropped are not the first. */
  lemma ArgvWord(words: seq<string>)
    ensures KeywordOf(Argv(words)) == KeywordOf(words)
    ensures words != [] || KeywordOf(words) == Other ==> words != [] && Argv(words) != []
  {}

  lemma BreakRun<E>(run: Behaviour<E>, cmds: Script, m: Machine<E>, pc: nat)
    requires At(m, pc) && pc < |cmds| && CmdEnabled(m.np) && cmds[pc].words == ["break"]
    requires m.np.Lp().state == LoopDo ==> m.np.Lp().iendx == m.np.iendx
    ensures var m' := Advance(run, cmds, m);
            && Passed(m', pc) && m'.env == m.env && !m'.np.fail
            && (if m.np.Lp().state == LoopDo then BrokenStacks(m.np, m'.np) else SameStacks(m.np, m'.np))
  {
    hide LoopStep, ItefStep, KeywordOf;
    BreakWord();
    var np := m.np.(foffs := pc, loffs := 0, fpos := pc + 1, jump := false);
    PassesLoop(np, ["break"]);
    PassesItef(np, ["break"]);
  }

  /** A `break` with arguments is refused: it ends the script with an error and changes nothing else. */
  lemma BreakRefused<E>(run: Behaviour<E>, np: Np, env: E, words: seq<string>)
    requires InBounds(np) && CmdEnabled(np) && !AwaitsDo(np) && np.Ie().state != ItefIf
    requires |words| > 1 && words[0] == "break"
    ensures ParseCommand(run, np, env, words) == Step(np.(fail := true), env, false)
  {
    hide LoopStep, ItefStep;
    PassesLoop(np, words);
    PassesItef(np, words);
  }

  /** The `if` slot of a script that is outside every `if`. */
  const BASE := IfSlot(ItefNormal, false, false)

  /** `b` is `a` with the top loop broken out of and every `if` dropped. */
  ghost predicate Dropped(a: Np, b: Np) {
    && InBounds(a) && InBounds(b)
    && a.Depth() == b.Depth() && a.stream == b.stream
    && b.iendx == 0 && b.ie[0] == BASE && a.lpndx == b.lpndx
    && (forall i :: 0 <= i < a.lpndx ==> a.lp[i] == b.lp[i])
    && b.Lp() == a.Lp().(enable := false) && b.Lp().state == LoopDo
  }

  /** An enabled `break` inside an `if`, in a loop outside every `if`. */
  lemma BreakDrops<E>(run: Behaviour<E>, cmds: Script, m: Machine<E>, pc: nat)
    requires At(m, pc) && pc < |cmds| && CmdEnabled(m.np) && cmds[pc].words == ["break"]
    requires m.np.Lp().state == LoopDo && m.np.Lp().iendx == 0 && m.np.ie[0] == BASE
    ensures var m' := Advance(run, cmds, m);
            Passed(m', pc) && At(m', pc + 1) && m'.env == m.env && !m'.np.fail && Dropped(m.np, m'.np)
  {
    hide LoopStep, ItefStep, KeywordOf;
    BreakWord();
    var np := m.np.(foffs := pc, loffs := 0, fpos := pc + 1, jump := false);
    PassesLoop(np, ["break"]);
    PassesItef(np, ["break"]);
  }

  /** An `else` or `fi` outside every `if` ends the script with an error. */
  lemma StrayWord<E>(run: Behaviour<E>, cmds: Script, m: Machine<E>, pc: nat)
    requires !m.done && InBounds(m.np) && m.np.fpos == pc && pc < |cmds|
    requires cmds[pc].words == ["fi"] || cmds[pc].words == ["else"]
    requires m.np.Ie().state == ItefNormal && !AwaitsDo(m.np)
    ensures var m' := Advance(run, cmds, m);
            && m'.done && !m'.ok && m'.env == m.env && m'.np.fail
            && m'.np.iendx == 0 && m'.np.ie == m.np.ie[0 := BASE] && m'.np.lp == m.np.lp && m'.np.lpndx == m.np.lpndx
  {
    hide LoopStep, Execute, PushItef, SetItef, CmdEnabled, Argv;
    PassesLoop(m.np.(foffs := pc, loffs := 0, fpos := pc + 1, jump := false), cmds[pc].words);
  }

  lemma BreakWord()
    ensures KeywordOf(["break"]) == KwBreak && Argv(["break"]) == ["break"]
  {}

  lemma IfHead<E>(run: Behaviour<E>, cmds: Script, m: Machine<E>, pc: nat, cond: seq<string>)
    requires At(m, pc) && pc < |cmds| && Plain(cond) && cmds[pc].words == ["if"] + cond
    requires m.np.iendx + 1 < m.np.Depth()
    ensures var m' := Advance(run, cmds, m);
            && Passed(m', pc)
            && (CmdEnabled(m.np) ==>
                  var (env', failed) := run(m.env, m.np.fail, Argv(cond));
                  && m'.env == env' && !m'.np.fail
                  && PushedIf(m.np, m'.np, IfSlot(ItefIf, false, failed)))
            && (!CmdEnabled(m.np) ==>
                  Quiet(m, m') && PushedIf(m.np, m'.np, IfSlot(ItefIf, true, false)))
  {
    hide Advance;
    if CmdEnabled(m.np) {
      IfHeadRun(run, cmds, m, pc, cond);
    } else {
      IfHeadSkipped(run, cmds, m, pc, cond);
    }
  }

  lemma IfHeadRun<E>(run: Behaviour<E>, cmds: Script, m: Machine<E>, pc: nat, cond: seq<string>)
    requires At(m, pc) && pc < |cmds| && Plain(cond) && cmds[pc].words == ["if"] + cond
    requires m.np.iendx + 1 < m.np.Depth() && CmdEnabled(m.np)
    ensures var m' := Advance(run, cmds, m);
            var (env', failed) := run(m.env, m.np.fail, Argv(cond));
            Passed(m', pc) && m'.env == env' && !m'.np.fail && PushedIf(m.np, m'.np, IfSlot(ItefIf, false, failed))
  {
    hide LoopStep, ResetItef, CmdBreak, KeywordOf, Argv, SaveResult, CmdEnabled, PushItef, PushedIf;
    IfWord(cond);
    ArgvWord(cond);
    var np := m.np.(foffs := pc, loffs := 0, fpos := pc + 1, jump := false);
    PassesLoop(np, ["if"] + cond);
    IfSaved(m.np, pc, run(m.env, m.np.fail, Argv(cond)).1);
    assert (["if"] + cond)[1..] == cond;
  }

  /** The pushed slot remembers the outcome of the condition. */
  lemma IfSaved(np: Np, pc: nat, failed: bool)
    requires InBounds(np) && !AwaitsDo(np) && np.iendx + 1 < np.Depth() && CmdEnabled(np)
    ensures var pushed := PushItef(np.(foffs := pc, loffs := 0, fpos := pc + 1, jump := false));
            && InBounds(pushed) && CmdEnabled(pushed) && ResultOk(pushed, failed) && pushed.fail == np.fail
            && !SaveResult(pushed, failed).fail && SaveResult(pushed, failed).fpos == pc + 1
            && PushedIf(np, SaveResult(pushed, failed), IfSlot(ItefIf, false, failed))
  {}

  lemma IfWord(cond: seq<string>)
    ensures KeywordOf(["if"] + cond) == KwIf
  {}

  lemma IfHeadSkipped<E>(run: Behaviour<E>, cmds: Script, m: Machine<E>, pc: nat, cond: seq<string>)
    requires At(m, pc) && pc < |cmds| && Plain(cond) && cmds[pc].words == ["if"] + cond
    requires m.np.iendx + 1 < m.np.Depth() && !CmdEnabled(m.np)
    ensures var m' := Advance(run, cmds, m);
            Passed(m', pc) && Quiet(m, m') && PushedIf(m.np, m'.np, IfSlot(ItefIf, true, false))
  {
    hide LoopStep, ResetItef, CmdBreak, Execute;
    var np := m.np.(foffs := pc, loffs := 0, fpos := pc + 1, jump := false);
    PassesLoop(np, ["if"] + cond);
    assert (["if"] + cond)[1..] == cond;
  }

  lemma ThenWord<E>(run: Behaviour<E>, cmds: Script, m: Machine<E>, pc: nat, np0: Np, slot: IfSlot)
    requires !m.done && m.np.fpos == pc && pc < |cmds| && cmds[pc].words == ["then"]
    requires Ready(np0) && PushedIf(np0, m.np, slot) && slot.state == ItefIf
    ensures var m' := Advance(run, cmds, m);
            Passed(m', pc) && Quiet(m, m') && PushedIf(np0, m'.np, slot.(state := ItefThen))
  {
    hide Execute, Finish, ResetLoop, ResetItef, PushLoop, PopLoop, SetLoop, PushItef;
  }

  lemma ElseWord<E>(run: Behaviour<E>, cmds: Script, m: Machine<E>, pc: nat, np0: Np, slot: IfSlot)
    requires !m.done && m.np.fpos == pc && pc < |cmds| && cmds[pc].words == ["else"]
    requires Ready(np0) && PushedIf(np0, m.np, slot) && slot.state == ItefThen
    ensures var m' := Advance(run, cmds, m);
            Passed(m', pc) && Quiet(m, m') && PushedIf(np0, m'.np, slot.(state := ItefElse))
  {
    hide Execute, Finish, ResetLoop, ResetItef, PushLoop, PopLoop, SetLoop, PushItef;
  }

  lemma FiWord<E>(run: Behaviour<E>, cmds: Script, m: Machine<E>, pc: nat, np0: Np, slot: IfSlot)
    requires !m.done && m.np.fpos == pc && pc < |cmds| && cmds[pc].words == ["fi"]
    requires Ready(np0) && PushedIf(np0, m.np, slot) && (slot.state == ItefThen || slot.state == ItefElse)
    ensures var m' := Advance(run, cmds, m);
            Passed(m', pc) && Quiet(m, m') && SameStacks(np0, m'.np)
  {
    hide Execute, Finish, ResetLoop, ResetItef, PushLoop, PopLoop, SetLoop, PushItef;
  }

  /** The slot a loop head leaves: enabled if its test asks for another round. */
  function LoopHeadSlot(until: bool, enable: bool, iendx: nat, top: int): LoopSlot {
    LoopSlot(if until then LoopUntil else LoopWhile, enable, iendx, top)
  }

  lemma HeadPushes(np: Np, until: bool, test: seq<string>)
    requires Ready(np) && np.foffs >= 0 && np.lpndx + 1 < np.Depth() && test != []
    ensures LoopStep(np, [LoopWord(until)] + test)
            == Proceed(PushLoop(np, if until then LoopUntil else LoopWhile), test)
  {
    assert ([LoopWord(until)] + test)[1..] == test;
  }

  /** The pushed slot; it is enabled by what is around it. */
  lemma HeadPushed(np: Np, pc: nat, until: bool)
    requires InBounds(np) && np.lpndx + 1 < np.Depth()
    ensures var pushed := PushLoop(np.(foffs := pc, loffs := 0, fpos := pc + 1, jump := false),
                                   if until then LoopUntil else LoopWhile);
            && InBounds(pushed) && AwaitsDo(pushed) && pushed.fail == np.fail && pushed.fpos == pc + 1
            && (CmdEnabled(pushed) <==> ItefEnabled(np))
            && PushedLoop(np, pushed, LoopHeadSlot(until, CmdEnabled(np), np.iendx, pc))
            && (!ItefEnabled(np) ==> !CmdEnabled(np))
  {}

  /** The test decides. */
  lemma HeadSaved(np: Np, pc: nat, until: bool, failed: bool)
    requires InBounds(np) && np.lpndx + 1 < np.Depth()
    ensures var pushed := PushLoop(np.(foffs := pc, loffs := 0, fpos := pc + 1, jump := false),
                                   if until then LoopUntil else LoopWhile);
            && InBounds(pushed) && !SaveResult(pushed, failed).fail && SaveResult(pushed, failed).fpos == pc + 1
            && !SaveResult(pushed, failed).jump
            && PushedLoop(np, SaveResult(pushed, failed), LoopHeadSlot(until, failed == until, np.iendx, pc))
  {}

  /** A loop head is run in a loop that is over just as in one that is not: only the `if` level counts. */
  lemma LoopHead<E>(run: Behaviour<E>, cmds: Script, m: Machine<E>, pc: nat, until: bool, test: seq<string>)
    requires At(m, pc) && pc < |cmds| && Plain(test) && cmds[pc].words == [LoopWord(until)] + test
    requires m.np.lpndx + 1 < m.np.Depth()
    ensures var m' := Advance(run, cmds, m);
            && Passed(m', pc)
            && (ItefEnabled(m.np) ==>
                  var (env', failed) := run(m.env, m.np.fail, Argv(test));
                  && m'.env == env' && !m'.np.fail
                  && PushedLoop(m.np, m'.np, LoopHeadSlot(until, failed == until, m.np.iendx, pc)))
            && (!ItefEnabled(m.np) ==>
                  Quiet(m, m') && PushedLoop(m.np, m'.np, LoopHeadSlot(until, false, m.np.iendx, pc)))
  {
    hide LoopStep, ItefStep, CmdBreak, Argv, LoopWord, SaveResult, CmdEnabled, ItefEnabled;
    ArgvWord(test);
    var np := m.np.(foffs := pc, loffs := 0, fpos := pc + 1, jump := false);
    HeadPushes(np, until, test);
    HeadPushed(m.np, pc, until);
    HeadSaved(m.np, pc, until, run(m.env, m.np.fail, Argv(test)).1);
    PassesItef(PushLoop(np, if until then LoopUntil else LoopWhile), test);
  }

  lemma DoWord<E>(run: Behaviour<E>, cmds: Script, m: Machine<E>, pc: nat, np0: Np, until: bool, slot: LoopSlot)
    requires !m.done && m.np.fpos == pc && pc < |cmds| && cmds[pc].words == ["do"]
    requires Ready(np0) && PushedLoop(np0, m.np, slot)
    requires slot == LoopHeadSlot(until, slot.enable, slot.iendx, slot.topoffs)
    ensures var m' := Advance(run, cmds, m);
            Passed(m', pc) && Quiet(m, m') && PushedLoop(np0, m'.np, slot.(state := LoopDo))
  {
    hide Execute, Finish, ResetLoop, ResetItef, PushLoop, PopLoop, PushItef;
  }

  lemma DoneWord<E>(run: Behaviour<E>, cmds: Script, m: Machine<E>, pc: nat, np0: Np, slot: LoopSlot)
    requires !m.done && m.np.fpos == pc && pc < |cmds| && cmds[pc].words == ["done"]
    requires Ready(np0) && PushedLoop(np0, m.np, slot) && slot.state == LoopDo
    ensures var m' := Advance(run, cmds, m);
            && !m'.done && m'.ok && Quiet(m, m') && SameStacks(np0, m'.np)
            && m'.np.fpos == (if slot.enable then slot.topoffs else pc + 1)
  {}

  // ----- keeping stacks -----

  lemma SameTrans(a: Np, b: Np, c: Np)
    requires SameStacks(a, b) && SameStacks(b, c)
    ensures SameStacks(a, c)
  {}

  lemma PushedIfSame(a: Np, b: Np, c: Np, slot: IfSlot)
    requires PushedIf(a, b, slot) && SameStacks(b, c)
    ensures PushedIf(a, c, slot)
  {}

  lemma PushedLoopSame(a: Np, b: Np, c: Np, slot: LoopSlot)
    requires PushedLoop(a, b, slot)
    ensures SameStacks(b, c) ==> PushedLoop(a, c, slot)
    ensures BrokenStacks(b, c) ==> PushedLoop(a, c, slot.(enable := false))
  {}

  // ----- skipping -----

  /** Running `n` commands from `m` executes nothing, moves on by `n` and restores both stacks. */
  ghost predicate Skips<E>(run: Behaviour<E>, cmds: Script, m: Machine<E>, pc: nat, n: nat)
    requires InBounds(m.np)
  {
    var m' := Iterate(run, cmds, m, n);
    At(m', pc + n) && SameStacks(m.np, m'.np) && Quiet(m, m') && (n > 0 ==> m'.ok)
  }

  ghost predicate HasRoom(np: Np, b: Block) {
    Fits(b, np.Depth() - 1 - np.iendx, np.Depth() - 1 - np.lpndx)
  }

  /** A block in an untaken branch is skipped whole, whatever it nests: nothing runs, and `fail` and both
      stacks are as before. */
  lemma {:induction false} SkipBlock<E>(run: Behaviour<E>, cmds: Script, m: Machine<E>, pc: nat, b: Block)
    requires At(m, pc) && Holds(cmds, pc, Code(b)) && HasRoom(m.np, b)
    requires !ItefEnabled(m.np)
    ensures Skips(run, cmds, m, pc, |Code(b)|)
    decreases b
  {
    hide Advance;
    if b.Seq? {
      HoldsConcat(cmds, pc, StmtCode(b.head), Code(b.tail));
      SkipStmt(run, cmds, m, pc, b.head);
      var n := |StmtCode(b.head)|;
      var m1 := Iterate(run, cmds, m, n);
      SkipBlock(run, cmds, m1, pc + n, b.tail);
      Chain(run, cmds, m, n, m1, |Code(b.tail)|, Iterate(run, cmds, m1, |Code(b.tail)|));
    }
  }

  lemma {:induction false} SkipStmt<E>(run: Behaviour<E>, cmds: Script, m: Machine<E>, pc: nat, s: Stmt)
    requires At(m, pc) && Holds(cmds, pc, StmtCode(s))
    requires StmtFits(s, m.np.Depth() - 1 - m.np.iendx, m.np.Depth() - 1 - m.np.lpndx)
    requires !CmdEnabled(m.np) && (ItefEnabled(m.np) ==> !s.Loop?)
    ensures Skips(run, cmds, m, pc, |StmtCode(s)|)
    decreases s, 1
  {
    hide Advance, Iterate;
    match s
    case Run(words) =>
      HoldsFirst(cmds, pc, words, []);
      PlainSkipped(run, cmds, m, pc);
      Once(run, cmds, m);
    case Break =>
      HoldsFirst(cmds, pc, ["break"], []);
      PlainSkipped(run, cmds, m, pc);
      Once(run, cmds, m);
    case If(_, _, _) =>
      SkipIf(run, cmds, m, pc, s);
    case Loop(_, _, _) =>
      SkipLoop(run, cmds, m, pc, s);
  }

  lemma {:induction false} SkipIf<E>(run: Behaviour<E>, cmds: Script, m: Machine<E>, pc: nat, s: Stmt)
    requires At(m, pc) && Holds(cmds, pc, StmtCode(s)) && s.If?
    requires StmtFits(s, m.np.Depth() - 1 - m.np.iendx, m.np.Depth() - 1 - m.np.lpndx)
    requires !CmdEnabled(m.np)
    ensures Skips(run, cmds, m, pc, |StmtCode(s)|)
    decreases s, 0
  {
    hide Advance, Iterate;
    var If(cond, thn, els) := s;
    var slot := IfSlot(ItefIf, true, false);
    HoldsPair(cmds, pc, ["if"] + cond, ["then"], Code(thn) + ElseCode(els));
    HoldsConcat(cmds, pc + 2, Code(thn), ElseCode(els));
    IfHead(run, cmds, m, pc, cond);
    var m1 := Advance(run, cmds, m);
    ThenWord(run, cmds, m1, pc + 1, m.np, slot);
    var m2 := Advance(run, cmds, m1);
    Twice(run, cmds, m, m1, m2);
    SkipBlock(run, cmds, m2, pc + 2, thn);
    var n := |Code(thn)|;
    var m3 := Iterate(run, cmds, m2, n);
    PushedIfSame(m.np, m2.np, m3.np, slot.(state := ItefThen));
    SkipElse(run, cmds, m3, pc + 2 + n, els, m.np, slot.(state := ItefThen));
    var m4 := Iterate(run, cmds, m3, |ElseCode(els)|);
    Chain(run, cmds, m, 2, m2, n, m3);
    Chain(run, cmds, m, 2 + n, m3, |ElseCode(els)|, m4);
  }

  lemma {:induction false} SkipLoop<E>(run: Behaviour<E>, cmds: Script, m: Machine<E>, pc: nat, s: Stmt)
    requires At(m, pc) && Holds(cmds, pc, StmtCode(s)) && s.Loop?
    requires StmtFits(s, m.np.Depth() - 1 - m.np.iendx, m.np.Depth() - 1 - m.np.lpndx)
    requires !ItefEnabled(m.np)
    ensures Skips(run, cmds, m, pc, |StmtCode(s)|)
    decreases s, 0
  {
    hide Advance, Iterate;
    var Loop(until, test, body) := s;
    var slot := LoopHeadSlot(until, false, m.np.iendx, pc);
    HoldsPair(cmds, pc, [LoopWord(until)] + test, ["do"], Code(body) + [["done"]]);
    HoldsLast(cmds, pc + 2, Code(body), ["done"]);
    LoopHead(run, cmds, m, pc, until, test);
    var m1 := Advance(run, cmds, m);
    DoWord(run, cmds, m1, pc + 1, m.np, until, slot);
    var m2 := Advance(run, cmds, m1);
    Twice(run, cmds, m, m1, m2);
    SkipBlock(run, cmds, m2, pc + 2, body);
    var n := |Code(body)|;
    var m3 := Iterate(run, cmds, m2, n);
    PushedLoopSame(m.np, m2.np, m3.np, slot.(state := LoopDo));
    DoneWord(run, cmds, m3, pc + 2 + n, m.np, slot.(state := LoopDo));
    Once(run, cmds, m3);
    Chain(run, cmds, m, 2, m2, n, m3);
    Chain(run, cmds, m, 2 + n, m3, 1, Advance(run, cmds, m3));
  }

  /** Skip the rest of an `if` from the end of its then-part on.  `np0` is the state before the `if`. */
  lemma {:induction false} SkipElse<E>(
    run: Behaviour<E>, cmds: Script, m: Machine<E>, pc: nat, e: Else, np0: Np, slot: IfSlot)
    requires At(m, pc) && Holds(cmds, pc, ElseCode(e))
    requires Ready(np0) && PushedIf(np0, m.np, slot) && slot.state == ItefThen
    requires slot.disabled || !slot.ifcond
    requires e.Else? ==> HasRoom(m.np, e.block)
    ensures var m' := Iterate(run, cmds, m, |ElseCode(e)|);
            At(m', pc + |ElseCode(e)|) && SameStacks(np0, m'.np) && Quiet(m, m') && m'.ok
    decreases e
  {
    hide Advance;
    match e
    case NoElse =>
      assert ElseCode(e) == [["fi"]] + [];
      HoldsFirst(cmds, pc, ["fi"], []);
      FiWord(run, cmds, m, pc, np0, slot);
      Once(run, cmds, m);
    case Else(b) =>
      assert ElseCode(e) == [["else"]] + (Code(b) + [["fi"]]);
      HoldsFirst(cmds, pc, ["else"], Code(b) + [["fi"]]);
      HoldsLast(cmds, pc + 1, Code(b), ["fi"]);
      ElseWord(run, cmds, m, pc, np0, slot);
      Once(run, cmds, m);
      var m1 := Advance(run, cmds, m);
      SkipBlock(run, cmds, m1, pc + 1, b);
      var n := |Code(b)|;
      var m2 := Iterate(run, cmds, m1, n);
      PushedIfSame(np0, m1.np, m2.np, slot.(state := ItefElse));
      FiWord(run, cmds, m2, pc + 1 + n, np0, slot.(state := ItefElse));
      Once(run, cmds, m2);
      Chain(run, cmds, m, 1, m1, n, m2);
      Chain(run, cmds, m, 1 + n, m2, 1, Advance(run, cmds, m2));
  }

  /** The rest of a block in which nothing is enabled, for want of its loop, and no loop stands bare. */
  lemma {:induction false} SkipRest<E>(run: Behaviour<E>, cmds: Script, m: Machine<E>, pc: nat, b: Block)
    requires At(m, pc) && Holds(cmds, pc, Code(b)) && HasRoom(m.np, b)
    requires !CmdEnabled(m.np) && NoBareLoop(b)
    ensures Skips(run, cmds, m, pc, |Code(b)|)
    decreases b
  {
    hide Advance, Iterate, StmtCode, Holds;
    Never(run, cmds, m);
    if b.Seq? {
      HoldsConcat(cmds, pc, StmtCode(b.head), Code(b.tail));
      SkipStmt(run, cmds, m, pc, b.head);
      var n := |StmtCode(b.head)|;
      var m1 := Iterate(run, cmds, m, n);
      SkipRest(run, cmds, m1, pc + n, b.tail);
      Chain(run, cmds, m, n, m1, |Code(b.tail)|, Iterate(run, cmds, m1, |Code(b.tail)|));
    }
  }

  // ----- running -----

  /** The live slots of `a` are at the bottom of `b`, up to the enable flag of its loops. */
  ghost predicate Extends(a: Np, b: Np) {
    && InBounds(a) && InBounds(b)
    && a.Depth() == b.Depth() && a.iendx <= b.iendx && a.lpndx <= b.lpndx
    && (forall i :: 0 <= i <= a.iendx ==> a.ie[i] == b.ie[i])
    && (forall i :: 0 <= i <= a.lpndx ==> a.lp[i] == b.lp[i].(enable := a.lp[i].enable))
  }

  /** As `Extends`, but every `if` has been dropped. */
  ghost predicate Fallen(a: Np, b: Np) {
    && InBounds(a) && InBounds(b)
    && a.Depth() == b.Depth() && a.lpndx <= b.lpndx
    && b.iendx == 0 && a.ie[0] == b.ie[0] == BASE
    && (forall i :: 0 <= i <= a.lpndx ==> a.lp[i] == b.lp[i].(enable := a.lp[i].enable))
  }

  /** After `k` commands the machine `m` has done what `r` says and stands at `pc`, with the stacks of `np0`.  `free`
      says that a `break` may drop `if`s. */
  ghost predicate Matches<E>(
    run: Behaviour<E>, cmds: Script, np0: Np, m: Machine<E>, pc: nat, r: Result<E>, fuel: nat, free: bool, k: nat)
    requires InBounds(m.np)
  {
    var m' := Iterate(run, cmds, m, k);
    match r.out
    case Normal =>
      && At(m', pc) && SameStacks(np0, m'.np) && (k > 0 ==> m'.ok)
      && m'.env == r.env && m'.np.fail == r.fail
    case Broke =>
      && At(m', pc) && BrokenStacks(np0, m'.np) && m'.ok
      && m'.env == r.env && m'.np.fail == r.fail
    case Lost =>
      && free && At(m', pc) && Dropped(np0, m'.np) && m'.ok
      && m'.env == r.env && m'.np.fail == r.fail
    case Failed =>
      && m'.done && !m'.ok && (Extends(np0, m'.np) || (free && Fallen(np0, m'.np)))
      && m'.env == r.env && m'.np.fail == r.fail
    case Timeout =>
      !m'.done && k >= fuel
  }

  /** Prefix a run with `j` commands that leave at most new slots on the stacks. */
  lemma Later<E>(
    run: Behaviour<E>, cmds: Script, np0: Np, m: Machine<E>, j: nat, m1: Machine<E>, np1: Np,
    pc: nat, r: Result<E>, fuel: nat, free: bool, k: nat)
    requires InBounds(m.np) && InBounds(m1.np) && Iterate(run, cmds, m, j) == m1 && m1.ok
    requires Matches(run, cmds, np1, m1, pc, r, fuel, free, k)
    requires SameStacks(np0, np1) || (Extends(np0, np1) && (r.out == Failed || r.out == Timeout))
    ensures Matches(run, cmds, np0, m, pc, r, fuel, free, j + k)
  {
    hide Advance, Iterate, SameStacks, BrokenStacks, Dropped, Extends, Fallen;
    var m2 := Iterate(run, cmds, m1, k);
    Chain(run, cmds, m, j, m1, k, m2);
    Never(run, cmds, m1);
    StacksTrans(np0, np1, m2.np);
    DropsTrans(np0, np1, m2.np);
  }

  lemma StacksTrans(a: Np, b: Np, c: Np)
    ensures SameStacks(a, b) && SameStacks(b, c) ==> SameStacks(a, c)
    ensures SameStacks(a, b) && BrokenStacks(b, c) ==> BrokenStacks(a, c)
    ensures SameStacks(a, b) ==> Extends(a, b)
    ensures Extends(a, b) && Extends(b, c) ==> Extends(a, c)
    ensures SameStacks(a, b) && Extends(b, c) ==> Extends(a, c)
  {}

  lemma DropsTrans(a: Np, b: Np, c: Np)
    ensures SameStacks(a, b) && Dropped(b, c) ==> Dropped(a, c)
    ensures Dropped(a, b) && SameStacks(b, c) ==> Dropped(a, c)
    ensures (SameStacks(a, b) || Extends(a, b)) && Fallen(b, c) ==> Fallen(a, c)
  {}

  // ----- what the machine can handle -----

  /** Where the machine is known to be: in or out of a loop, and at the `if` level of that loop or not.  Either every
      `break` is direct, or loops stand outside every `if`. */
  ghost predicate Placed(np: Np, inLoop: bool, direct: bool, free: bool) {
    && InBounds(np)
    && (inLoop <==> np.Lp().state == LoopDo)
    && (direct ==> inLoop && np.Lp().iendx == np.iendx)
    && (free ==> np.ie[0] == BASE && (inLoop ==> np.Lp().iendx == 0 && (direct <==> np.iendx == 0)))
  }

  ghost predicate Context(np: Np, b: Block, inLoop: bool, direct: bool, free: bool) {
    && Placed(np, inLoop, direct, free) && HasRoom(np, b)
    && (if free then LoopsOutside(b, np.iendx > 0) else DirectBreaks(b, inLoop, direct))
  }

  ghost predicate StmtContext(np: Np, s: Stmt, inLoop: bool, direct: bool, free: bool) {
    && Placed(np, inLoop, direct, free)
    && StmtFits(s, np.Depth() - 1 - np.iendx, np.Depth() - 1 - np.lpndx)
    && (if free then StmtLoopsOutside(s, np.iendx > 0) else StmtDirectBreaks(s, inLoop, direct))
  }

  /** A loop, wherever it stands. */
  ghost predicate LoopContext(np: Np, s: Stmt, free: bool) {
    && InBounds(np) && s.Loop? && StmtFits(s, np.Depth() - 1 - np.iendx, np.Depth() - 1 - np.lpndx)
    && (if free then np.iendx == 0 && np.ie[0] == BASE && StmtLoopsOutside(s, false)
        else StmtDirectBreaks(s, true, true))
  }

  /** A part of a loop body that is jumped over. */
  ghost predicate ResidueContext(np: Np, b: Block, free: bool) {
    && InBounds(np) && HasRoom(np, b)
    && (if free then np.iendx == 0 && np.ie[0] == BASE && LoopsOutside(b, false) else DirectResidue(b))
  }

  lemma ContextSame(a: Np, a': Np, b: Block, inLoop: bool, direct: bool, free: bool)
    requires Context(a, b, inLoop, direct, free) && SameStacks(a, a') && CmdEnabled(a)
    ensures Context(a', b, inLoop, direct, free) && CmdEnabled(a')
  {}

  /** What is left of a body after a `break` in it. */
  lemma AfterBreakContext(a: Np, a': Np, s: Stmt, b: Block, free: bool)
    requires Context(a, Seq(s, b), true, true, free) && s.Break? && BrokenStacks(a, a') && CmdEnabled(a)
    ensures ResidueContext(a', b, free) && ItefEnabled(a') && a'.Lp().state == LoopDo && !a'.Lp().enable
  {}

  /** A whole body. */
  lemma BodyContext(a: Np, a': Np, s: Stmt, slot: LoopSlot, free: bool)
    requires LoopContext(a, s, free) && PushedLoop(a, a', slot) && slot.state == LoopDo && slot.iendx == a.iendx
    ensures Context(a', s.body, true, true, free) && ResidueContext(a', s.body, free)
  {
    if !free {
      DirectBodyResidue(s.body);
    }
  }

  /** The branches of an `if`, seen from inside it. */
  lemma BranchContext(a: Np, a': Np, s: Stmt, inLoop: bool, direct: bool, slot: IfSlot, free: bool)
    requires s.If? && StmtContext(a, s, inLoop, direct, free) && PushedIf(a, a', slot)
    ensures Context(a', s.thn, inLoop, false, free)
    ensures s.els.Else? ==> Context(a', s.els.block, inLoop, false, free)
  {}

  lemma {:induction false} FitsMore(b: Block, ifRoom: int, more: int, loopRoom: int)
    requires Fits(b, ifRoom, loopRoom) && ifRoom <= more
    ensures Fits(b, more, loopRoom)
    decreases b
  {
    if b.Seq? {
      match b.head
      case Run(_) =>
      case Break =>
      case If(_, thn, els) =>
        FitsMore(thn, ifRoom - 1, more - 1, loopRoom);
        if els.Else? {
          FitsMore(els.block, ifRoom - 1, more - 1, loopRoom);
        }
      case Loop(_, _, body) =>
        FitsMore(body, ifRoom, more, loopRoom - 1);
    }
    if b.Seq? {
      FitsMore(b.tail, ifRoom, more, loopRoom);
    }
  }

  lemma {:induction false} NoLoopInIf(b: Block)
    requires LoopsOutside(b, true)
    ensures NoBareLoop(b)
    decreases b
  {
    if b.Seq? {
      NoLoopInIf(b.tail);
    }
  }

  /** After a `break` that dropped its `if`s, the rest of the branch can be skipped. */
  lemma LostContext(a: Np, a': Np, b: Block)
    requires Context(a, b, true, false, true) && Dropped(a, a')
    ensures HasRoom(a', b) && NoBareLoop(b) && !CmdEnabled(a')
  {
    FitsMore(b, a.Depth() - 1 - a.iendx, a'.Depth() - 1 - a'.iendx, a.Depth() - 1 - a.lpndx);
    NoLoopInIf(b);
  }

  lemma SameReflexive(a: Np)
    requires InBounds(a)
    ensures SameStacks(a, a)
  {}

  /** The simulation: an enabled block does what `Act` says. */
  lemma {:induction false} RunBlock<E>(
    run: Behaviour<E>, cmds: Script, m: Machine<E>, pc: nat, b: Block, inLoop: bool, direct: bool, free: bool,
    fuel: nat)
    returns (k: nat)
    requires At(m, pc) && Holds(cmds, pc, Code(b)) && CmdEnabled(m.np) && Context(m.np, b, inLoop, direct, free)
    ensures var r := Act(run, b, m.env, m.np.fail, inLoop, direct, fuel);
            Matches(run, cmds, m.np, m, pc + |Code(b)|, r, fuel, free, k)
    ensures b == End ==> k == 0
    decreases fuel, b, 0
  {
    hide Advance, Iterate, Holds, Context, StmtContext, ActStmt, SameStacks, CmdEnabled;
    match b
    case End =>
      Never(run, cmds, m);
      SameReflexive(m.np);
      k := 0;
    case Seq(s, rest) =>
      HoldsConcat(cmds, pc, StmtCode(s), Code(rest));
      HeadContext(m.np, s, rest, inLoop, direct, free);
      var j := RunStmt(run, cmds, m, pc, s, inLoop, direct, free, fuel);
      k := RunRest(run, cmds, m, pc + |StmtCode(s)|, s, rest, inLoop, direct, free, fuel, j);
  }

  /** The rest of a block, after `j` commands for its first statement. */
  lemma {:induction false} RunRest<E>(
    run: Behaviour<E>, cmds: Script, m: Machine<E>, pc: nat, s: Stmt, rest: Block, inLoop: bool, direct: bool,
    free: bool, fuel: nat, j: nat)
    returns (k: nat)
    requires InBounds(m.np) && CmdEnabled(m.np) && Context(m.np, Seq(s, rest), inLoop, direct, free)
    requires Matches(run, cmds, m.np, m, pc, ActStmt(run, s, m.env, m.np.fail, inLoop, direct, fuel), fuel, free, j)
    requires Holds(cmds, pc, Code(rest)) && m.np.fpos != pc
    ensures Matches(run, cmds, m.np, m, pc + |Code(rest)|,
                    Act(run, Seq(s, rest), m.env, m.np.fail, inLoop, direct, fuel), fuel, free, k)
    decreases fuel, rest, 1
  {
    hide Advance, Iterate, SameStacks, BrokenStacks, Dropped, Extends, Fallen, Holds, Context, Placed;
    hide ActStmt, Residue, CmdEnabled, ResidueContext, Code;
    Never(run, cmds, m);
    var r := ActStmt(run, s, m.env, m.np.fail, inLoop, direct, fuel);
    ActStmtEnds(run, s, m.env, m.np.fail, inLoop, direct, fuel);
    var m1 := Iterate(run, cmds, m, j);
    match r.out
    case Normal =>
      if s.Break? && inLoop {
        BreakIsAbrupt(run, s, m.env, m.np.fail, inLoop, direct, fuel);
      }
      TailContext(m.np, m1.np, s, rest, inLoop, direct, free);
      k := RunBlock(run, cmds, m1, pc, rest, inLoop, direct, free, fuel);
      Later(run, cmds, m.np, m, j, m1, m1.np, pc + |Code(rest)|,
            Act(run, rest, m1.env, m1.np.fail, inLoop, direct, fuel), fuel, free, k);
      k := j + k;
    case Broke =>
      AfterBreakContext(m.np, m1.np, s, rest, free);
      k := RunResidue(run, cmds, m1, pc, rest, free, fuel);
      ResidueEnds(run, rest, m1.env, m1.np.fail, fuel);
      AfterBreak(run, cmds, m, j, m1, pc + |Code(rest)|, Residue(run, rest, m1.env, m1.np.fail, fuel), fuel, free, k);
      k := j + k;
    case Lost =>
      k := AfterLost(run, cmds, m, j, m1, pc, s, rest, r, fuel);
    case _ =>
      k := j;
  }

  lemma BreakIsAbrupt<E>(run: Behaviour<E>, s: Stmt, env: E, fail: bool, inLoop: bool, direct: bool, fuel: nat)
    requires s.Break? && inLoop
    ensures ActStmt(run, s, env, fail, inLoop, direct, fuel).out != Normal
  {}

  lemma HeadContext(np: Np, s: Stmt, rest: Block, inLoop: bool, direct: bool, free: bool)
    requires Context(np, Seq(s, rest), inLoop, direct, free)
    ensures StmtContext(np, s, inLoop, direct, free)
  {}

  /** After a statement that is not a `break` of the loop. */
  lemma TailContext(np: Np, np': Np, s: Stmt, rest: Block, inLoop: bool, direct: bool, free: bool)
    requires Context(np, Seq(s, rest), inLoop, direct, free) && SameStacks(np, np') && CmdEnabled(np)
    requires !(s.Break? && inLoop)
    ensures Context(np', rest, inLoop, direct, free) && CmdEnabled(np')
  {
    ContextSame(np, np', rest, inLoop, direct, free);
  }

  /** A broken loop body is broken after the rest of it, too. */
  lemma AfterBreak<E>(
    run: Behaviour<E>, cmds: Script, m: Machine<E>, j: nat, m1: Machine<E>, pc: nat, r: Result<E>, fuel: nat,
    free: bool, k: nat)
    requires InBounds(m.np) && BrokenStacks(m.np, m1.np) && Iterate(run, cmds, m, j) == m1 && m1.ok
    requires Matches(run, cmds, m1.np, m1, pc, r, fuel, free, k) && r.out != Broke && r.out != Lost
    ensures Matches(run, cmds, m.np, m, pc, if r.out == Normal then r.(out := Broke) else r, fuel, free, j + k)
  {
    hide Advance, Iterate;
    Chain(run, cmds, m, j, m1, k, Iterate(run, cmds, m1, k));
    Never(run, cmds, m1);
  }

  /** A lost branch is lost after the rest of it, too. */
  lemma AfterLost<E>(
    run: Behaviour<E>, cmds: Script, m: Machine<E>, j: nat, m1: Machine<E>, pc: nat, s: Stmt, rest: Block,
    r: Result<E>, fuel: nat)
    returns (k: nat)
    requires InBounds(m.np) && Context(m.np, Seq(s, rest), true, false, true)
    requires Iterate(run, cmds, m, j) == m1 && At(m1, pc) && Dropped(m.np, m1.np) && m1.ok
    requires m1.env == r.env && m1.np.fail == r.fail && r.out == Lost && Holds(cmds, pc, Code(rest))
    ensures Matches(run, cmds, m.np, m, pc + |Code(rest)|, r, fuel, true, k)
  {
    hide Advance, Iterate, Dropped, Holds;
    LostContext(m.np, m1.np, rest);
    SkipRest(run, cmds, m1, pc, rest);
    var m2 := Iterate(run, cmds, m1, |Code(rest)|);
    Never(run, cmds, m1);
    Chain(run, cmds, m, j, m1, |Code(rest)|, m2);
    DropsTrans(m.np, m1.np, m2.np);
    k := j + |Code(rest)|;
  }

  lemma {:induction false} RunStmt<E>(
    run: Behaviour<E>, cmds: Script, m: Machine<E>, pc: nat, s: Stmt, inLoop: bool, direct: bool, free: bool, fuel: nat)
    returns (k: nat)
    requires At(m, pc) && Holds(cmds, pc, StmtCode(s)) && CmdEnabled(m.np)
    requires StmtContext(m.np, s, inLoop, direct, free)
    ensures var r := ActStmt(run, s, m.env, m.np.fail, inLoop, direct, fuel);
            Matches(run, cmds, m.np, m, pc + |StmtCode(s)|, r, fuel, free, k)
    decreases fuel, s, 1
  {
    hide Advance, Iterate;
    match s
    case Run(words) =>
      HoldsFirst(cmds, pc, words, []);
      PlainRun(run, cmds, m, pc);
      Once(run, cmds, m);
      k := 1;
    case Break =>
      HoldsFirst(cmds, pc, ["break"], []);
      if inLoop && !direct {
        BreakDrops(run, cmds, m, pc);
      } else {
        BreakRun(run, cmds, m, pc);
      }
      Once(run, cmds, m);
      k := 1;
    case If(_, _, _) =>
      k := RunIf(run, cmds, m, pc, s, inLoop, direct, free, fuel);
    case Loop(_, _, _) =>
      k := RunLoop(run, cmds, m, pc, s, free, fuel);
  }

  /** Over `if` and `then`. */
  lemma IfEntry<E>(run: Behaviour<E>, cmds: Script, m: Machine<E>, pc: nat, s: Stmt) returns (m2: Machine<E>)
    requires At(m, pc) && Holds(cmds, pc, StmtCode(s)) && CmdEnabled(m.np) && s.If?
    requires StmtFits(s, m.np.Depth() - 1 - m.np.iendx, m.np.Depth() - 1 - m.np.lpndx)
    ensures Holds(cmds, pc + 2, Code(s.thn)) && Holds(cmds, pc + 2 + |Code(s.thn)|, ElseCode(s.els))
    ensures var (env', failed) := run(m.env, m.np.fail, Argv(s.cond));
            && Iterate(run, cmds, m, 2) == m2 && At(m2, pc + 2) && m2.ok && m2.env == env' && !m2.np.fail
            && PushedIf(m.np, m2.np, IfSlot(ItefThen, false, failed))
            && (CmdEnabled(m2.np) <==> !failed) && (ItefEnabled(m2.np) <==> !failed)
  {
    hide Advance, Iterate, Argv;
    var If(cond, thn, els) := s;
    HoldsPair(cmds, pc, ["if"] + cond, ["then"], Code(thn) + ElseCode(els));
    HoldsConcat(cmds, pc + 2, Code(thn), ElseCode(els));
    IfHead(run, cmds, m, pc, cond);
    var m1 := Advance(run, cmds, m);
    ThenWord(run, cmds, m1, pc + 1, m.np, IfSlot(ItefIf, false, run(m.env, m.np.fail, Argv(cond)).1));
    m2 := Advance(run, cmds, m1);
    Twice(run, cmds, m, m1, m2);
  }

  lemma {:induction false} RunIf<E>(
    run: Behaviour<E>, cmds: Script, m: Machine<E>, pc: nat, s: Stmt, inLoop: bool, direct: bool, free: bool, fuel: nat)
    returns (k: nat)
    requires At(m, pc) && Holds(cmds, pc, StmtCode(s)) && CmdEnabled(m.np) && s.If?
    requires StmtContext(m.np, s, inLoop, direct, free)
    ensures var r := ActStmt(run, s, m.env, m.np.fail, inLoop, direct, fuel);
            Matches(run, cmds, m.np, m, pc + |StmtCode(s)|, r, fuel, free, k)
    decreases fuel, s, 0
  {
    hide Advance, Iterate, SameStacks, PushedIf, Holds, Context, Placed, Argv, Matches, Act, CmdEnabled, ItefEnabled;
    var m2 := IfEntry(run, cmds, m, pc, s);
    var failed := run(m.env, m.np.fail, Argv(s.cond)).1;
    var slot := IfSlot(ItefThen, false, failed);
    BranchContext(m.np, m2.np, s, inLoop, direct, slot, free);
    SameReflexive(m.np);
    var If(cond, thn, els) := s;
    var n := |Code(thn)|;
    if !failed {
      RoomOf(m2.np, s, inLoop, free);
      k := RunThen(run, cmds, m2, pc + 2, thn, els, m.np, inLoop, free, fuel);
      Later(run, cmds, m.np, m, 2, m2, m.np, pc + |StmtCode(s)|,
            Strand(Act(run, thn, m2.env, false, inLoop, false, fuel)), fuel, free, k);
      k := 2 + k;
    } else {
      var m3 := SkipThen(run, cmds, m, m2, pc, s, inLoop, direct, free);
      k := RunElse(run, cmds, m3, pc + 2 + n, els, m.np, inLoop, free, fuel);
      Later(run, cmds, m.np, m, 2 + n, m3, m.np, pc + |StmtCode(s)|,
            Strand(ActElse(run, els, m3.env, inLoop, fuel)), fuel, free, k);
      k := 2 + n + k;
    }
  }

  /** Over the then-part of an `if` whose condition failed. */
  lemma SkipThen<E>(
    run: Behaviour<E>, cmds: Script, m: Machine<E>, m2: Machine<E>, pc: nat, s: Stmt, inLoop: bool, direct: bool,
    free: bool)
    returns (m3: Machine<E>)
    requires s.If? && StmtContext(m.np, s, inLoop, direct, free)
    requires Iterate(run, cmds, m, 2) == m2 && At(m2, pc + 2) && m2.ok && Holds(cmds, pc + 2, Code(s.thn))
    requires PushedIf(m.np, m2.np, IfSlot(ItefThen, false, true)) && !ItefEnabled(m2.np)
    ensures var n := |Code(s.thn)|;
            && Iterate(run, cmds, m, 2 + n) == m3 && At(m3, pc + 2 + n) && m3.ok && Quiet(m2, m3)
            && PushedIf(m.np, m3.np, IfSlot(ItefThen, false, true))
            && (s.els.Else? ==> Context(m3.np, s.els.block, inLoop, false, free))
  {
    hide Advance, Iterate, SameStacks, PushedIf, Holds, Context, Placed;
    var slot := IfSlot(ItefThen, false, true);
    BranchContext(m.np, m2.np, s, inLoop, direct, slot, free);
    RoomOf(m2.np, s, inLoop, free);
    SkipBlock(run, cmds, m2, pc + 2, s.thn);
    var n := |Code(s.thn)|;
    m3 := Iterate(run, cmds, m2, n);
    Never(run, cmds, m2);
    PushedIfSame(m.np, m2.np, m3.np, slot);
    BranchContext(m.np, m3.np, s, inLoop, direct, slot, free);
    Chain(run, cmds, m, 2, m2, n, m3);
  }

  lemma RoomOf(np: Np, s: Stmt, inLoop: bool, free: bool)
    requires s.If? && Context(np, s.thn, inLoop, false, free)
    requires s.els.Else? ==> Context(np, s.els.block, inLoop, false, free)
    ensures HasRoom(np, s.thn) && (s.els.Else? ==> HasRoom(np, s.els.block))
  {}

  /** The end of a lost branch of an `if`. */
  lemma Stranded<E>(
    run: Behaviour<E>, cmds: Script, m: Machine<E>, pc: nat, n: nat, els: Else, np0: Np, slot: IfSlot, r: Result<E>,
    fuel: nat, k: nat)
    requires InBounds(m.np) && PushedIf(np0, m.np, slot) && np0.ie[0] == BASE
    requires Matches(run, cmds, m.np, m, pc, r, fuel, true, k) && r.out == Lost
    requires pc < |cmds| && (cmds[pc].words == ["fi"] || cmds[pc].words == ["else"])
    ensures Matches(run, cmds, np0, m, pc + n, Strand(r), fuel, true, k + 1)
  {
    hide Advance, Iterate;
    var m1 := Iterate(run, cmds, m, k);
    StrayWord(run, cmds, m1, pc);
    Once(run, cmds, m1);
    Chain(run, cmds, m, k, m1, 1, Advance(run, cmds, m1));
  }

  lemma ElseCodeFirst(cmds: Script, pc: nat, e: Else)
    requires Holds(cmds, pc, ElseCode(e))
    ensures pc < |cmds| && (cmds[pc].words == ["fi"] || cmds[pc].words == ["else"])
  {
    assert cmds[pc + 0].words == ElseCode(e)[0];
  }

  /** Run the then-part of an `if` whose condition held, and skip the rest. */
  lemma {:induction false} RunThen<E>(
    run: Behaviour<E>, cmds: Script, m: Machine<E>, pc: nat, thn: Block, els: Else, np0: Np, inLoop: bool, free: bool,
    fuel: nat)
    returns (k: nat)
    requires At(m, pc) && !m.np.fail && m.ok
    requires Holds(cmds, pc, Code(thn)) && Holds(cmds, pc + |Code(thn)|, ElseCode(els))
    requires Ready(np0) && CmdEnabled(np0) && PushedIf(np0, m.np, IfSlot(ItefThen, false, false))
    requires Context(m.np, thn, inLoop, false, free)
    requires els.Else? ==> HasRoom(m.np, els.block)
    ensures var r := Strand(Act(run, thn, m.env, false, inLoop, false, fuel));
            Matches(run, cmds, np0, m, pc + |Code(thn)| + |ElseCode(els)|, r, fuel, free, k)
    decreases fuel, thn, 1
  {
    hide Advance, Iterate, Holds, Fits, DirectBreaks, LoopsOutside, Act, Code, ElseCode, BrokenStacks, Dropped;
    var slot := IfSlot(ItefThen, false, false);
    var n := |Code(thn)|;
    k := RunBlock(run, cmds, m, pc, thn, inLoop, false, free, fuel);
    var r := Act(run, thn, m.env, false, inLoop, false, fuel);
    ActEnds(run, thn, m.env, false, inLoop, false, fuel);
    if r.out == Normal {
      var m3 := Iterate(run, cmds, m, k);
      PushedIfSame(np0, m.np, m3.np, slot);
      SkipElse(run, cmds, m3, pc + n, els, np0, slot);
      Chain(run, cmds, m, k, m3, |ElseCode(els)|, Iterate(run, cmds, m3, |ElseCode(els)|));
      k := k + |ElseCode(els)|;
    } else if r.out == Lost {
      ElseCodeFirst(cmds, pc + n, els);
      Stranded(run, cmds, m, pc + n, |ElseCode(els)|, els, np0, slot, r, fuel, k);
      k := k + 1;
    } else {
      Never(run, cmds, m);
      Later(run, cmds, np0, m, 0, m, m.np, pc + n + |ElseCode(els)|, r, fuel, free, k);
    }
  }

  /** Run the rest of an `if` whose condition failed, from the end of its then-part on. */
  lemma {:induction false} RunElse<E>(
    run: Behaviour<E>, cmds: Script, m: Machine<E>, pc: nat, e: Else, np0: Np, inLoop: bool, free: bool, fuel: nat)
    returns (k: nat)
    requires At(m, pc) && Holds(cmds, pc, ElseCode(e)) && !m.np.fail
    requires Ready(np0) && CmdEnabled(np0) && PushedIf(np0, m.np, IfSlot(ItefThen, false, true))
    requires e.Else? ==> Context(m.np, e.block, inLoop, false, free)
    ensures var r := Strand(ActElse(run, e, m.env, inLoop, fuel));
            Matches(run, cmds, np0, m, pc + |ElseCode(e)|, r, fuel, free, k)
    decreases fuel, e
  {
    hide Advance, Iterate, Code, Fits, DirectBreaks, LoopsOutside, Holds;
    var slot := IfSlot(ItefThen, false, true);
    match e
    case NoElse =>
      assert ElseCode(e) == [["fi"]] + [];
      HoldsFirst(cmds, pc, ["fi"], []);
      FiWord(run, cmds, m, pc, np0, slot);
      Once(run, cmds, m);
      k := 1;
    case Else(b) =>
      assert ElseCode(e) == [["else"]] + (Code(b) + [["fi"]]);
      HoldsFirst(cmds, pc, ["else"], Code(b) + [["fi"]]);
      HoldsLast(cmds, pc + 1, Code(b), ["fi"]);
      ElseWord(run, cmds, m, pc, np0, slot);
      Once(run, cmds, m);
      var m1 := Advance(run, cmds, m);
      ElseContext(np0, m.np, m1.np, b, slot, inLoop, free);
      k := RunElseBlock(run, cmds, m1, pc + 1, b, np0, inLoop, free, fuel);
      SameReflexive(np0);
      Later(run, cmds, np0, m, 1, m1, np0, pc + 1 + |Code(b)| + 1,
            Strand(Act(run, b, m1.env, false, inLoop, false, fuel)), fuel, free, k);
      k := 1 + k;
  }

  lemma ElseContext(np0: Np, a: Np, a': Np, b: Block, slot: IfSlot, inLoop: bool, free: bool)
    requires PushedIf(np0, a, slot) && PushedIf(np0, a', slot.(state := ItefElse))
    requires Context(a, b, inLoop, false, free)
    ensures Context(a', b, inLoop, false, free)
  {}

  /** Run the else-part and its `fi`. */
  lemma {:induction false} RunElseBlock<E>(
    run: Behaviour<E>, cmds: Script, m: Machine<E>, pc: nat, b: Block, np0: Np, inLoop: bool, free: bool, fuel: nat)
    returns (k: nat)
    requires At(m, pc) && !m.np.fail && m.ok
    requires Holds(cmds, pc, Code(b)) && pc + |Code(b)| < |cmds| && cmds[pc + |Code(b)|].words == ["fi"]
    requires Ready(np0) && CmdEnabled(np0) && PushedIf(np0, m.np, IfSlot(ItefElse, false, true))
    requires Context(m.np, b, inLoop, false, free)
    ensures var r := Strand(Act(run, b, m.env, false, inLoop, false, fuel));
            Matches(run, cmds, np0, m, pc + |Code(b)| + 1, r, fuel, free, k)
    decreases fuel, b, 1
  {
    hide Advance, Iterate, Holds, Fits, DirectBreaks, LoopsOutside;
    var slot := IfSlot(ItefElse, false, true);
    var n := |Code(b)|;
    k := RunBlock(run, cmds, m, pc, b, inLoop, false, free, fuel);
    var r := Act(run, b, m.env, false, inLoop, false, fuel);
    ActEnds(run, b, m.env, false, inLoop, false, fuel);
    if r.out == Normal {
      var m2 := Iterate(run, cmds, m, k);
      PushedIfSame(np0, m.np, m2.np, slot);
      FiWord(run, cmds, m2, pc + n, np0, slot);
      Once(run, cmds, m2);
      Chain(run, cmds, m, k, m2, 1, Advance(run, cmds, m2));
      k := k + 1;
    } else if r.out == Lost {
      Stranded(run, cmds, m, pc + n, 1, NoElse, np0, slot, r, fuel, k);
      k := k + 1;
    } else {
      Never(run, cmds, m);
      Later(run, cmds, np0, m, 0, m, m.np, pc + n + 1, r, fuel, free, k);
    }
  }

  /** Over the loop head and `do`. */
  lemma LoopEntry<E>(run: Behaviour<E>, cmds: Script, m: Machine<E>, pc: nat, s: Stmt) returns (m2: Machine<E>)
    requires At(m, pc) && Holds(cmds, pc, StmtCode(s)) && ItefEnabled(m.np) && s.Loop?
    requires StmtFits(s, m.np.Depth() - 1 - m.np.iendx, m.np.Depth() - 1 - m.np.lpndx)
    ensures var pc' := pc + 2 + |Code(s.body)|;
            Holds(cmds, pc + 2, Code(s.body)) && pc' < |cmds| && cmds[pc'].words == ["done"]
    ensures var (env', failed) := run(m.env, m.np.fail, Argv(s.test));
            && Iterate(run, cmds, m, 2) == m2 && At(m2, pc + 2) && m2.ok && m2.env == env' && !m2.np.fail
            && PushedLoop(m.np, m2.np, LoopSlot(LoopDo, failed == s.until, m.np.iendx, pc))
            && ItefEnabled(m2.np) && (CmdEnabled(m2.np) <==> failed == s.until)
  {
    hide Advance, Iterate, Argv;
    var Loop(until, test, body) := s;
    HoldsPair(cmds, pc, [LoopWord(until)] + test, ["do"], Code(body) + [["done"]]);
    HoldsLast(cmds, pc + 2, Code(body), ["done"]);
    LoopHead(run, cmds, m, pc, until, test);
    var m1 := Advance(run, cmds, m);
    var failed := run(m.env, m.np.fail, Argv(test)).1;
    DoWord(run, cmds, m1, pc + 1, m.np, until, LoopHeadSlot(until, failed == until, m.np.iendx, pc));
    m2 := Advance(run, cmds, m1);
    Twice(run, cmds, m, m1, m2);
  }

  lemma {:induction false} RunLoop<E>(
    run: Behaviour<E>, cmds: Script, m: Machine<E>, pc: nat, s: Stmt, free: bool, fuel: nat)
    returns (k: nat)
    requires At(m, pc) && Holds(cmds, pc, StmtCode(s)) && ItefEnabled(m.np) && LoopContext(m.np, s, free)
    ensures var r := ActLoop(run, s, m.env, m.np.fail, fuel);
            Matches(run, cmds, m.np, m, pc + |StmtCode(s)|, r, fuel, free, k)
    decreases fuel, s, 0
  {
    hide Advance, Iterate, Argv, Holds, Context, ResidueContext;
    if fuel == 0 {
      Never(run, cmds, m);
      return 0;
    }
    var m2 := LoopEntry(run, cmds, m, pc, s);
    var (env', failed) := run(m.env, m.np.fail, Argv(s.test));
    var n := |Code(s.body)|;
    BodyContext(m.np, m2.np, s, LoopSlot(LoopDo, failed == s.until, m.np.iendx, pc), free);
    if failed != s.until {
      k := RunResidue(run, cmds, m2, pc + 2, s.body, free, fuel);
      ResidueEnds(run, s.body, env', false, fuel);
      k := LoopOver(run, cmds, m, m2, pc, n, fuel, free, k, Residue(run, s.body, env', false, fuel));
    } else {
      k := RunBlock(run, cmds, m2, pc + 2, s.body, true, true, free, fuel);
      var r := Act(run, s.body, env', false, true, true, fuel);
      ActEnds(run, s.body, env', false, true, true, fuel);
      if r.out == Normal || r.out == Broke {
        k := LoopAgain(run, cmds, m, m2, pc, s, free, fuel, k, r);
      } else {
        Later(run, cmds, m.np, m, 2, m2, m2.np, pc + 2 + n, r, fuel, free, k);
        k := 2 + k;
      }
    }
  }

  /** From the end of a body that was jumped over to the end of the loop. */
  lemma LoopOver<E>(
    run: Behaviour<E>, cmds: Script, m: Machine<E>, m2: Machine<E>, pc: nat, n: nat, fuel: nat, free: bool, j: nat,
    r: Result<E>)
    returns (k: nat)
    requires At(m, pc) && Iterate(run, cmds, m, 2) == m2 && InBounds(m2.np) && m2.ok
    requires PushedLoop(m.np, m2.np, LoopSlot(LoopDo, false, m.np.iendx, pc))
    requires pc + 2 + n < |cmds| && cmds[pc + 2 + n].words == ["done"]
    requires Matches(run, cmds, m2.np, m2, pc + 2 + n, r, fuel, free, j) && r.out != Broke && r.out != Lost
    ensures Matches(run, cmds, m.np, m, pc + 2 + n + 1, r, fuel, free, k)
  {
    hide Advance, Iterate;
    if r.out == Normal {
      var slot := LoopSlot(LoopDo, false, m.np.iendx, pc);
      var m3 := Iterate(run, cmds, m2, j);
      PushedLoopSame(m.np, m2.np, m3.np, slot);
      LoopEnds(run, cmds, m, m2, m3, pc + 2 + n, j, slot);
      k := 2 + j + 1;
    } else {
      Later(run, cmds, m.np, m, 2, m2, m2.np, pc + 2 + n, r, fuel, free, j);
      k := 2 + j;
    }
  }

  /** From the end of a completed round to the end of the loop. */
  lemma {:induction false} LoopAgain<E>(
    run: Behaviour<E>, cmds: Script, m: Machine<E>, m2: Machine<E>, pc: nat, s: Stmt, free: bool, fuel: nat,
    j: nat, r: Result<E>)
    returns (k: nat)
    requires At(m, pc) && Holds(cmds, pc, StmtCode(s)) && ItefEnabled(m.np) && fuel > 0 && LoopContext(m.np, s, free)
    requires Iterate(run, cmds, m, 2) == m2 && InBounds(m2.np)
    requires PushedLoop(m.np, m2.np, LoopSlot(LoopDo, true, m.np.iendx, pc))
    requires var pc' := pc + 2 + |Code(s.body)|;
             pc' < |cmds| && cmds[pc'].words == ["done"] && Matches(run, cmds, m2.np, m2, pc', r, fuel, free, j)
    requires r.out == Normal || r.out == Broke
    ensures var r' := if r.out == Broke then r.(out := Normal) else ActLoop(run, s, r.env, r.fail, fuel - 1);
            Matches(run, cmds, m.np, m, pc + |StmtCode(s)|, r', fuel, free, k)
    decreases fuel, s, 0, 0
  {
    hide Advance, Iterate, Holds, Code, ActLoop, CmdEnabled;
    var m3 := Iterate(run, cmds, m2, j);
    var slot := LoopSlot(LoopDo, r.out == Normal, m.np.iendx, pc);
    PushedLoopSame(m.np, m2.np, m3.np, slot.(enable := true));
    LoopEnds(run, cmds, m, m2, m3, pc + 2 + |Code(s.body)|, j, slot);
    var m4 := Advance(run, cmds, m3);
    if r.out == Broke {
      k := 2 + j + 1;
    } else {
      LoopEndsItself(run, s, r.env, r.fail, fuel - 1);
      k := RunLoop(run, cmds, m4, pc, s, free, fuel - 1);
      Later(run, cmds, m.np, m, 2 + j + 1, m4, m4.np, pc + |StmtCode(s)|,
            ActLoop(run, s, r.env, r.fail, fuel - 1), fuel - 1, free, k);
      k := 2 + j + 1 + k;
    }
  }

  /** In a loop that is over, the rest of the body is skipped except for its bare loops. */
  lemma {:induction false} RunResidue<E>(
    run: Behaviour<E>, cmds: Script, m: Machine<E>, pc: nat, b: Block, free: bool, fuel: nat) returns (k: nat)
    requires At(m, pc) && Holds(cmds, pc, Code(b)) && ResidueContext(m.np, b, free)
    requires ItefEnabled(m.np) && m.np.Lp().state == LoopDo && !m.np.Lp().enable
    ensures Matches(run, cmds, m.np, m, pc + |Code(b)|, Residue(run, b, m.env, m.np.fail, fuel), fuel, free, k)
    decreases fuel, b, 0
  {
    hide Advance, Iterate, StmtCode, Holds, ActLoop, PushedIf, PushedLoop;
    hide SameStacks, BrokenStacks, Dropped, Extends, Fallen, ResidueContext, LoopContext;
    match b
    case End =>
      k := 0;
      Never(run, cmds, m);
      SameReflexive(m.np);
    case Seq(s, rest) =>
      ResidueParts(m.np, s, rest, free);
      HoldsConcat(cmds, pc, StmtCode(s), Code(rest));
      var n := |StmtCode(s)|;
      var j := n;
      if s.Loop? {
        j := RunLoop(run, cmds, m, pc, s, free, fuel);
        LoopEndsItself(run, s, m.env, m.np.fail, fuel);
        if ActLoop(run, s, m.env, m.np.fail, fuel).out != Normal {
          return j;
        }
      } else {
        SkipStmt(run, cmds, m, pc, s);
      }
      Never(run, cmds, m);
      var m1 := Iterate(run, cmds, m, j);
      ResidueSame(m.np, m1.np, s, rest, free);
      k := RunResidue(run, cmds, m1, pc + n, rest, free, fuel);
      Later(run, cmds, m.np, m, j, m1, m1.np, pc + n + |Code(rest)|,
            Residue(run, rest, m1.env, m1.np.fail, fuel), fuel, free, k);
      k := j + k;
  }

  lemma ResidueParts(np: Np, s: Stmt, rest: Block, free: bool)
    requires ResidueContext(np, Seq(s, rest), free) && np.Lp().state == LoopDo
    ensures s.Loop? ==> LoopContext(np, s, free)
    ensures HasRoom(np, Seq(s, rest))
  {}

  lemma ResidueSame(a: Np, b: Np, s: Stmt, rest: Block, free: bool)
    requires ResidueContext(a, Seq(s, rest), free) && SameStacks(a, b)
    requires ItefEnabled(a) && a.Lp().state == LoopDo && !a.Lp().enable
    ensures ResidueContext(b, rest, free)
    ensures ItefEnabled(b) && b.Lp().state == LoopDo && !b.Lp().enable
  {}

  /** From the end of a loop body over `done`. */
  lemma LoopEnds<E>(
    run: Behaviour<E>, cmds: Script, m: Machine<E>, m2: Machine<E>, m3: Machine<E>, pc: nat, j: nat, slot: LoopSlot)
    requires Ready(m.np) && InBounds(m2.np) && InBounds(m3.np)
    requires Iterate(run, cmds, m, 2) == m2 && Iterate(run, cmds, m2, j) == m3
    requires !m3.done && m3.np.fpos == pc && pc < |cmds| && cmds[pc].words == ["done"]
    requires PushedLoop(m.np, m3.np, slot) && slot.state == LoopDo
    ensures var m4 := Advance(run, cmds, m3);
            && Iterate(run, cmds, m, 2 + j + 1) == m4
            && !m4.done && m4.ok && Quiet(m3, m4) && SameStacks(m.np, m4.np)
            && m4.np.fpos == (if slot.enable then slot.topoffs else pc + 1)
  {
    hide Advance, Iterate;
    DoneWord(run, cmds, m3, pc, m.np, slot);
    Once(run, cmds, m3);
    Chain(run, cmds, m, 2, m2, j, m3);
    Chain(run, cmds, m, 2 + j, m3, 1, Advance(run, cmds, m3));
  }
}
