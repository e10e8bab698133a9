/** Whole scripts: what the flat machine makes of them, when that is what they mean, and that the
    condition for it is exact. */
module NshTheorems {
  import opened NshMachine
  import opened NshProgram
  import opened NshCommands
  import opened NshSimulation
  import opened NshExactness
  import opened NshRefinement
  import opened NshBlanks

  /** nsh_script about to read the first command.  It returns ERROR if there is none. */
  function Start<E>(np: Np, env: E): Machine<E> {
    Machine(np.(fpos := 0), env, false, false)
  }

  /** The script `p` is written as the cells `cmds`, some of which may share a line with the next, with any number of
      commands without words between them. */
  ghost predicate Written(p: Block, cmds: Script) {
    Paired(cmds) && Spelled(p, Strip(cmds))
  }

  ghost predicate Spelled(p: Block, cmds: Script) {
    |cmds| == |Code(p)| && Holds(cmds, 0, Code(p))
  }

  /** A parser state in which a script can be started: outside every loop, with the stacks as they are when a command
      is due that is enabled. */
  ghost predicate Open(np: Np) {
    Ready(np) && CmdEnabled(np) && np.lpndx == 0 && np.Lp().state == LoopNormal
  }

  /** The same, with room for the script. */
  ghost predicate CanStart(np: Np, p: Block, cmds: Script) {
    Written(p, cmds) && Open(np) && HasRoom(np, p)
  }

  /** The scripts for which `Act` says what the machine does: every `break` is direct, or loops stand outside every
      `if` and the script is started outside every `if`. */
  ghost predicate Known(np: Np, p: Block) {
    DirectBreaks(p, false, false) || (LoopsOutside(p, false) && np.iendx == 0 && np.iendx < |np.ie| && np.Ie() == BASE)
  }

  ghost predicate Ended<E>(r: Result<E>) { r.out == Normal || r.out == Failed }

  /** The stopped machine `m` shows the environment, status and stacks that `r` asks for. */
  ghost predicate Agrees<E>(np0: Np, cmds: Script, m: Machine<E>, r: Result<E>) {
    && m.done && m.env == r.env && m.np.fail == r.fail
    && (m.ok <==> r.out == Normal && cmds != [])
    && (if r.out == Normal then SameStacks(np0, m.np) else Extends(np0, m.np))
  }

  // ----- the machine does what `Act` says: without blank commands -----

  lemma StartContext(np: Np, p: Block, free: bool)
    requires Open(np) && HasRoom(np, p) && Known(np, p) && free == !DirectBreaks(p, false, false)
    ensures Context(np.(fpos := 0), p, false, false, free)
  {}

  lemma FallenExtends(a: Np, b: Np)
    requires Fallen(a, b) && a.iendx == 0
    ensures Extends(a, b)
  {}

  lemma SpelledReached<E>(run: Behaviour<E>, np: Np, env: E, p: Block, cmds: Script, fuel: nat) returns (k: nat)
    requires Spelled(p, cmds) && Open(np) && HasRoom(np, p) && Known(np, p)
    requires Ended(Act(run, p, env, np.fail, false, false, fuel))
    ensures Agrees(np, cmds, Iterate(run, cmds, Start(np, env), k), Act(run, p, env, np.fail, false, false, fuel))
  {
    hide Advance, Iterate, DirectBreaks, LoopsOutside, Context, Fits, Fallen;
    var m := Start(np, env);
    var free := !DirectBreaks(p, false, false);
    StartContext(np, p, free);
    k := RunBlock(run, cmds, m, 0, p, false, false, free, fuel);
    var m1 := Iterate(run, cmds, m, k);
    Never(run, cmds, m);
    SameReflexive(np.(fpos := 0));
    if Act(run, p, env, np.fail, false, false, fuel).out == Normal {
      assert p != End ==> |Code(p)| > 0;
      EndOfScript(run, cmds, m1);
      Once(run, cmds, m1);
      Chain(run, cmds, m, k, m1, 1, Advance(run, cmds, m1));
      k := k + 1;
    } else if !Extends(np.(fpos := 0), m1.np) {
      FallenExtends(np.(fpos := 0), m1.np);
    }
  }

  lemma EndOfScript<E>(run: Behaviour<E>, cmds: Script, m: Machine<E>)
    requires InBounds(m.np) && !m.done && m.np.fpos == |cmds|
    ensures Advance(run, cmds, m) == m.(done := true)
  {}

  lemma SpelledEnds<E>(run: Behaviour<E>, np: Np, env: E, p: Block, cmds: Script, k: nat)
    requires Spelled(p, cmds) && Open(np) && HasRoom(np, p) && Known(np, p)
    requires Iterate(run, cmds, Start(np, env), k).done
    ensures Ended(Act(run, p, env, np.fail, false, false, k + 1))
  {
    hide Advance, Iterate, DirectBreaks, LoopsOutside, Context, Fits, Act;
    var m := Start(np, env);
    var free := !DirectBreaks(p, false, false);
    StartContext(np, p, free);
    ActEnds(run, p, env, np.fail, false, false, k + 1);
    var j := RunBlock(run, cmds, m, 0, p, false, false, free, k + 1);
    if Act(run, p, env, np.fail, false, false, k + 1).out == Timeout {
      StopsOnce(run, cmds, m, k, j);
    }
  }

  // ----- the machine does what `Act` says -----

  lemma StartAbreast<E>(np: Np, env: E, cmds: Script)
    requires Open(np)
    ensures Abreast(cmds, Start(np, env), Start(np, env))
  {
    AtRank(cmds, 0);
  }

  lemma AgreesAbreast<E>(np: Np, cmds: Script, m: Machine<E>, f: Machine<E>, r: Result<E>)
    requires Open(np) && Abreast(cmds, m, f) && Strip(cmds) != [] && Agrees(np, Strip(cmds), m, r)
    ensures Agrees(np, cmds, f, r)
  {
    hide StripTo;
    assert cmds != [] by { NoCells(); }
  }

  lemma NoCells()
    ensures Strip([]) == []
  {}

  /** If `Act` comes to an end, the machine stops and shows it. */
  lemma ActReached<E>(run: Behaviour<E>, np: Np, env: E, p: Block, cmds: Script, fuel: nat) returns (k: nat)
    requires CanStart(np, p, cmds) && Known(np, p) && Ended(Act(run, p, env, np.fail, false, false, fuel))
    ensures Agrees(np, cmds, Iterate(run, cmds, Start(np, env), k), Act(run, p, env, np.fail, false, false, fuel))
  {
    hide Advance, Iterate, StripTo, Known, Agrees, Abreast;
    var m := Start(np, env);
    if p == End {
      k := AllBlank(run, cmds, m, 0);
      NothingAgrees(np, cmds, Iterate(run, cmds, m, k), env);
    } else {
      var j := SpelledReached(run, np, env, p, Strip(cmds), fuel);
      StartAbreast(np, env, cmds);
      k := Follow(run, cmds, m, m, j);
      AgreesAbreast(np, cmds, Iterate(run, Strip(cmds), m, j), Iterate(run, cmds, m, k),
                    Act(run, p, env, np.fail, false, false, fuel));
    }
  }

  lemma NothingAgrees<E>(np: Np, cmds: Script, f: Machine<E>, env: E)
    requires Open(np) && f.done && f.env == env && (f.ok <==> cmds != [])
    requires f.np == np.(foffs := f.np.foffs, loffs := f.np.loffs, fpos := f.np.fpos, jump := f.np.jump)
    ensures Agrees(np, cmds, f, Result(env, np.fail, Normal))
  {}

  /** If the machine stops after `k` commands, `Act` comes to an end within `k + 1` rounds. */
  lemma StopMeansActEnded<E>(run: Behaviour<E>, np: Np, env: E, p: Block, cmds: Script, k: nat)
    requires CanStart(np, p, cmds) && Known(np, p) && Iterate(run, cmds, Start(np, env), k).done
    ensures Ended(Act(run, p, env, np.fail, false, false, k + 1))
  {
    hide Advance, Iterate, StripTo, Known, Alike;
    if p != End {
      var m := Start(np, env);
      StartAbreast(np, env, cmds);
      var j := Lead(run, cmds, m, m, k);
      StopsOnce(run, Strip(cmds), m, j, k);
      SpelledEnds(run, np, env, p, Strip(cmds), k);
    }
  }

  /** A machine that has stopped shows what `Act` says for any fuel that lets it come to an end. */
  lemma StoppedAgrees<E>(run: Behaviour<E>, np: Np, env: E, p: Block, cmds: Script, k: nat, fuel: nat)
    requires CanStart(np, p, cmds) && Known(np, p) && Iterate(run, cmds, Start(np, env), k).done
    requires Ended(Act(run, p, env, np.fail, false, false, fuel))
    ensures Agrees(np, cmds, Iterate(run, cmds, Start(np, env), k), Act(run, p, env, np.fail, false, false, fuel))
  {
    hide Advance, Iterate, Act, Known;
    var j := ActReached(run, np, env, p, cmds, fuel);
    if j <= k {
      StopsOnce(run, cmds, Start(np, env), j, k);
    } else {
      StopsOnce(run, cmds, Start(np, env), k, j);
    }
  }

  // ----- main theorems -----

  /** For every disciplined script that fits the stacks, and every behaviour of its commands: if the
      script, read as a structured program, comes to an end, the flat machine stops with the
      environment, status and stacks the program asks for ... */
  lemma MeaningReached<E>(run: Behaviour<E>, np: Np, env: E, p: Block, cmds: Script, fuel: nat) returns (k: nat)
    requires CanStart(np, p, cmds) && Disciplined(p, false, false) && Ended(Eval(run, p, env, np.fail, false, fuel))
    ensures Agrees(np, cmds, Iterate(run, cmds, Start(np, env), k), Eval(run, p, env, np.fail, false, fuel))
  {
    hide Advance, Iterate, Act, Eval, DirectBreaks;
    DisciplinedIsDirect(p, false, false);
    DisciplinedIsMeant(run, p, env, np.fail, false, false, fuel);
    k := ActReached(run, np, env, p, cmds, fuel);
  }

  /** ... and if the flat machine stops, the program comes to an end and asks for just that. */
  lemma StopIsMeant<E>(run: Behaviour<E>, np: Np, env: E, p: Block, cmds: Script, k: nat)
    requires CanStart(np, p, cmds) && Disciplined(p, false, false) && Iterate(run, cmds, Start(np, env), k).done
    ensures var r := Eval(run, p, env, np.fail, false, k + 1);
            Ended(r) && Agrees(np, cmds, Iterate(run, cmds, Start(np, env), k), r)
  {
    hide Advance, Iterate, Act, Eval, DirectBreaks;
    DisciplinedIsDirect(p, false, false);
    DisciplinedIsMeant(run, p, env, np.fail, false, false, k + 1);
    StopMeansActEnded(run, np, env, p, cmds, k);
    StoppedAgrees(run, np, env, p, cmds, k, k + 1);
  }

  /** The flat machine stops exactly if the program comes to an end. */
  lemma StopsIffEnds<E>(run: Behaviour<E>, np: Np, env: E, p: Block, cmds: Script)
    requires CanStart(np, p, cmds) && Disciplined(p, false, false)
    ensures (exists k: nat :: Iterate(run, cmds, Start(np, env), k).done)
       <==> (exists fuel: nat :: Ended(Eval(run, p, env, np.fail, false, fuel)))
  {
    hide Advance, Iterate, Eval;
    if k: nat :| Iterate(run, cmds, Start(np, env), k).done {
      StopIsMeant(run, np, env, p, cmds, k);
    }
    if fuel: nat :| Ended(Eval(run, p, env, np.fail, false, fuel)) {
      var k := MeaningReached(run, np, env, p, cmds, fuel);
    }
  }

  /** Without the discipline the theorem fails: for some outcomes of its commands the script means a
      normal end, but the machine never stops with the environment and status of that end. */
  lemma UndisciplinedScriptFails(np: Np, p: Block, cmds: Script, k: nat)
    requires CanStart(np, p, cmds) && Known(np, p) && !Disciplined(p, false, false)
    ensures var run := Oracle(Exposing(p, false, false).bits);
            var meant := Eval<nat>(run, p, 0, np.fail, false, 2);
            Ended(meant) && !Agrees(np, cmds, Iterate<nat>(run, cmds, Start(np, 0), k), meant)
  {
    hide Advance, Iterate, Act, Eval, Exposing, Known;
    var run := Oracle(Exposing(p, false, false).bits);
    UndisciplinedDiffers(p, np.fail, k + 1);
    if Iterate<nat>(run, cmds, Start(np, 0), k).done {
      StopMeansActEnded<nat>(run, np, 0, p, cmds, k);
      StoppedAgrees<nat>(run, np, 0, p, cmds, k, k + 1);
    }
  }

  /** For every behaviour of the commands, the machine comes to what the script means. */
  ghost predicate Faithful(np: Np, p: Block, cmds: Script)
    requires Open(np)
  {
    forall run: Behaviour<nat>, env: nat, fuel: nat ::
      Ended(Eval<nat>(run, p, env, np.fail, false, fuel)) ==> Comes(run, np, env, p, cmds, fuel)
  }

  ghost predicate Comes(run: Behaviour<nat>, np: Np, env: nat, p: Block, cmds: Script, fuel: nat)
    requires Open(np)
  {
    exists k: nat ::
      Agrees(np, cmds, Iterate<nat>(run, cmds, Start(np, env), k), Eval<nat>(run, p, env, np.fail, false, fuel))
  }

  /** The condition is exact, both for scripts with direct breaks and for scripts whose loops stand outside every `if`:
      the machine is faithful exactly if the script is disciplined. */
  lemma FaithfulIffDisciplined(np: Np, p: Block, cmds: Script)
    requires CanStart(np, p, cmds) && Known(np, p)
    ensures Faithful(np, p, cmds) <==> Disciplined(p, false, false)
  {
    hide Advance, Iterate, Act, Eval, Exposing, Known, CanStart, Agrees;
    StartsOpen(np, p, cmds);
    if Disciplined(p, false, false) {
      forall run: Behaviour<nat>, env: nat, fuel: nat | Ended(Eval<nat>(run, p, env, np.fail, false, fuel))
        ensures Comes(run, np, env, p, cmds, fuel)
      {
        var k := MeaningReached<nat>(run, np, env, p, cmds, fuel);
      }
    } else {
      var run := Oracle(Exposing(p, false, false).bits);
      forall k: nat
        ensures Ended(Eval<nat>(run, p, 0, np.fail, false, 2))
        ensures !Agrees(np, cmds, Iterate<nat>(run, cmds, Start(np, 0), k), Eval<nat>(run, p, 0, np.fail, false, 2))
      {
        UndisciplinedScriptFails(np, p, cmds, k);
      }
      assert Ended(Eval<nat>(run, p, 0, np.fail, false, 2)) by {
        UndisciplinedScriptFails(np, p, cmds, 0);
      }
      assert !Comes(run, np, 0, p, cmds, 2);
    }
  }

  lemma StartsOpen(np: Np, p: Block, cmds: Script)
    requires CanStart(np, p, cmds)
    ensures Open(np)
  {}

  // ----- a `break` inside an `if` -----

  /** `while a; do if c; then break; fi; done`. */
  function BreakInIf(a: seq<string>, c: seq<string>): Block {
    Seq(Loop(false, a, Seq(If(c, Seq(Break, End), NoElse), End)), End)
  }

  /** If both commands succeed, the script means a normal end after one round, and the machine stops with an error
      although no command failed. */
  lemma BreakInIfFails<E>(run: Behaviour<E>, np: Np, env: E, a: seq<string>, c: seq<string>, cmds: Script)
    returns (k: nat)
    requires CanStart(np, BreakInIf(a, c), cmds) && np.iendx == 0 && np.Ie() == BASE
    requires !run(env, np.fail, Argv(a)).1 && !run(run(env, np.fail, Argv(a)).0, false, Argv(c)).1
    ensures Eval(run, BreakInIf(a, c), env, np.fail, false, 1).out == Normal
    ensures var m := Iterate(run, cmds, Start(np, env), k);
            m.done && !m.ok && m.env == Eval(run, BreakInIf(a, c), env, np.fail, false, 1).env && m.np.fail
  {
    hide Advance, Iterate, Argv, CanStart;
    var p := BreakInIf(a, c);
    var If(cond, thn, els) := p.head.body.head;
    var env1 := run(env, np.fail, Argv(a)).0;
    var env2 := run(env1, false, Argv(c)).0;
    assert LoopsOutside(p, false) by {
      assert LoopsOutside(thn, true);
      assert LoopsOutside(p.head.body, false);
    }
    assert Act(run, thn, env2, false, true, false, 1) == Result(env2, false, Lost);
    assert Act(run, p.head.body, env1, false, true, true, 1) == Result(env2, true, Failed);
    assert ActLoop(run, p.head, env, np.fail, 1) == Result(env2, true, Failed);
    assert Eval(run, thn, env2, false, true, 1) == Result(env2, false, Broke);
    assert Eval(run, p.head.body, env1, false, true, 1) == Result(env2, false, Broke);
    assert EvalStmt(run, p.head, env, np.fail, false, 1) == Result(env2, false, Normal);
    StartsOpen(np, p, cmds);
    k := ActReached(run, np, env, p, cmds, 1);
  }

  // ----- every script that fits can be started -----

  /** A list of commands, each on a line of its own. */
  function Plainly(code: Listing): Script {
    seq(|code|, i requires 0 <= i < |code| => Cell(code[i], false))
  }

  ghost predicate Worded(code: Listing) {
    forall i :: 0 <= i < |code| ==> code[i] != []
  }

  lemma {:induction false} CodeIsWorded(b: Block, ifRoom: int, loopRoom: int)
    requires Fits(b, ifRoom, loopRoom)
    ensures Worded(Code(b))
    decreases b
  {
    if b.Seq? {
      StmtIsWorded(b.head, ifRoom, loopRoom);
      CodeIsWorded(b.tail, ifRoom, loopRoom);
    }
  }

  lemma {:induction false} StmtIsWorded(s: Stmt, ifRoom: int, loopRoom: int)
    requires StmtFits(s, ifRoom, loopRoom)
    ensures Worded(StmtCode(s))
    decreases s
  {
    match s
    case Run(_) =>
    case Break =>
    case If(_, thn, els) =>
      CodeIsWorded(thn, ifRoom - 1, loopRoom);
      if els.Else? {
        CodeIsWorded(els.block, ifRoom - 1, loopRoom);
        assert Worded(Code(els.block) + [["fi"]]);
      }
      assert Worded(ElseCode(els));
      assert Worded(Code(thn) + ElseCode(els));
    case Loop(_, _, body) =>
      CodeIsWorded(body, ifRoom, loopRoom - 1);
      assert Worded(Code(body) + [["done"]]);
  }

  lemma {:induction false} NothingToStrip(cmds: Script, n: nat)
    requires n <= |cmds| && forall i :: 0 <= i < |cmds| ==> !Blank(cmds[i])
    ensures StripTo(cmds, n) == cmds[..n]
    decreases n
  {
    if n > 0 {
      NothingToStrip(cmds, n - 1);
      assert cmds[..n] == cmds[..n - 1] + [cmds[n - 1]];
    }
  }

  /** Every script that fits is written by its commands, one a line. */
  lemma PlainlyWritten(p: Block, ifRoom: int, loopRoom: int)
    requires Fits(p, ifRoom, loopRoom)
    ensures Written(p, Plainly(Code(p)))
  {
    CodeIsWorded(p, ifRoom, loopRoom);
    var cmds := Plainly(Code(p));
    NothingToStrip(cmds, |cmds|);
    assert Strip(cmds) == cmds;
  }

  /** In a fresh session every script that fits can be started, written one command a line. */
  lemma FreshCanStart(depth: nat, p: Block)
    requires depth > 0 && Fits(p, depth - 1, depth - 1)
    ensures CanStart(Fresh(depth), p, Plainly(Code(p)))
  {
    PlainlyWritten(p, depth - 1, depth - 1);
  }
}
