/** A `break` inside an `if` drops that `if`.  Here is a script in which that happens in a loop that itself stands
    inside an `if`, and in which a later `break` puts it right. */
module NshRepair {
  import opened NshMachine
  import opened NshProgram
  import opened NshCommands
  import opened NshSimulation
  import opened NshExactness
  import opened NshTheorems

  /** The commands of the script. */
  datatype Names = Names(z: seq<string>, a: seq<string>, b: seq<string>, c: seq<string>, d: seq<string>)
  {
    predicate Valid() { Plain(z) && Plain(a) && Plain(b) && Plain(c) && Plain(d) }
  }

  /** `while c; do if d; then break; fi; done`. */
  function Inner(w: Names): Stmt {
    Loop(false, w.c, Seq(If(w.d, Seq(Break, End), NoElse), End))
  }

  /** `while a; do if b; then ...; fi; break; done`. */
  function Outer(w: Names): Stmt {
    Loop(false, w.a, Seq(If(w.b, Seq(Inner(w), End), NoElse), Seq(Break, End)))
  }

  /** `if z; then ...; fi`. */
  function Repaired(w: Names): Block {
    Seq(If(w.z, Seq(Outer(w), End), NoElse), End)
  }

  /** The parser after the next command, with these stacks. */
  function Next(np: Np, ie: seq<IfSlot>, iendx: nat, lp: seq<LoopSlot>, lpndx: nat): Np {
    np.(ie := ie, iendx := iendx, lp := lp, lpndx := lpndx, jump := false, foffs := np.fpos, loffs := 0,
        fpos := np.fpos + 1)
  }

  /** A machine that has not stopped is about to run `words`; all commands succeed. */
  ghost predicate Due(cmds: Script, np: Np, words: seq<string>) {
    InBounds(np) && np.stream && !np.fail && 0 <= np.fpos < |cmds| && cmds[np.fpos] == Cell(words, false)
  }

  ghost predicate Goes(cmds: Script, np: Np, env: nat, ok: bool, np': Np, env': nat) {
    InBounds(np) && Advance<nat>(Oracle([]), cmds, Machine(np, env, ok, false)) == Machine(np', env', true, false)
  }

  lemma IfGoes(cmds: Script, np: Np, env: nat, ok: bool, cond: seq<string>)
    requires Due(cmds, np, ["if"] + cond) && Plain(cond) && Ready(np) && CmdEnabled(np) && np.iendx + 1 < np.Depth()
    ensures Goes(cmds, np, env, ok,
                 Next(np, np.ie[np.iendx + 1 := IfSlot(ItefIf, false, false)], np.iendx + 1, np.lp, np.lpndx), env + 1)
  {
    hide LoopStep, ResetItef, CmdBreak, KeywordOf, Argv, ResetLoop, PushLoop, PopLoop;
    IfWord(cond);
    ArgvWord(cond);
    PassesLoop(np.(foffs := np.fpos, loffs := 0, fpos := np.fpos + 1, jump := false), ["if"] + cond);
    assert (["if"] + cond)[1..] == cond;
  }

  lemma ThenGoes(cmds: Script, np: Np, env: nat, ok: bool)
    requires Due(cmds, np, ["then"]) && !AwaitsDo(np) && np.Ie().state == ItefIf
    ensures Goes(cmds, np, env, ok,
                 Next(np, np.ie[np.iendx := np.Ie().(state := ItefThen)], np.iendx, np.lp, np.lpndx), env)
  {}

  lemma FiGoes(cmds: Script, np: Np, env: nat, ok: bool)
    requires Due(cmds, np, ["fi"]) && !AwaitsDo(np) && np.Ie().state == ItefThen && np.iendx > 0
    ensures Goes(cmds, np, env, ok, Next(np, np.ie, np.iendx - 1, np.lp, np.lpndx), env)
  {}

  lemma WhileGoes(cmds: Script, np: Np, env: nat, ok: bool, test: seq<string>)
    requires Due(cmds, np, ["while"] + test) && Plain(test) && Ready(np) && CmdEnabled(np) && np.lpndx + 1 < np.Depth()
    ensures Goes(cmds, np, env, ok,
                 Next(np, np.ie, np.iendx, np.lp[np.lpndx + 1 := LoopSlot(LoopWhile, true, np.iendx, np.fpos)],
                      np.lpndx + 1), env + 1)
  {
    hide ItefStep, CmdBreak, Argv;
    ArgvWord(test);
    assert (["while"] + test)[1..] == test;
    var np1 := np.(foffs := np.fpos, loffs := 0, fpos := np.fpos + 1, jump := false);
    PassesItef(PushLoop(np1, LoopWhile), test);
  }

  lemma DoGoes(cmds: Script, np: Np, env: nat, ok: bool)
    requires Due(cmds, np, ["do"]) && AwaitsDo(np)
    ensures Goes(cmds, np, env, ok,
                 Next(np, np.ie, np.iendx, np.lp[np.lpndx := np.Lp().(state := LoopDo)], np.lpndx), env)
  {}

  /** `break` takes the `if` level of its loop, be it lower or higher than the current one. */
  lemma BreakGoes(cmds: Script, np: Np, env: nat, ok: bool)
    requires Due(cmds, np, ["break"]) && Ready(np) && CmdEnabled(np) && np.Lp().state == LoopDo
    requires np.ie[np.Lp().iendx].state != ItefIf
    ensures Goes(cmds, np, env, ok,
                 Next(np, np.ie, np.Lp().iendx, np.lp[np.lpndx := np.Lp().(enable := false)], np.lpndx), env)
  {
    hide LoopStep, ItefStep, KeywordOf;
    BreakWord();
    var np1 := np.(foffs := np.fpos, loffs := 0, fpos := np.fpos + 1, jump := false);
    PassesLoop(np1, ["break"]);
    PassesItef(np1, ["break"]);
  }

  /** The end of a loop that is over. */
  lemma DoneGoes(cmds: Script, np: Np, env: nat, ok: bool)
    requires Due(cmds, np, ["done"]) && np.Lp().state == LoopDo && !np.Lp().enable && np.lpndx > 0
    ensures Goes(cmds, np, env, ok,
                 Next(np, np.ie, np.iendx, np.lp[np.lpndx := np.Lp().(state := LoopNormal, enable := true)],
                      np.lpndx - 1), env)
  {}

  /** After `k` commands of the script. */
  ghost predicate Gone(cmds: Script, np0: Np, k: nat, np: Np, env: nat) {
    && InBounds(np0) && InBounds(np)
    && Iterate<nat>(Oracle([]), cmds, Start(np0, 0), k) == Machine(np, env, k > 0, false)
  }

  lemma GoesOn(cmds: Script, np0: Np, k: nat, np: Np, env: nat, np': Np, env': nat)
    requires Gone(cmds, np0, k, np, env) && Goes(cmds, np, env, k > 0, np', env') && InBounds(np')
    ensures Gone(cmds, np0, k + 1, np', env')
  {
    hide Advance, Iterate;
    var m := Machine(np, env, k > 0, false);
    Once<nat>(Oracle([]), cmds, m);
    Chain<nat>(Oracle([]), cmds, Start(np0, 0), k, m, 1, Machine(np', env', true, false));
  }

  function Listed(w: Names): Listing {
    [["if"] + w.z, ["then"], ["while"] + w.a, ["do"], ["if"] + w.b, ["then"], ["while"] + w.c, ["do"], ["if"] + w.d,
     ["then"], ["break"], ["fi"], ["done"], ["fi"], ["break"], ["done"], ["fi"]]
  }

  lemma OneStatement(s: Stmt)
    ensures Code(Seq(s, End)) == StmtCode(s)
  {
    assert StmtCode(s) + [] == StmtCode(s);
  }

  lemma InnerCode(w: Names)
    ensures StmtCode(Inner(w))
            == [["while"] + w.c, ["do"], ["if"] + w.d, ["then"], ["break"], ["fi"], ["done"]]
  {
    hide Code;
    OneStatement(Break);
    OneStatement(Inner(w).body.head);
    assert StmtCode(Inner(w).body.head) == [["if"] + w.d, ["then"]] + ([["break"]] + [["fi"]]);
  }

  lemma OuterCode(w: Names)
    ensures StmtCode(Outer(w))
            == [["while"] + w.a, ["do"], ["if"] + w.b, ["then"]] + StmtCode(Inner(w)) + [["fi"], ["break"], ["done"]]
  {
    hide Inner;
    OneStatement(Break);
    OneStatement(Inner(w));
    var first := Outer(w).body.head;
    assert StmtCode(first) == [["if"] + w.b, ["then"]] + (StmtCode(Inner(w)) + [["fi"]]);
    assert Code(Outer(w).body) == StmtCode(first) + [["break"]];
  }

  lemma RepairedCode(w: Names)
    ensures Code(Repaired(w)) == Listed(w)
  {
    hide Outer, Code;
    OneStatement(Repaired(w).head);
    OneStatement(Outer(w));
    InnerCode(w);
    OuterCode(w);
    assert StmtCode(Repaired(w).head) == [["if"] + w.z, ["then"]] + (StmtCode(Outer(w)) + [["fi"]]);
  }

  /** The commands, one a line. */
  function CellsFor(w: Names): (cmds: Script)
    ensures |cmds| == 17 && forall k :: 0 <= k < 17 ==> cmds[k] == Cell(Listed(w)[k], false)
  {
    Plainly(Listed(w))
  }

  /** `if cond; then` where the condition holds. */
  lemma TakeIf(cmds: Script, np0: Np, k: nat, np: Np, env: nat, cond: seq<string>) returns (np': Np)
    requires Gone(cmds, np0, k, np, env) && np.fpos == k && Due(cmds, np, ["if"] + cond) && Plain(cond)
    requires Ready(np) && CmdEnabled(np) && np.iendx + 1 < np.Depth()
    requires k + 1 < |cmds| && cmds[k + 1] == Cell(["then"], false)
    ensures Gone(cmds, np0, k + 2, np', env + 1) && InBounds(np') && np'.fpos == k + 2 && np'.stream && !np'.fail
    ensures np'.iendx == np.iendx + 1 && np'.ie == np.ie[np.iendx + 1 := IfSlot(ItefThen, false, false)]
    ensures np'.lpndx == np.lpndx && np'.lp == np.lp
  {
    hide Advance, Iterate, Goes, Gone;
    var i := np.iendx + 1;
    IfGoes(cmds, np, env, k > 0, cond);
    var n := Next(np, np.ie[i := IfSlot(ItefIf, false, false)], i, np.lp, np.lpndx);
    GoesOn(cmds, np0, k, np, env, n, env + 1);
    ThenGoes(cmds, n, env + 1, true);
    np' := Next(n, n.ie[i := IfSlot(ItefThen, false, false)], i, n.lp, n.lpndx);
    GoesOn(cmds, np0, k + 1, n, env + 1, np', env + 1);
  }

  /** `while test; do` where the test holds. */
  lemma TakeWhile(cmds: Script, np0: Np, k: nat, np: Np, env: nat, test: seq<string>) returns (np': Np)
    requires Gone(cmds, np0, k, np, env) && np.fpos == k > 0 && Due(cmds, np, ["while"] + test) && Plain(test)
    requires Ready(np) && CmdEnabled(np) && np.lpndx + 1 < np.Depth()
    requires k + 1 < |cmds| && cmds[k + 1] == Cell(["do"], false)
    ensures Gone(cmds, np0, k + 2, np', env + 1) && InBounds(np') && np'.fpos == k + 2 && np'.stream && !np'.fail
    ensures np'.lpndx == np.lpndx + 1 && np'.lp == np.lp[np.lpndx + 1 := LoopSlot(LoopDo, true, np.iendx, k)]
    ensures np'.iendx == np.iendx && np'.ie == np.ie
  {
    hide Advance, Iterate, Goes, Gone;
    var l := np.lpndx + 1;
    WhileGoes(cmds, np, env, true, test);
    var n := Next(np, np.ie, np.iendx, np.lp[l := LoopSlot(LoopWhile, true, np.iendx, k)], l);
    GoesOn(cmds, np0, k, np, env, n, env + 1);
    DoGoes(cmds, n, env + 1, true);
    np' := Next(n, n.ie, n.iendx, n.lp[l := LoopSlot(LoopDo, true, np.iendx, k)], l);
    GoesOn(cmds, np0, k + 1, n, env + 1, np', env + 1);
  }

  /** Down into the outer loop. */
  lemma EnterOuter(w: Names, cmds: Script, np0: Np) returns (np: Np)
    requires Open(np0) && !np0.fail && np0.iendx + 3 < np0.Depth() && cmds == CellsFor(w) && w.Valid()
    ensures Gone(cmds, np0, 4, np, 2) && np.fpos == 4 && Inside(np, np0.iendx + 1, 1, 2)
    ensures SameStacks(np0, np.(iendx := np0.iendx, lpndx := 0))
  {
    hide Advance, Iterate, Gone, Plain;
    Never<nat>(Oracle([]), cmds, Start(np0, 0));
    AtStart(cmds, np0);
    np := TakeIf(cmds, np0, 0, np0.(fpos := 0), 0, w.z);
    np := TakeWhile(cmds, np0, 2, np, 1, w.a);
  }

  /** In the body of a loop that goes on, in the then-part of an `if` that was taken. */
  ghost predicate Inside(np: Np, iendx: nat, lpndx: nat, top: int) {
    && InBounds(np) && np.stream && !np.fail && np.iendx == iendx && np.lpndx == lpndx
    && np.Ie() == IfSlot(ItefThen, false, false) && np.Lp() == LoopSlot(LoopDo, true, iendx, top)
  }

  lemma AtStart(cmds: Script, np0: Np)
    requires Open(np0) && Iterate<nat>(Oracle([]), cmds, Start(np0, 0), 0) == Start(np0, 0)
    ensures Gone(cmds, np0, 0, np0.(fpos := 0), 0)
  {}

  /** Further into the inner loop. */
  lemma EnterInner(w: Names, cmds: Script, np0: Np, np: Np) returns (np': Np)
    requires cmds == CellsFor(w) && w.Valid() && Gone(cmds, np0, 4, np, 2) && np.fpos == 4
    requires exists i: nat :: i + 2 < np.Depth() && Inside(np, i, 1, 2)
    ensures Gone(cmds, np0, 8, np', 4) && np'.fpos == 8
    ensures Inside(np', np.iendx + 1, 2, 6) && np'.iendx + 1 < np'.Depth()
    ensures SameStacks(np, np'.(iendx := np.iendx, lpndx := 1))
  {
    hide Advance, Iterate, Gone, Plain;
    np' := TakeIf(cmds, np0, 4, np, 2, w.b);
    np' := TakeWhile(cmds, np0, 6, np', 3, w.c);
  }

  /** The `break` drops the innermost `if`, whose `fi` then ends the one around the loop. */
  lemma BreakInner(w: Names, cmds: Script, np0: Np, np: Np) returns (np': Np)
    requires cmds == CellsFor(w) && w.Valid() && Gone(cmds, np0, 8, np, 4) && np.fpos == 8
    requires exists i: nat :: 0 < i < np.Depth() - 1 && Inside(np, i, 2, 6)
    ensures Gone(cmds, np0, 13, np', 5) && np'.fpos == 13 && np'.stream && !np'.fail && np'.Depth() == np.Depth()
    ensures np'.iendx == np.iendx - 1 && np'.lpndx == 1
    ensures (forall j :: 0 <= j <= np'.iendx ==> np'.ie[j] == np.ie[j]) && np'.lp[..2] == np.lp[..2]
  {
    hide Advance, Iterate, Goes, Gone;
    var i := np.iendx;
    var n2 := TakeIf(cmds, np0, 8, np, 4, w.d);
    BreakGoes(cmds, n2, 5, true);
    var n3 := Next(n2, n2.ie, i, n2.lp[2 := LoopSlot(LoopDo, false, i, 6)], 2);
    GoesOn(cmds, np0, 10, n2, 5, n3, 5);
    FiGoes(cmds, n3, 5, true);
    var n4 := Next(n3, n3.ie, i - 1, n3.lp, 2);
    GoesOn(cmds, np0, 11, n3, 5, n4, 5);
    DoneGoes(cmds, n4, 5, true);
    np' := Next(n4, n4.ie, i - 1, n4.lp[2 := LoopSlot(LoopNormal, true, i, 6)], 1);
    GoesOn(cmds, np0, 12, n4, 5, np', 5);
  }

  /** One `fi` too many has been taken; the `break` of the outer loop, at the level of that loop, gives it back. */
  lemma BreakOuter(w: Names, cmds: Script, np0: Np, np: Np) returns (np': Np)
    requires cmds == CellsFor(w) && w.Valid() && Gone(cmds, np0, 13, np, 5) && np.fpos == 13 && np.stream && !np.fail
    requires InBounds(np) && 0 < np.iendx && np.lpndx == 1 && np.Ie() == IfSlot(ItefThen, false, false)
    requires np.Lp() == LoopSlot(LoopDo, true, np.iendx, 2) && np.lp[0].state == LoopNormal
    requires ItefEnabled(np.(iendx := np.iendx - 1)) && np.ie[np.iendx - 1].state != ItefIf
    ensures Gone(cmds, np0, 17, np', 5) && np'.fpos == 17 && !np'.fail && np'.stream
    ensures np'.iendx == np.iendx - 1 && np'.lpndx == 0 && np'.ie == np.ie && np'.lp[0] == np.lp[0]
    ensures |np'.lp| == |np.lp|
  {
    hide Advance, Iterate, Goes, Gone;
    var i := np.iendx;
    FiGoes(cmds, np, 5, true);
    var n1 := Next(np, np.ie, i - 1, np.lp, 1);
    GoesOn(cmds, np0, 13, np, 5, n1, 5);
    BreakGoes(cmds, n1, 5, true);
    var n2 := Next(n1, n1.ie, i, n1.lp[1 := LoopSlot(LoopDo, false, i, 2)], 1);
    GoesOn(cmds, np0, 14, n1, 5, n2, 5);
    DoneGoes(cmds, n2, 5, true);
    var n3 := Next(n2, n2.ie, i, n2.lp[1 := LoopSlot(LoopNormal, true, i, 2)], 0);
    GoesOn(cmds, np0, 15, n2, 5, n3, 5);
    FiGoes(cmds, n3, 5, true);
    np' := Next(n3, n3.ie, i - 1, n3.lp, 0);
    GoesOn(cmds, np0, 16, n3, 5, np', 5);
  }

  /** A script that is not disciplined, and of the kind that `Known` shuts out: a `break` inside an `if` is run, and yet
      the machine comes to the end that is meant, with the stacks as they were. */
  lemma BreakRepairs(w: Names, np: Np)
    requires w.Valid() && Open(np) && !np.fail && np.iendx + 3 < np.Depth()
    ensures !Disciplined(Repaired(w), false, false) && !Known(np, Repaired(w))
    ensures CanStart(np, Repaired(w), CellsFor(w))
    ensures var meant := Eval<nat>(Oracle([]), Repaired(w), 0, np.fail, false, 2);
            && meant == Result(5, false, Normal)
            && Agrees(np, CellsFor(w), Iterate<nat>(Oracle([]), CellsFor(w), Start(np, 0), 18), meant)
  {
    hide Advance, Iterate, Agrees, Open, CanStart, Known;
    RepairedStops(w, np);
    RepairedMeans(w);
    RepairedIsNot(w, np);
    RepairedFits(w, np);
  }

  lemma RepairedStops(w: Names, np: Np)
    requires w.Valid() && Open(np) && !np.fail && np.iendx + 3 < np.Depth()
    ensures Agrees(np, CellsFor(w), Iterate<nat>(Oracle([]), CellsFor(w), Start(np, 0), 18), Result(5, false, Normal))
  {
    hide Advance, Iterate, Listed;
    var cmds := CellsFor(w);
    var a := EnterOuter(w, cmds, np);
    var b := EnterInner(w, cmds, np, a);
    var c := BreakInner(w, cmds, np, b);
    var d := BreakOuter(w, cmds, np, c);
    var m := Machine(d, 5, true, false);
    EndOfScript<nat>(Oracle([]), cmds, m);
    Once<nat>(Oracle([]), cmds, m);
    Chain<nat>(Oracle([]), cmds, Start(np, 0), 17, m, 1, m.(done := true));
  }

  lemma RepairedMeans(w: Names)
    ensures Eval<nat>(Oracle([]), Repaired(w), 0, false, false, 2) == Result(5, false, Normal)
  {
    assert Eval<nat>(Oracle([]), Seq(Break, End), 5, false, true, 2) == Result(5, false, Broke);
    assert EvalStmt<nat>(Oracle([]), Inner(w).body.head, 4, false, true, 2) == Result(5, false, Broke);
    assert Eval<nat>(Oracle([]), Inner(w).body, 4, false, true, 2) == Result(5, false, Broke);
    assert EvalStmt<nat>(Oracle([]), Inner(w), 3, false, true, 2) == Result(5, false, Normal);
    assert Eval<nat>(Oracle([]), Seq(Inner(w), End), 3, false, true, 2) == Result(5, false, Normal);
    assert Eval<nat>(Oracle([]), Outer(w).body, 2, false, true, 2) == Result(5, false, Broke);
    assert EvalStmt<nat>(Oracle([]), Outer(w), 1, false, false, 2) == Result(5, false, Normal);
    assert Eval<nat>(Oracle([]), Seq(Outer(w), End), 1, false, false, 2) == Result(5, false, Normal);
    assert EvalStmt<nat>(Oracle([]), Repaired(w).head, 0, false, false, 2) == Result(5, false, Normal);
  }

  lemma RepairedIsNot(w: Names, np: Np)
    ensures !Disciplined(Repaired(w), false, false) && !Known(np, Repaired(w))
  {
    hide DirectBreaks, LoopsOutside, Disciplined;
    NoDirectBreaks(w);
    if Disciplined(Repaired(w), false, false) {
      DisciplinedIsDirect(Repaired(w), false, false);
    }
  }

  lemma NoDirectBreaks(w: Names)
    ensures !DirectBreaks(Repaired(w), false, false) && !LoopsOutside(Repaired(w), false)
  {
    assert !DirectBreaks(Seq(Break, End), true, false);
    assert !StmtDirectBreaks(Inner(w).body.head, true, true);
    assert !StmtDirectBreaks(Inner(w), true, false);
    assert !DirectBreaks(Seq(Inner(w), End), true, false);
    assert !StmtDirectBreaks(Outer(w).body.head, true, true);
    assert !StmtDirectBreaks(Outer(w), false, false);
    assert !DirectBreaks(Seq(Outer(w), End), false, false);
    assert !LoopsOutside(Seq(Outer(w), End), true);
  }

  lemma RepairedFits(w: Names, np: Np)
    requires w.Valid() && Open(np) && np.iendx + 3 < np.Depth()
    ensures CanStart(np, Repaired(w), CellsFor(w))
  {
    var i, l := np.Depth() - 1 - np.iendx, np.Depth() - 1;
    assert Fits(End, i - 3, l - 2) && Fits(End, i - 2, l - 2) && Fits(End, i - 2, l - 1);
    assert Fits(End, i - 1, l) && Fits(End, i - 1, l - 1);
    assert Fits(Seq(Break, End), i - 3, l - 2) && Fits(Seq(Break, End), i - 1, l - 1);
    assert Fits(Inner(w).body, i - 2, l - 2);
    assert Fits(Seq(Inner(w), End), i - 2, l - 1);
    assert Fits(Outer(w).body, i - 1, l - 1);
    assert Fits(Seq(Outer(w), End), i - 1, l);
    RepairedCode(w);
    PlainlyWritten(Repaired(w), i, l);
  }
}
