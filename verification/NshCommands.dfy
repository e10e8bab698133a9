/** The interpreter over a list of commands: the read position is an index into the list, `done`
    moves it back to a loop head, a failing command ends the run.

    `then`, `else` and `do` may be followed by a command on the same line, as in `do sleep 1`.  Such a
    command stands in the list as two cells: the keyword, marked `open`, and the rest. */
module NshCommands {
  import opened NshMachine

  datatype Cell = Cell(words: seq<string>, open: bool)
  type Script = seq<Cell>

  /** `ok` is the status nsh_script would return: that of the last command run. */
  datatype Machine<E> = Machine(np: Np, env: E, ok: bool, done: bool)

  /** One cell.  If an open keyword is rejected, so is the rest of its command. */
  function Advance<E>(run: Behaviour<E>, cmds: Script, m: Machine<E>): (m': Machine<E>)
    requires InBounds(m.np)
    ensures InBounds(m'.np)
  {
    if m.done then m
    else if !(0 <= m.np.fpos < |cmds|) then m.(done := true)
    else
      var pc := m.np.fpos;
      var np := m.np.(foffs := pc, loffs := 0, fpos := pc + 1, jump := false);
      var r := ParseCommand(run, np, m.env, cmds[pc].words);
      var rejected := cmds[pc].open && !Accepts(np, cmds[pc].words);
      Machine(if rejected then r.np.(fpos := pc + 2) else r.np, r.env, r.ok, !r.ok)
  }

  function Iterate<E>(run: Behaviour<E>, cmds: Script, m: Machine<E>, k: nat): (m': Machine<E>)
    requires InBounds(m.np)
    ensures InBounds(m'.np)
    decreases k
  {
    if k == 0 then m else Iterate(run, cmds, Advance(run, cmds, m), k - 1)
  }

  lemma {:induction false} IterateAdd<E>(run: Behaviour<E>, cmds: Script, m: Machine<E>, j: nat, k: nat)
    requires InBounds(m.np)
    ensures Iterate(run, cmds, m, j + k) == Iterate(run, cmds, Iterate(run, cmds, m, j), k)
    decreases j
  {
    hide Advance;
    if j > 0 {
      IterateAdd(run, cmds, Advance(run, cmds, m), j - 1, k);
    }
  }

  /** A machine that has stopped stays as it is. */
  lemma {:induction false} Stopped<E>(run: Behaviour<E>, cmds: Script, m: Machine<E>, k: nat)
    requires InBounds(m.np) && m.done
    ensures Iterate(run, cmds, m, k) == m
    decreases k
  {
    if k > 0 {
      assert Advance(run, cmds, m) == m;
      Stopped(run, cmds, m, k - 1);
    }
  }

  /** Two stopped machines on the same run are the same. */
  lemma StopsOnce<E>(run: Behaviour<E>, cmds: Script, m: Machine<E>, j: nat, k: nat)
    requires InBounds(m.np) && Iterate(run, cmds, m, j).done && j <= k
    ensures Iterate(run, cmds, m, k) == Iterate(run, cmds, m, j)
  {
    IterateAdd(run, cmds, m, j, k - j);
    Stopped(run, cmds, Iterate(run, cmds, m, j), k - j);
  }

  // ----- composing runs -----

  lemma Chain<E>(run: Behaviour<E>, cmds: Script, m: Machine<E>, j: nat, m1: Machine<E>, k: nat, m2: Machine<E>)
    requires InBounds(m.np) && InBounds(m1.np)
    requires Iterate(run, cmds, m, j) == m1 && Iterate(run, cmds, m1, k) == m2
    ensures Iterate(run, cmds, m, j + k) == m2
  {
    hide Iterate, Advance;
    IterateAdd(run, cmds, m, j, k);
  }

  lemma Once<E>(run: Behaviour<E>, cmds: Script, m: Machine<E>)
    requires InBounds(m.np)
    ensures Iterate(run, cmds, m, 1) == Advance(run, cmds, m)
  {
    hide Advance;
  }

  lemma Twice<E>(run: Behaviour<E>, cmds: Script, m: Machine<E>, m1: Machine<E>, m2: Machine<E>)
    requires InBounds(m.np) && m1 == Advance(run, cmds, m) && m2 == Advance(run, cmds, m1)
    ensures Iterate(run, cmds, m, 2) == m2
  {
    hide Advance;
    Once(run, cmds, m);
    Once(run, cmds, m1);
    Chain(run, cmds, m, 1, m1, 1, m2);
  }

  lemma Never<E>(run: Behaviour<E>, cmds: Script, m: Machine<E>)
    requires InBounds(m.np)
    ensures Iterate(run, cmds, m, 0) == m
  {}
}
