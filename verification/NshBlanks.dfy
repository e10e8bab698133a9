/** Commands without words, as blank lines and comments give them, change nothing: the machine over a list of commands
    goes in step with the machine over the list without them. */
module NshBlanks {
  import opened NshMachine
  import opened NshCommands
  import opened NshRefinement

  predicate Blank(c: Cell) { c.words == [] }

  /** The first `n` cells without the blank ones. */
  function StripTo(cmds: Script, n: nat): Script
    requires n <= |cmds|
  {
    if n == 0 then [] else StripTo(cmds, n - 1) + if Blank(cmds[n - 1]) then [] else [cmds[n - 1]]
  }

  function Strip(cmds: Script): Script { StripTo(cmds, |cmds|) }

  /** The place of cell `n` among the cells that are not blank. */
  function Rank(cmds: Script, n: nat): nat
    requires n <= |cmds|
  {
    |StripTo(cmds, n)|
  }

  ghost function Ranks(cmds: Script): Places {
    set n | 0 <= n <= |cmds| :: (Rank(cmds, n) as int, n as int)
  }

  /** A keyword that shares its line with a command is followed by that command. */
  ghost predicate Paired(cmds: Script) {
    forall c :: 0 <= c < |cmds| && cmds[c].open ==> !Blank(cmds[c]) && c + 1 < |cmds| && !Blank(cmds[c + 1])
  }

  lemma {:induction false} Stripped(cmds: Script, c: nat, n: nat)
    requires c < n <= |cmds|
    ensures Rank(cmds, c + 1) == Rank(cmds, c) + (if Blank(cmds[c]) then 0 else 1) <= Rank(cmds, n)
    ensures !Blank(cmds[c]) ==> StripTo(cmds, n)[Rank(cmds, c)] == cmds[c]
    decreases n
  {
    if c + 1 < n {
      Stripped(cmds, c, n - 1);
    }
  }

  lemma AtRank(cmds: Script, n: nat)
    requires n <= |cmds|
    ensures (Rank(cmds, n) as int, n as int) in Ranks(cmds)
  {}

  /** `m` over the stripped list and `f` over the whole list are at the same command, or both have stopped.  Before the
      first command a blank one may have changed the status of `f`. */
  ghost predicate Abreast<E>(cmds: Script, m: Machine<E>, f: Machine<E>) {
    && Alike(Ranks(cmds), m.np, f.np) && m.env == f.env && m.done == f.done
    && (!m.done ==> (m.np.fpos, f.np.fpos) in Ranks(cmds))
    && (m.ok == f.ok || (!m.ok && f.ok && !m.done && m.np.fpos == 0))
  }

  lemma BlankStep<E>(run: Behaviour<E>, cmds: Script, f: Machine<E>, c: nat)
    requires InBounds(f.np) && !f.done && f.np.fpos == c < |cmds| && Blank(cmds[c]) && !cmds[c].open
    ensures Advance(run, cmds, f)
            == Machine(f.np.(foffs := c, loffs := 0, fpos := c + 1, jump := false), f.env, true, false)
  {
    hide LoopStep, ItefStep;
    PassesNothing(f.np.(foffs := c, loffs := 0, fpos := c + 1, jump := false));
  }

  /** A command that is not blank. */
  lemma BothStep<E>(run: Behaviour<E>, cmds: Script, m: Machine<E>, f: Machine<E>, c: nat)
    requires Paired(cmds) && Abreast(cmds, m, f) && InBounds(m.np) && InBounds(f.np) && !f.done
    requires f.np.fpos == c < |cmds| && m.np.fpos == Rank(cmds, c) && !Blank(cmds[c])
    ensures var m', f' := Advance(run, Strip(cmds), m), Advance(run, cmds, f);
            Abreast(cmds, m', f') && m'.ok == f'.ok
  {
    hide ParseCommand, Accepts, Related, StripTo;
    var places := Ranks(cmds);
    Stripped(cmds, c, |cmds|);
    AtRank(cmds, c);
    AtRank(cmds, c + 1);
    var a := m.np.(foffs := Rank(cmds, c), loffs := 0, fpos := Rank(cmds, c) + 1, jump := false);
    var b := f.np.(foffs := c, loffs := 0, fpos := c + 1, jump := false);
    AlikeMoved(places, m.np, f.np, a, b);
    ParseCommandRelated(places, run, a, b, m.env, cmds[c].words);
    var x, y := ParseCommand(run, a, m.env, cmds[c].words), ParseCommand(run, b, m.env, cmds[c].words);
    RelatedAlike(places, x.np, y.np);
    if cmds[c].open {
      Stripped(cmds, c + 1, |cmds|);
      AtRank(cmds, c + 2);
      AlikePlaces(places, x.np, y.np, Rank(cmds, c) + 2, c + 2);
    }
  }

  lemma AlikePlaces(places: Places, a: Np, b: Np, x: int, y: int)
    requires Alike(places, a, b)
    ensures Alike(places, a.(fpos := x), b.(fpos := y))
  {}

  lemma EndStep<E>(run: Behaviour<E>, cmds: Script, m: Machine<E>)
    requires InBounds(m.np) && !m.done && m.np.fpos == |cmds|
    ensures Advance(run, cmds, m) == m.(done := true)
  {}

  /** Where both are. */
  lemma Whereabouts<E>(cmds: Script, m: Machine<E>, f: Machine<E>) returns (c: nat)
    requires Abreast(cmds, m, f) && !f.done
    ensures InBounds(m.np) && InBounds(f.np) && c <= |cmds| && m.np.fpos == Rank(cmds, c) && f.np.fpos == c
  {
    AlikeBounds(Ranks(cmds), m.np, f.np);
    c :| 0 <= c <= |cmds| && (m.np.fpos, f.np.fpos) == (Rank(cmds, c) as int, c as int);
  }

  lemma BlankAbreast<E>(cmds: Script, m: Machine<E>, f: Machine<E>, f': Machine<E>, c: nat)
    requires Paired(cmds) && Abreast(cmds, m, f) && !f.done && InBounds(f.np)
    requires f.np.fpos == c < |cmds| && m.np.fpos == Rank(cmds, c) && Blank(cmds[c])
    requires m.ok || m.np.fpos == 0
    requires f' == Machine(f.np.(foffs := c, loffs := 0, fpos := c + 1, jump := false), f.env, true, false)
    ensures Abreast(cmds, m, f')
  {
    hide Related;
    Stripped(cmds, c, |cmds|);
    AtRank(cmds, c + 1);
    AlikeMoved(Ranks(cmds), m.np, f.np, m.np.(foffs := 0), f'.np);
    RelatedAlike(Ranks(cmds), m.np.(foffs := 0), f'.np);
  }

  /** A machine that has not stopped has the status of a success, unless it stands where it started. */
  ghost predicate Fine<E>(m: Machine<E>) {
    !m.done ==> m.ok || m.np.fpos == 0
  }

  lemma AdvanceFine<E>(run: Behaviour<E>, cmds: Script, m: Machine<E>)
    requires InBounds(m.np) && Fine(m)
    ensures Fine(Advance(run, cmds, m))
  {}

  /** Any number of steps over the whole list are steps over the stripped list. */
  lemma {:induction false} Lead<E>(run: Behaviour<E>, cmds: Script, m: Machine<E>, f: Machine<E>, n: nat)
    returns (k: nat)
    requires Paired(cmds) && Abreast(cmds, m, f) && InBounds(m.np) && InBounds(f.np) && Fine(m) && Strip(cmds) != []
    ensures Abreast(cmds, Iterate(run, Strip(cmds), m, k), Iterate(run, cmds, f, n))
    ensures k <= n
    decreases n
  {
    hide Advance, Iterate, Abreast, Fine;
    Never(run, cmds, f);
    Never(run, Strip(cmds), m);
    if n == 0 {
      k := 0;
    } else {
      var j, m1 := LeadOnce(run, cmds, m, f);
      k := Lead(run, cmds, m1, Advance(run, cmds, f), n - 1);
      Once(run, cmds, f);
      Chain(run, cmds, f, 1, Advance(run, cmds, f), n - 1, Iterate(run, cmds, Advance(run, cmds, f), n - 1));
      Chain(run, Strip(cmds), m, j, m1, k, Iterate(run, Strip(cmds), m1, k));
      k := j + k;
    }
  }

  lemma LeadOnce<E>(run: Behaviour<E>, cmds: Script, m: Machine<E>, f: Machine<E>) returns (j: nat, m1: Machine<E>)
    requires Paired(cmds) && Abreast(cmds, m, f) && InBounds(m.np) && InBounds(f.np) && Fine(m) && Strip(cmds) != []
    ensures j <= 1 && Iterate(run, Strip(cmds), m, j) == m1
    ensures InBounds(m1.np) && Fine(m1) && Abreast(cmds, m1, Advance(run, cmds, f))
  {
    hide Iterate, StripTo, Alike, ParseCommand;
    Never(run, Strip(cmds), m);
    Once(run, Strip(cmds), m);
    if f.done {
      j, m1 := 0, m;
    } else {
      var c := Whereabouts(cmds, m, f);
      if c == |cmds| {
        EndStep(run, cmds, f);
        EndStep(run, Strip(cmds), m);
        j, m1 := 1, Advance(run, Strip(cmds), m);
      } else if Blank(cmds[c]) {
        BlankStep(run, cmds, f, c);
        BlankAbreast(cmds, m, f, Advance(run, cmds, f), c);
        j, m1 := 0, m;
      } else {
        BothStep(run, cmds, m, f, c);
        AdvanceFine(run, Strip(cmds), m);
        j, m1 := 1, Advance(run, Strip(cmds), m);
      }
    }
  }

  /** Any number of steps over the stripped list are steps over the whole list. */
  lemma {:induction false} Follow<E>(run: Behaviour<E>, cmds: Script, m: Machine<E>, f: Machine<E>, n: nat)
    returns (k: nat)
    requires Paired(cmds) && Abreast(cmds, m, f) && InBounds(m.np) && InBounds(f.np) && Fine(m) && Strip(cmds) != []
    ensures Abreast(cmds, Iterate(run, Strip(cmds), m, n), Iterate(run, cmds, f, k))
    decreases n
  {
    hide Advance, Iterate, Abreast, Fine;
    Never(run, cmds, f);
    Never(run, Strip(cmds), m);
    if n == 0 {
      k := 0;
    } else {
      var j, f1 := FollowOnce(run, cmds, m, f);
      var m1 := Advance(run, Strip(cmds), m);
      AdvanceFine(run, Strip(cmds), m);
      k := Follow(run, cmds, m1, f1, n - 1);
      Once(run, Strip(cmds), m);
      Chain(run, Strip(cmds), m, 1, m1, n - 1, Iterate(run, Strip(cmds), m1, n - 1));
      Chain(run, cmds, f, j, f1, k, Iterate(run, cmds, f1, k));
      k := j + k;
    }
  }

  /** Over the blank commands before it, and the command. */
  lemma {:induction false} FollowOnce<E>(run: Behaviour<E>, cmds: Script, m: Machine<E>, f: Machine<E>)
    returns (j: nat, f1: Machine<E>)
    requires Paired(cmds) && Abreast(cmds, m, f) && InBounds(m.np) && InBounds(f.np) && Fine(m) && Strip(cmds) != []
    ensures Iterate(run, cmds, f, j) == f1 && InBounds(f1.np) && Abreast(cmds, Advance(run, Strip(cmds), m), f1)
    decreases |cmds| - f.np.fpos
  {
    hide Iterate, StripTo, Alike, ParseCommand;
    Never(run, cmds, f);
    Once(run, cmds, f);
    if f.done {
      j, f1 := 0, f;
    } else {
      var c := Whereabouts(cmds, m, f);
      f1 := Advance(run, cmds, f);
      j := 1;
      if c == |cmds| {
        EndStep(run, cmds, f);
        EndStep(run, Strip(cmds), m);
      } else if Blank(cmds[c]) {
        BlankStep(run, cmds, f, c);
        BlankAbreast(cmds, m, f, f1, c);
        var f0 := f1;
        j, f1 := FollowOnce(run, cmds, m, f0);
        Chain(run, cmds, f, 1, f0, j, f1);
        j := 1 + j;
      } else {
        BothStep(run, cmds, m, f, c);
      }
    }
  }

  /** A list of blank commands does nothing. */
  lemma {:induction false} AllBlank<E>(run: Behaviour<E>, cmds: Script, f: Machine<E>, c: nat) returns (k: nat)
    requires Paired(cmds) && Strip(cmds) == [] && InBounds(f.np) && !f.done && f.np.fpos == c <= |cmds|
    requires f.ok || c == 0
    ensures var f' := Iterate(run, cmds, f, k);
            && f'.done && f'.env == f.env && (f'.ok <==> f.ok || cmds != [])
            && f'.np == f.np.(foffs := f'.np.foffs, loffs := f'.np.loffs, fpos := f'.np.fpos, jump := f'.np.jump)
    decreases |cmds| - c
  {
    hide Advance, Iterate, StripTo;
    Once(run, cmds, f);
    var f1 := Advance(run, cmds, f);
    if c == |cmds| {
      EndStep(run, cmds, f);
      k := 1;
    } else {
      Stripped(cmds, c, |cmds|);
      BlankStep(run, cmds, f, c);
      k := AllBlank(run, cmds, f1, c + 1);
      Chain(run, cmds, f, 1, f1, k, Iterate(run, cmds, f1, k));
      k := 1 + k;
    }
  }
}
