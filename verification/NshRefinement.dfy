/** The byte-offset machine refines the machine over cells. */
module NshRefinement {
  import opened NshMachine
  import opened NshCommands
  import opened NshText
  import opened NshBytes

  // ----- one command: the two machines differ only in what a position is -----

  /** `c` and `o` are the cell and the byte at which one and the same command of the file starts. */
  type Places = set<(int, int)>

  predicate SlotsRelated(x: LoopSlot, y: LoopSlot) {
    x.state == y.state && x.enable == y.enable && x.iendx == y.iendx
  }

  ghost predicate LoopsRelated(places: Places, a: seq<LoopSlot>, b: seq<LoopSlot>, live: nat) {
    && |a| == |b|
    && (forall i :: 0 <= i < |a| ==> SlotsRelated(a[i], b[i]))
    && (a != [] ==> a[0].topoffs == b[0].topoffs)
    && (forall i :: 1 <= i <= live < |a| ==> (a[i].topoffs, b[i].topoffs) in places)
  }

  /** Equal parser states, except that loop tops are cells in `a` and file offsets in `b`. */
  ghost predicate Related(places: Places, a: Np, b: Np) {
    && InBounds(a) && InBounds(b)
    && a.ie == b.ie && a.iendx == b.iendx && a.lpndx == b.lpndx
    && a.fail == b.fail && a.stream == b.stream
    && a.foffs >= 0 && b.foffs >= 0
    && LoopsRelated(places, a.lp, b.lp, a.lpndx)
  }

  /** The same, wherever the two are in the file. */
  ghost predicate Alike(places: Places, a: Np, b: Np) {
    Related(places, a.(foffs := 0), b.(foffs := 0))
  }

  lemma AlikeBounds(places: Places, a: Np, b: Np)
    requires Alike(places, a, b)
    ensures InBounds(a) && InBounds(b)
  {}

  lemma RelatedAlike(places: Places, a: Np, b: Np)
    requires Related(places, a, b)
    ensures Alike(places, a, b)
  {}

  /** About to run a command at other places. */
  lemma AlikeMoved(places: Places, a: Np, b: Np, a': Np, b': Np)
    requires Alike(places, a, b)
    requires a' == a.(foffs := a'.foffs, loffs := a'.loffs, fpos := a'.fpos, jump := a'.jump) && a'.foffs >= 0
    requires b' == b.(foffs := b'.foffs, loffs := b'.loffs, fpos := b'.fpos, jump := b'.jump) && b'.foffs >= 0
    ensures Related(places, a', b') && InBounds(a') && InBounds(b')
  {}

  /** A command that starts a loop. */
  predicate IsLoopHead(words: seq<string>) {
    KeywordOf(words) == KwWhile || KeywordOf(words) == KwUntil
  }

  ghost predicate RelatedControl(places: Places, a: Control, b: Control) {
    && (a.Proceed? <==> b.Proceed?) && Related(places, a.np, b.np)
    && (a.Proceed? ==> a.words == b.words)
  }

  ghost predicate SameMove(places: Places, a: Np, a': Np, b: Np, b': Np) {
    && a'.jump == b'.jump
    && (if a'.jump then (a'.fpos, b'.fpos) in places else a'.fpos == a.fpos && b'.fpos == b.fpos)
  }

  lemma ResetRelated(places: Places, a: Np, b: Np)
    requires Related(places, a, b)
    ensures Related(places, ResetLoop(a), ResetLoop(b)) && Related(places, ResetItef(a), ResetItef(b))
  {}

  lemma PushLoopRelated(places: Places, a: Np, b: Np, state: LoopState)
    requires Related(places, a, b) && a.lpndx + 1 < |a.lp|
    requires (a.foffs + a.loffs, b.foffs + b.loffs) in places
    ensures Related(places, PushLoop(a, state), PushLoop(b, state))
  {}

  lemma SetLoopRelated(places: Places, a: Np, b: Np, state: LoopState, enable: bool)
    requires Related(places, a, b)
    ensures Related(places, SetLoop(a, a.Lp().(state := state)), SetLoop(b, b.Lp().(state := state)))
    ensures Related(places, SetLoop(a, a.Lp().(enable := enable)), SetLoop(b, b.Lp().(enable := enable)))
  {}

  lemma PopLoopRelated(places: Places, a: Np, b: Np)
    requires Related(places, a, b) && a.lpndx > 0 && !a.jump && !b.jump
    ensures Related(places, PopLoop(a), PopLoop(b)) && SameMove(places, a, PopLoop(a), b, PopLoop(b))
  {}

  lemma TopRelated(places: Places, a: Np, b: Np)
    requires Related(places, a, b)
    ensures |a.lp| == |b.lp| == |a.ie| == |b.ie| && a.iendx < |a.ie| && a.lpndx < |a.lp|
    ensures SlotsRelated(a.Lp(), b.Lp()) && a.Ie() == b.Ie()
  {}

  lemma LoopEffectRelated(places: Places, a: Np, b: Np, words: seq<string>)
    requires Related(places, a, b) && !a.jump && !b.jump
    requires IsLoopHead(words) ==> (a.foffs + a.loffs, b.foffs + b.loffs) in places
    requires LoopFaultOf(a, words) == LoopFaultOf(b, words) == NoFault
    ensures Related(places, LoopEffect(a, words), LoopEffect(b, words))
    ensures SameMove(places, a, LoopEffect(a, words), b, LoopEffect(b, words))
  {
    hide Related, PopLoop;
    TopRelated(places, a, b);
    match KeywordOf(words)
    case KwWhile => PushLoopRelated(places, a, b, LoopWhile);
    case KwUntil => PushLoopRelated(places, a, b, LoopUntil);
    case KwDo => SetLoopRelated(places, a, b, LoopDo, true);
    case KwDone => PopLoopRelated(places, a, b);
    case _ =>
  }

  lemma LoopStepRelated(places: Places, a: Np, b: Np, words: seq<string>)
    requires Related(places, a, b) && !a.jump && !b.jump
    requires IsLoopHead(words) ==> (a.foffs + a.loffs, b.foffs + b.loffs) in places
    ensures RelatedControl(places, LoopStep(a, words), LoopStep(b, words))
    ensures SameMove(places, a, LoopStep(a, words).np, b, LoopStep(b, words).np)
  {
    hide LoopsRelated, LoopFault, LoopEffect;
    TopRelated(places, a, b);
    ResetRelated(places, a, b);
    if LoopFaultOf(a, words) == NoFault {
      LoopEffectRelated(places, a, b, words);
    }
  }

  lemma ItefEffectRelated(places: Places, a: Np, b: Np, words: seq<string>)
    requires Related(places, a, b) && ItefFaultOf(a, words) == ItefFaultOf(b, words) == NoFault
    ensures Related(places, ItefEffect(a, words), ItefEffect(b, words))
    ensures ItefEffect(a, words).fpos == a.fpos && ItefEffect(b, words).fpos == b.fpos
    ensures ItefEffect(a, words).jump == a.jump && ItefEffect(b, words).jump == b.jump
  {
    hide Related;
    TopRelated(places, a, b);
    match KeywordOf(words)
    case KwIf => PushItefRelated(places, a, b);
    case KwThen => SetItefRelated(places, a, b, a.Ie().(state := ItefThen));
    case KwElse => SetItefRelated(places, a, b, a.Ie().(state := ItefElse));
    case KwFi => PopItefRelated(places, a, b);
    case _ =>
  }

  lemma PushItefRelated(places: Places, a: Np, b: Np)
    requires Related(places, a, b) && a.iendx + 1 < |a.ie|
    ensures Related(places, PushItef(a), PushItef(b))
  {
    hide LoopsRelated;
    TopRelated(places, a, b);
  }

  lemma SetItefRelated(places: Places, a: Np, b: Np, slot: IfSlot)
    requires Related(places, a, b)
    ensures Related(places, SetItef(a, slot), SetItef(b, slot))
  {
    hide LoopsRelated;
  }

  lemma PopItefRelated(places: Places, a: Np, b: Np)
    requires Related(places, a, b) && a.iendx > 0
    ensures Related(places, a.(iendx := a.iendx - 1), b.(iendx := b.iendx - 1))
  {
    hide LoopsRelated;
  }

  lemma SetFailRelated(places: Places, a: Np, b: Np, fail: bool)
    requires Related(places, a, b)
    ensures Related(places, a.(fail := fail), b.(fail := fail))
  {
    hide LoopsRelated;
  }

  lemma ItefStepRelated(places: Places, a: Np, b: Np, words: seq<string>)
    requires Related(places, a, b)
    ensures RelatedControl(places, ItefStep(a, words), ItefStep(b, words))
    ensures ItefStep(a, words).np.fpos == a.fpos && ItefStep(b, words).np.fpos == b.fpos
    ensures ItefStep(a, words).np.jump == a.jump && ItefStep(b, words).np.jump == b.jump
  {
    hide LoopsRelated, ItefFault, ItefEffect;
    TopRelated(places, a, b);
    ResetRelated(places, a, b);
    if ItefFaultOf(a, words) == NoFault {
      ItefEffectRelated(places, a, b, words);
    }
  }

  lemma SaveResultRelated(places: Places, a: Np, b: Np, failed: bool)
    requires Related(places, a, b)
    ensures Related(places, SaveResult(a, failed), SaveResult(b, failed))
    ensures SaveResult(a, failed).fpos == a.fpos && SaveResult(a, failed).jump == a.jump
  {
    hide Related;
    TopRelated(places, a, b);
    SetLoopRelated(places, a, b, LoopDo, failed);
    SetLoopRelated(places, a, b, LoopDo, !failed);
    SetItefRelated(places, a, b, a.Ie().(ifcond := failed));
    SetFailRelated(places, a, b, failed);
    SetFailRelated(places, SetLoop(a, a.Lp().(enable := failed)), SetLoop(b, b.Lp().(enable := failed)), false);
    SetFailRelated(places, SetLoop(a, a.Lp().(enable := !failed)), SetLoop(b, b.Lp().(enable := !failed)), false);
    SetFailRelated(places, SetItef(a, a.Ie().(ifcond := failed)), SetItef(b, a.Ie().(ifcond := failed)), false);
  }

  lemma FinishRelated<E>(places: Places, a: Np, b: Np, env: E, failed: bool)
    requires Related(places, a, b)
    ensures var x, y := Finish(a, env, failed), Finish(b, env, failed);
            && Related(places, x.np, y.np) && x.ok == y.ok && x.env == y.env
            && x.np.fpos == a.fpos && y.np.fpos == b.fpos && x.np.jump == a.jump && y.np.jump == b.jump
  {
    hide LoopsRelated;
    TopRelated(places, a, b);
    SaveResultRelated(places, a, b, failed);
  }

  lemma BreakRelated(places: Places, a: Np, b: Np)
    requires Related(places, a, b)
    ensures var x, y := CmdBreak(a), CmdBreak(b);
            && Related(places, x, y)
            && x.fpos == a.fpos && y.fpos == b.fpos && x.jump == a.jump && y.jump == b.jump
  {}

  lemma ParseCommandRelated<E>(places: Places, run: Behaviour<E>, a: Np, b: Np, env: E, words: seq<string>)
    requires Related(places, a, b) && !a.jump && !b.jump
    requires IsLoopHead(words) ==> (a.foffs + a.loffs, b.foffs + b.loffs) in places
    ensures var x, y := ParseCommand(run, a, env, words), ParseCommand(run, b, env, words);
            && Related(places, x.np, y.np) && x.env == y.env && x.ok == y.ok
            && SameMove(places, a, x.np, b, y.np)
    ensures Accepts(a, words) <==> Accepts(b, words)
  {
    hide LoopStep, ItefStep, CmdBreak, Finish, LoopsRelated;
    var x, y := LoopStep(a, words), LoopStep(b, words);
    LoopStepRelated(places, a, b, words);
    if x.Reject? {
      FinishRelated(places, x.np, y.np, env, true);
    } else {
      var v, w := ItefStep(x.np, x.words), ItefStep(y.np, y.words);
      ItefStepRelated(places, x.np, y.np, x.words);
      if v.Reject? {
        FinishRelated(places, v.np, w.np, env, true);
      } else {
        EnabledRelated(places, v.np, w.np);
        if v.words != [] && CmdEnabled(v.np) {
          var argv := Argv(v.words);
          var r := run(env, v.np.fail, argv);
          BreakRelated(places, v.np, w.np);
          FinishRelated(places, CmdBreak(v.np), CmdBreak(w.np), env, false);
          FinishRelated(places, v.np, w.np, env, true);
          FinishRelated(places, v.np, w.np, r.0, r.1);
        }
      }
    }
  }

  lemma EnabledRelated(places: Places, a: Np, b: Np)
    requires Related(places, a, b)
    ensures CmdEnabled(a) == CmdEnabled(b) && a.fail == b.fail
  {}

  // ----- a keyword and a command in one -----

  /** `then`, `else` or `do` with a command after it. */
  predicate Opens(words: seq<string>) {
    && |words| >= 2
    && match KeywordOf(words)
       case KwDo => KeywordOf(words[1..]) in {KwIf, KwThen, KwElse, KwFi, KwBreak, Other}
       case KwThen => KeywordOf(words[1..]) in {KwBreak, Other}
       case KwElse => KeywordOf(words[1..]) in {KwBreak, Other}
       case _ => false
  }

  function CellsOf(words: seq<string>): (cells: Script)
    ensures 1 <= |cells| <= 2
  {
    if Opens(words) then [Cell([words[0]], true), Cell(words[1..], false)] else [Cell(words, false)]
  }

  /** Such a command runs as the keyword and then the rest, unless the keyword is rejected. */
  lemma OpensSplits<E>(run: Behaviour<E>, np: Np, env: E, words: seq<string>)
    requires InBounds(np) && Opens(words)
    ensures var r := ParseCommand(run, np, env, [words[0]]);
            if Accepts(np, [words[0]]) then
              && r.ok && r.env == env && r.np.fpos == np.fpos && r.np.jump == np.jump
              && ParseCommand(run, np, env, words) == ParseCommand(run, r.np, env, words[1..])
            else
              ParseCommand(run, np, env, words) == r && (!np.jump ==> !r.np.jump)
  {
    if KeywordOf(words) == KwDo { DoSplits(run, np, env, words); } else { BranchSplits(run, np, env, words); }
  }

  lemma DoSplits<E>(run: Behaviour<E>, np: Np, env: E, words: seq<string>)
    requires InBounds(np) && Opens(words) && KeywordOf(words) == KwDo
    ensures var r := ParseCommand(run, np, env, [words[0]]);
            if Accepts(np, [words[0]]) then
              && r.ok && r.env == env && r.np.fpos == np.fpos && r.np.jump == np.jump
              && ParseCommand(run, np, env, words) == ParseCommand(run, r.np, env, words[1..])
            else
              ParseCommand(run, np, env, words) == r && !r.np.jump
  {
    hide ItefStep, Execute;
    var np1 := SetLoop(np, np.Lp().(state := LoopDo));
    PassesNothing(np1);
    if AwaitsDo(np) {
      PassesLoop(np1, words[1..]);
      assert LoopStep(np, words) == Proceed(np1, words[1..]);
      assert LoopStep(np, [words[0]]) == Proceed(np1, []);
    }
  }

  lemma BranchSplits<E>(run: Behaviour<E>, np: Np, env: E, words: seq<string>)
    requires InBounds(np) && Opens(words) && (KeywordOf(words) == KwThen || KeywordOf(words) == KwElse)
    ensures var r := ParseCommand(run, np, env, [words[0]]);
            if Accepts(np, [words[0]]) then
              && r.ok && r.env == env && r.np.fpos == np.fpos && r.np.jump == np.jump
              && ParseCommand(run, np, env, words) == ParseCommand(run, r.np, env, words[1..])
            else
              ParseCommand(run, np, env, words) == r && (!np.jump ==> !r.np.jump)
  {
    hide LoopStep, Execute;
    if AwaitsDo(np) {
      AwaitingRejects(np, words);
      AwaitingRejects(np, [words[0]]);
    } else {
      PassesLoop(np, words);
      PassesLoop(np, [words[0]]);
      var a := ItefStep(np, [words[0]]);
      if a.Proceed? {
        PassesLoop(a.np, words[1..]);
        PassesItef(a.np, words[1..]);
      }
    }
  }

  lemma AwaitingRejects(np: Np, words: seq<string>)
    requires InBounds(np) && AwaitsDo(np) && (KeywordOf(words) == KwThen || KeywordOf(words) == KwElse)
    ensures LoopStep(np, words) == Reject(ResetLoop(np), BadContext)
  {}

  // ----- one command of the file -----

  /** The result of one command or line on bytes, and the machine over cells after it. */
  ghost predicate Tracks<E>(places: Places, m: Machine<E>, y: Step<E>) {
    && InBounds(m.np) && Related(places, m.np, y.np)
    && m.env == y.env && m.ok == y.ok && m.done == !y.ok
  }

  lemma CommandRefines<E>(
    places: Places, run: Behaviour<E>, cmds: Script, m: Machine<E>, c: nat, b: Np, words: seq<string>)
    returns (k: nat)
    requires InBounds(m.np) && !m.done && m.np.fpos == c && Alike(places, m.np, b) && b.foffs >= 0 && !b.jump
    requires c + |CellsOf(words)| <= |cmds| && cmds[c..c + |CellsOf(words)|] == CellsOf(words)
    requires IsLoopHead(words) ==> (c as int, b.foffs + b.loffs) in places
    ensures 1 <= k <= 2
    ensures var m', y := Iterate(run, cmds, m, k), ParseCommand(run, b, m.env, words);
            && Tracks(places, m', y)
            && (if y.np.jump then (m'.np.fpos, y.np.fpos) in places
                else m'.np.fpos == c + |CellsOf(words)| && y.np.fpos == b.fpos)
  {
    hide ParseCommand, LoopsRelated, Accepts;
    var a := m.np.(foffs := c, loffs := 0, fpos := c + 1, jump := false);
    AlikeMoved(places, m.np, b, a, b);
    var m1 := Advance(run, cmds, m);
    Once(run, cmds, m);
    assert cmds[c] == CellsOf(words)[0];
    ParseCommandRelated(places, run, a, b, m.env, cmds[c].words);
    if !Opens(words) {
      k := 1;
    } else {
      assert cmds[c + 1] == CellsOf(words)[1];
      OpensSplits(run, b, m.env, words);
      if !Accepts(b, [words[0]]) {
        k := 1;
      } else {
        var y1 := ParseCommand(run, b, m.env, [words[0]]);
        var a1 := m1.np.(foffs := c + 1, loffs := 0, fpos := c + 2, jump := false);
        ParseCommandRelated(places, run, a1, y1.np, m.env, words[1..]);
        Twice(run, cmds, m, m1, Advance(run, cmds, m1));
        k := 2;
      }
    }
  }
}
