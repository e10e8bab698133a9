/** What every command keeps, well formed or not: both stack indices stay inside their arrays, the
    bottom slots stay NORMAL, and every loop under the top one is in its body. */
module NshInvariant {
  import opened NshMachine

  ghost predicate Valid(np: Np) {
    && InBounds(np)
    && np.ie[0] == IfSlot(ItefNormal, false, false)
    && np.lp[0].state == LoopNormal
    && (forall i :: 1 <= i <= np.lpndx ==> np.lp[i].state != LoopNormal)
    && (forall i :: 1 <= i < np.lpndx ==> np.lp[i].state == LoopDo)
  }

  lemma FreshValid(depth: nat)
    requires depth > 0
    ensures Valid(Fresh(depth))
  {}

  lemma ValidBounds(np: Np)
    requires Valid(np)
    ensures InBounds(np)
  {}

  /** The "Shouldn't happen" branch of `done` is dead. */
  lemma LoopStepValid(np: Np, words: seq<string>)
    requires Valid(np)
    ensures Valid(LoopStep(np, words).np)
    ensures LoopStep(np, words).Reject? ==> LoopStep(np, words).fault != InternalError
  {
    hide LoopFaultOf, LoopEffect, ResetLoop, Valid;
    FailValid(np, np.fail);
    if LoopFaultOf(np, words) == NoFault {
      LoopEffectValid(np, words);
    } else {
      ResetLoopValid(np);
      NoLoopError(np, words);
    }
  }

  lemma LoopEffectValid(np: Np, words: seq<string>)
    requires Valid(np) && LoopFaultOf(np, words) == NoFault
    ensures Valid(LoopEffect(np, words))
  {}

  lemma ResetLoopValid(np: Np)
    requires Valid(np)
    ensures Valid(ResetLoop(np))
  {}

  lemma NoLoopError(np: Np, words: seq<string>)
    requires Valid(np)
    ensures LoopFaultOf(np, words) != InternalError
  {}

  /** The "Shouldn't happen" branch of `fi` is dead. */
  lemma ItefStepValid(np: Np, words: seq<string>)
    requires Valid(np)
    ensures Valid(ItefStep(np, words).np)
    ensures ItefStep(np, words).Reject? ==> ItefStep(np, words).fault != InternalError
  {}

  lemma SaveResultValid(np: Np, failed: bool)
    requires Valid(np)
    ensures Valid(SaveResult(np, failed))
  {
    hide Valid, SetLoop, SetItef;
    FailValid(np, failed);
    TopLoopValid(np, !failed);
    TopLoopValid(np, failed);
    TopItefValid(np, failed);
  }

  lemma TopLoopValid(np: Np, enable: bool)
    requires Valid(np)
    ensures Valid(SetLoop(np, np.Lp().(enable := enable)).(fail := false))
  {}

  lemma TopItefValid(np: Np, failed: bool)
    requires Valid(np)
    ensures np.Ie().state == ItefIf ==> Valid(SetItef(np, np.Ie().(ifcond := failed)).(fail := false))
  {}

  lemma FailValid(np: Np, failed: bool)
    requires Valid(np)
    ensures InBounds(np) && Valid(np.(fail := failed))
  {}

  lemma CmdBreakValid(np: Np)
    requires Valid(np)
    ensures Valid(CmdBreak(np))
  {}

  lemma ExecuteValid<E>(run: Behaviour<E>, np: Np, env: E, argv: seq<string>)
    requires Valid(np) && argv != []
    ensures Valid(Execute(run, np, env, argv).np)
  {
    hide SaveResult, CmdBreak, Valid;
    ValidBounds(np);
    CmdBreakValid(np);
    SaveResultValid(np, true);
    SaveResultValid(CmdBreak(np), false);
    SaveResultValid(np, run(env, np.fail, argv).1);
  }

  lemma ParseCommandValid<E>(run: Behaviour<E>, np: Np, env: E, words: seq<string>)
    requires Valid(np)
    ensures Valid(ParseCommand(run, np, env, words).np)
  {
    LoopStepValid(np, words);
    var a := LoopStep(np, words);
    if a.Reject? {
      SaveResultValid(a.np, true);
    } else {
      ItefStepValid(a.np, a.words);
      var b := ItefStep(a.np, a.words);
      if b.Reject? {
        SaveResultValid(b.np, true);
      } else if b.words != [] && CmdEnabled(b.np) {
        ExecuteValid(run, b.np, env, Argv(b.words));
      }
    }
  }

  // ----- which commands are refused, and what becomes of them -----

  /** The commands that nsh_loop lets pass. */
  lemma LoopWordsExact(np: Np, words: seq<string>)
    requires Valid(np)
    ensures LoopStep(np, words).Proceed? <==>
              || words == []
              || (AwaitsDo(np) && words[0] == "do")
              || (np.Lp().state == LoopDo && words == ["done"])
              || (!AwaitsDo(np) && words[0] !in {"while", "until", "do", "done"})
              || (&& !AwaitsDo(np) && words[0] in {"while", "until"} && |words| > 1 && np.Ie().state != ItefIf
                  && np.stream && np.foffs >= 0 && np.lpndx < np.Depth() - 1)
  {
    NoLoopError(np, words);
    assert |words| == 1 ==> words == [words[0]];
  }

  /** The commands that nsh_itef lets pass. */
  lemma ItefWordsExact(np: Np, words: seq<string>)
    requires Valid(np)
    ensures ItefStep(np, words).Proceed? <==>
              || words == []
              || (np.Ie().state == ItefIf && words[0] == "then")
              || (np.Ie().state == ItefThen && words[0] == "else")
              || (np.Ie().state in {ItefThen, ItefElse} && words == ["fi"])
              || (np.Ie().state != ItefIf && words[0] !in {"if", "then", "else", "fi"})
              || (np.Ie().state != ItefIf && words[0] == "if" && |words| > 1 && np.iendx < np.Depth() - 1)
  {
    ItefStepValid(np, words);
    assert |words| == 1 ==> words == [words[0]];
  }

  /** A command that is refused is not run and clears the stack of its own kind.  It ends the script with an error
      exactly if no condition is waited for: where an `if` waits for its condition, or a loop head is followed by an
      `if` word that is out of place, the refusal counts as a condition that failed. */
  lemma RefusalExact<E>(run: Behaviour<E>, np: Np, env: E, words: seq<string>)
    requires Valid(np) && !Accepts(np, words)
    ensures var r := ParseCommand(run, np, env, words);
            && r.env == env
            && (if LoopStep(np, words).Reject?
                then
                  && r.np.lpndx == 0 && r.np.lp[0] == LoopSlot(LoopNormal, true, np.lp[0].iendx, 0) && !r.np.jump
                  && r.np.iendx == np.iendx && (r.ok <==> np.Ie().state == ItefIf)
                else
                  && r.np.iendx == 0 && r.np.ie[0] == IfSlot(ItefNormal, false, false)
                  && words != [] && (r.ok <==> words[0] in {"while", "until"}))
            && (!r.ok ==> r.np.fail)
  {
    LoopWordsExact(np, words);
  }

  /** One command of a session.  The driver may change stream, offsets and read position at will
      between commands: interactive input, a script, a jump. */
  datatype Event = Event(words: seq<string>, stream: bool, foffs: int, loffs: nat, fpos: int)

  function Deliver<E>(run: Behaviour<E>, np: Np, env: E, e: Event): Step<E>
    requires InBounds(np)
  {
    ParseCommand(run, np.(stream := e.stream, foffs := e.foffs, loffs := e.loffs, fpos := e.fpos, jump := false),
                 env, e.words)
  }

  /** The state after a whole session; a failing command does not end it. */
  function Session<E>(run: Behaviour<E>, np: Np, env: E, events: seq<Event>): (r: (Np, E))
    requires InBounds(np)
    ensures InBounds(r.0)
    decreases |events|
  {
    if events == [] then (np, env)
    else
      var s := Deliver(run, np, env, events[0]);
      Session(run, s.np, s.env, events[1..])
  }

  /** Over every session whatever, the invariant holds in the end, so every reachable state has it. */
  lemma {:induction false} SessionValid<E>(run: Behaviour<E>, np: Np, env: E, events: seq<Event>)
    requires Valid(np)
    ensures Valid(Session(run, np, env, events).0)
    decreases |events|
  {
    if events != [] {
      var e := events[0];
      var np0 := np.(stream := e.stream, foffs := e.foffs, loffs := e.loffs, fpos := e.fpos, jump := false);
      ParseCommandValid(run, np0, env, e.words);
      var s := Deliver(run, np, env, e);
      SessionValid(run, s.np, s.env, events[1..]);
    }
  }

  /** Neither "Shouldn't happen" branch is taken anywhere in any session. */
  lemma NoInternalError<E>(run: Behaviour<E>, depth: nat, env: E, events: seq<Event>, words: seq<string>)
    requires depth > 0
    ensures var np := Session(run, Fresh(depth), env, events).0;
            && np.iendx < depth && np.lpndx < depth
            && LoopStep(np, words) != Reject(LoopStep(np, words).np, InternalError)
            && (LoopStep(np, words).Proceed? ==>
                  var c := LoopStep(np, words);
                  ItefStep(c.np, c.words) != Reject(ItefStep(c.np, c.words).np, InternalError))
  {
    FreshValid(depth);
    SessionDepth(run, Fresh(depth), env, events);
    SessionValid(run, Fresh(depth), env, events);
    var np := Session(run, Fresh(depth), env, events).0;
    LoopStepValid(np, words);
    if LoopStep(np, words).Proceed? {
      ItefStepValid(LoopStep(np, words).np, LoopStep(np, words).words);
    }
  }

  /** After every session the bottom slots are NORMAL, every loop under the top one is in its body, and the loop stack
      is at its base exactly if no loop is open. */
  lemma SessionSlots<E>(run: Behaviour<E>, depth: nat, env: E, events: seq<Event>, i: nat)
    requires depth > 0
    ensures var np := Session(run, Fresh(depth), env, events).0;
            && np.ie[0] == IfSlot(ItefNormal, false, false) && np.lp[0].state == LoopNormal
            && (np.Lp().state == LoopNormal <==> np.lpndx == 0)
            && (1 <= i < np.lpndx ==> np.lp[i].state == LoopDo)
  {
    hide Session;
    FreshValid(depth);
    SessionValid(run, Fresh(depth), env, events);
  }

  lemma {:induction false} SessionDepth<E>(run: Behaviour<E>, np: Np, env: E, events: seq<Event>)
    requires InBounds(np)
    ensures Session(run, np, env, events).0.Depth() == np.Depth()
    decreases |events|
  {
    if events != [] {
      var s := Deliver(run, np, env, events[0]);
      SessionDepth(run, s.np, s.env, events[1..]);
    }
  }
}
