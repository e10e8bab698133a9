/** The control core of the NuttShell (NSH) script interpreter.

    NSH runs `if/then/else/fi`, `while|until/do/done` and `break` without a syntax tree: it keeps two
    bounded stacks, decides for each command whether it is enabled, and seeks back in the script file
    to repeat a loop.  This module gives that core as functions on a value `Np`, one function for each
    function of the C source; class `NshParser.Parser` runs the same steps in place.

    What a plain command does is left open: a `Behaviour` maps an environment, the last exit status
    and the words of the command to a new environment and a failure flag.
  */
module NshMachine {

  /** CONFIG_NSH_MAXARGUMENTS (6) plus five. */
  const MAX_ARGV_ENTRIES: nat := 11

  /** A list of commands, each cut into words. */
  type Listing = seq<seq<string>>

  /** What a command starts with. */
  datatype Keyword =
    | Nothing | KwWhile | KwUntil | KwDo | KwDone | KwIf | KwThen | KwElse | KwFi | KwBreak | Other

  function KeywordOf(words: seq<string>): Keyword {
    if words == [] then Nothing
    else if words[0] == "while" then KwWhile
    else if words[0] == "until" then KwUntil
    else if words[0] == "do" then KwDo
    else if words[0] == "done" then KwDone
    else if words[0] == "if" then KwIf
    else if words[0] == "then" then KwThen
    else if words[0] == "else" then KwElse
    else if words[0] == "fi" then KwFi
    else if words[0] == "break" then KwBreak
    else Other
  }

  datatype IfState = ItefNormal | ItefIf | ItefThen | ItefElse
  datatype IfSlot = IfSlot(state: IfState, disabled: bool, ifcond: bool)

  datatype LoopState = LoopNormal | LoopWhile | LoopUntil | LoopDo
  datatype LoopSlot = LoopSlot(state: LoopState, enable: bool, iendx: nat, topoffs: int)

  /** The parser state.  `ie` and `lp` are the two fixed arrays of CONFIG_NSH_NESTDEPTH slots; slots
      above `iendx` and `lpndx` are stale.  `fpos` is the read position of the script stream. */
  datatype Np = Np(
    ie: seq<IfSlot>, iendx: nat,
    lp: seq<LoopSlot>, lpndx: nat,
    fail: bool, jump: bool,
    stream: bool, foffs: int, loffs: nat, fpos: int)
  {
    function Depth(): nat { |ie| }

    function Ie(): IfSlot
      requires iendx < |ie|
    {
      ie[iendx]
    }

    function Lp(): LoopSlot
      requires lpndx < |lp|
    {
      lp[lpndx]
    }
  }

  /** Both indices, now and after any `break`, stay inside their arrays. */
  ghost predicate InBounds(np: Np) {
    && |np.ie| == |np.lp|
    && np.iendx < |np.ie|
    && np.lpndx < |np.lp|
    && forall i :: 0 <= i < |np.lp| ==> np.lp[i].iendx < |np.ie|
  }

  /** The state in which a session starts. */
  function Fresh(depth: nat): (np: Np)
    requires depth > 0
    ensures InBounds(np)
  {
    Np(seq(depth, _ => IfSlot(ItefNormal, false, false)), 0,
       seq(depth, _ => LoopSlot(LoopNormal, false, 0, 0)), 0,
       false, false, true, 0, 0, 0)
  }

  /** Diagnostics of the control keywords. */
  datatype Fault = NoFault | ArgumentInvalid | BadContext | TooDeep | InternalError

  /** Outcome of looking for a control keyword: carry on with the remaining words, or give up. */
  datatype Control = Proceed(np: Np, words: seq<string>) | Reject(np: Np, fault: Fault)

  predicate LoopEnabled(np: Np)
    requires np.lpndx < |np.lp|
  {
    np.Lp().state == LoopDo ==> np.Lp().enable
  }

  predicate ItefEnabled(np: Np)
    requires np.iendx < |np.ie|
  {
    && !np.Ie().disabled
    && (np.Ie().state == ItefThen ==> !np.Ie().ifcond)
    && (np.Ie().state == ItefElse ==> np.Ie().ifcond)
  }

  predicate CmdEnabled(np: Np)
    requires np.iendx < |np.ie| && np.lpndx < |np.lp|
  {
    LoopEnabled(np) && ItefEnabled(np)
  }

  /** The top loop slot is waiting for its condition or for `do`. */
  predicate AwaitsDo(np: Np)
    requires np.lpndx < |np.lp|
  {
    np.Lp().state == LoopWhile || np.Lp().state == LoopUntil
  }

  function ResetLoop(np: Np): Np
    requires |np.lp| > 0
  {
    np.(jump := false, lpndx := 0,
        lp := np.lp[0 := LoopSlot(LoopNormal, true, np.lp[0].iendx, 0)])
  }

  function ResetItef(np: Np): Np
    requires |np.ie| > 0
  {
    np.(iendx := 0, ie := np.ie[0 := IfSlot(ItefNormal, false, false)])
  }

  function SetLoop(np: Np, slot: LoopSlot): Np
    requires np.lpndx < |np.lp|
  {
    np.(lp := np.lp[np.lpndx := slot])
  }

  function SetItef(np: Np, slot: IfSlot): Np
    requires np.iendx < |np.ie|
  {
    np.(ie := np.ie[np.iendx := slot])
  }

  function PushLoop(np: Np, state: LoopState): Np
    requires np.iendx < |np.ie| && np.lpndx + 1 < |np.lp|
  {
    np.(jump := false, lpndx := np.lpndx + 1,
        lp := np.lp[np.lpndx + 1 := LoopSlot(state, CmdEnabled(np), np.iendx, np.foffs + np.loffs)])
  }

  /** `done`: seek to the top of an enabled loop; leave the loop slot either way. */
  function PopLoop(np: Np): Np
    requires 0 < np.lpndx < |np.lp|
  {
    var popped := np.(lpndx := np.lpndx - 1, lp := np.lp[np.lpndx := np.Lp().(state := LoopNormal, enable := true)]);
    if np.Lp().enable then popped.(fpos := np.Lp().topoffs, jump := true) else popped
  }

  /** What nsh_loop has to say against a command, in the order of its checks. */
  function LoopFault(words: seq<string>, ie: IfState, lp: LoopState, scripted: bool, lpndx: nat, depth: nat): Fault {
    var awaitsDo := lp == LoopWhile || lp == LoopUntil;
    match KeywordOf(words)
    case KwWhile => LoopHeadFault(|words|, ie == ItefIf || awaitsDo || !scripted, lpndx, depth)
    case KwUntil => LoopHeadFault(|words|, ie == ItefIf || awaitsDo || !scripted, lpndx, depth)
    case KwDo => if !awaitsDo then BadContext else NoFault
    case KwDone =>
      if |words| != 1 then ArgumentInvalid
      else if lp != LoopDo then BadContext
      else if lpndx < 1 then InternalError
      else NoFault
    case Nothing => NoFault
    case _ => if awaitsDo then BadContext else NoFault
  }

  function LoopHeadFault(argc: nat, misplaced: bool, lpndx: nat, depth: nat): Fault {
    if argc == 1 then ArgumentInvalid
    else if misplaced then BadContext
    else if lpndx + 1 >= depth then TooDeep
    else NoFault
  }

  function LoopFaultOf(np: Np, words: seq<string>): Fault
    requires np.iendx < |np.ie| && np.lpndx < |np.lp|
  {
    LoopFault(words, np.Ie().state, np.Lp().state, np.stream && np.foffs >= 0, np.lpndx, |np.lp|)
  }

  /** What nsh_loop does if it has nothing to say. */
  function LoopEffect(np: Np, words: seq<string>): (np': Np)
    requires InBounds(np) && LoopFaultOf(np, words) == NoFault
    ensures InBounds(np') && np'.Depth() == np.Depth()
  {
    match KeywordOf(words)
    case KwWhile => PushLoop(np, LoopWhile)
    case KwUntil => PushLoop(np, LoopUntil)
    case KwDo => SetLoop(np, np.Lp().(state := LoopDo))
    case KwDone => PopLoop(np)
    case _ => np
  }

  /** The words nsh_loop leaves. */
  function AfterLoopWord(words: seq<string>): seq<string> {
    match KeywordOf(words)
    case KwWhile => words[1..]
    case KwUntil => words[1..]
    case KwDo => words[1..]
    case KwDone => words[1..]
    case _ => words
  }

  /** nsh_loop. */
  function LoopStep(np: Np, words: seq<string>): (c: Control)
    requires InBounds(np)
    ensures InBounds(c.np) && c.np.Depth() == np.Depth()
  {
    if LoopFaultOf(np, words) == NoFault then Proceed(LoopEffect(np, words), AfterLoopWord(words))
    else Reject(ResetLoop(np), LoopFaultOf(np, words))
  }

  function PushItef(np: Np): Np
    requires np.iendx + 1 < |np.ie| && np.lpndx < |np.lp|
  {
    np.(iendx := np.iendx + 1, ie := np.ie[np.iendx + 1 := IfSlot(ItefIf, !CmdEnabled(np), false)])
  }

  /** What nsh_itef has to say against a command, in the order of its checks. */
  function ItefFault(words: seq<string>, ie: IfState, iendx: nat, depth: nat): Fault {
    match KeywordOf(words)
    case KwIf =>
      if |words| == 1 then ArgumentInvalid
      else if ie == ItefIf then BadContext
      else if iendx + 1 >= depth then TooDeep
      else NoFault
    case KwThen => if ie != ItefIf then BadContext else NoFault
    case KwElse => if ie != ItefThen then BadContext else NoFault
    case KwFi =>
      if |words| != 1 then ArgumentInvalid
      else if ie != ItefThen && ie != ItefElse then BadContext
      else if iendx < 1 then InternalError
      else NoFault
    case Nothing => NoFault
    case _ => if ie == ItefIf then BadContext else NoFault
  }

  function ItefFaultOf(np: Np, words: seq<string>): Fault
    requires np.iendx < |np.ie|
  {
    ItefFault(words, np.Ie().state, np.iendx, |np.ie|)
  }

  /** What nsh_itef does if it has nothing to say. */
  function ItefEffect(np: Np, words: seq<string>): (np': Np)
    requires InBounds(np) && ItefFaultOf(np, words) == NoFault
    ensures InBounds(np') && np'.Depth() == np.Depth()
  {
    match KeywordOf(words)
    case KwIf => PushItef(np)
    case KwThen => SetItef(np, np.Ie().(state := ItefThen))
    case KwElse => SetItef(np, np.Ie().(state := ItefElse))
    case KwFi => np.(iendx := np.iendx - 1)
    case _ => np
  }

  /** The words nsh_itef leaves. */
  function AfterItefWord(words: seq<string>): seq<string> {
    match KeywordOf(words)
    case KwIf => words[1..]
    case KwThen => words[1..]
    case KwElse => words[1..]
    case KwFi => words[1..]
    case _ => words
  }

  /** nsh_itef. */
  function ItefStep(np: Np, words: seq<string>): (c: Control)
    requires InBounds(np)
    ensures InBounds(c.np) && c.np.Depth() == np.Depth()
  {
    if ItefFaultOf(np, words) == NoFault then Proceed(ItefEffect(np, words), AfterItefWord(words))
    else Reject(ResetItef(np), ItefFaultOf(np, words))
  }

  /** nsh_saveresult: the status goes to a waiting loop, else to a waiting `if`, else to `fail`. */
  function SaveResult(np: Np, failed: bool): Np
    requires InBounds(np)
  {
    if np.Lp().state == LoopWhile then
      SetLoop(np, np.Lp().(enable := !failed)).(fail := false)
    else if np.Lp().state == LoopUntil then
      SetLoop(np, np.Lp().(enable := failed)).(fail := false)
    else if np.Ie().state == ItefIf then
      SetItef(np, np.Ie().(ifcond := failed)).(fail := false)
    else
      np.(fail := failed)
  }

  /** The status nsh_saveresult returns: only a plain command can fail. */
  predicate ResultOk(np: Np, failed: bool)
    requires np.iendx < |np.ie| && np.lpndx < |np.lp|
  {
    failed ==> AwaitsDo(np) || np.Ie().state == ItefIf
  }

  /** cmd_break. */
  function CmdBreak(np: Np): Np
    requires InBounds(np)
  {
    if np.Lp().state == LoopDo then
      SetLoop(np, np.Lp().(enable := false)).(iendx := np.Lp().iendx)
    else
      np
  }

  type Behaviour<!E> = (E, bool, seq<string>) -> (E, bool)

  /** Words beyond the argv array are dropped. */
  function Argv(words: seq<string>): seq<string> {
    if |words| < MAX_ARGV_ENTRIES then words else words[..MAX_ARGV_ENTRIES - 1]
  }

  datatype Step<E> = Step(np: Np, env: E, ok: bool)

  function Finish<E>(np: Np, env: E, failed: bool): (r: Step<E>)
    requires InBounds(np)
    ensures InBounds(r.np) && r.np.Depth() == np.Depth()
  {
    Step(SaveResult(np, failed), env, ResultOk(np, failed))
  }

  /** nsh_execute, for the built-in `break`, which takes no arguments, and for all other commands. */
  function Execute<E>(run: Behaviour<E>, np: Np, env: E, argv: seq<string>): (r: Step<E>)
    requires InBounds(np) && argv != []
    ensures InBounds(r.np) && r.np.Depth() == np.Depth()
  {
    if KeywordOf(argv) == KwBreak then
      if |argv| == 1 then Finish(CmdBreak(np), env, false) else Finish(np, env, true)
    else
      var (env', failed) := run(env, np.fail, argv);
      Finish(np, env', failed)
  }

  /** nsh_parse_command on a command already cut into words. */
  function ParseCommand<E>(run: Behaviour<E>, np: Np, env: E, words: seq<string>): (r: Step<E>)
    requires InBounds(np)
    ensures InBounds(r.np) && r.np.Depth() == np.Depth()
  {
    var a := LoopStep(np, words);
    if a.Reject? then
      Finish(a.np, env, true)
    else
      var b := ItefStep(a.np, a.words);
      if b.Reject? then
        Finish(b.np, env, true)
      else if b.words == [] || !CmdEnabled(b.np) then
        Step(b.np, env, true)
      else
        Execute(run, b.np, env, Argv(b.words))
  }

  /** The control keywords of the command are in place. */
  predicate Accepts(np: Np, words: seq<string>)
    requires InBounds(np)
  {
    LoopStep(np, words).Proceed? &&
    ItefStep(LoopStep(np, words).np, LoopStep(np, words).words).Proceed?
  }

  lemma PassesLoop(np: Np, words: seq<string>)
    requires InBounds(np) && !AwaitsDo(np)
    requires KeywordOf(words) in {Nothing, KwIf, KwThen, KwElse, KwFi, KwBreak, Other}
    ensures LoopStep(np, words) == Proceed(np, words)
  {}

  lemma PassesItef(np: Np, words: seq<string>)
    requires InBounds(np) && np.Ie().state != ItefIf
    requires KeywordOf(words) !in {KwIf, KwThen, KwElse, KwFi}
    ensures ItefStep(np, words) == Proceed(np, words)
  {}

  lemma PassesNothing(np: Np)
    requires InBounds(np)
    ensures LoopStep(np, []) == Proceed(np, []) && ItefStep(np, []) == Proceed(np, [])
  {}

  /** No command changes the stream or the offset of its line. */
  lemma ParseCommandKeeps<E>(run: Behaviour<E>, np: Np, env: E, words: seq<string>)
    requires InBounds(np)
    ensures var np' := ParseCommand(run, np, env, words).np; np'.foffs == np.foffs && np'.stream == np.stream
  {
    hide LoopStep, ItefStep, Execute;
    var a := LoopStep(np, words);
    LoopStepKeeps(np, words);
    if a.Proceed? {
      var b := ItefStep(a.np, a.words);
      ItefStepKeeps(a.np, a.words);
      if b.Proceed? && b.words != [] {
        ExecuteKeeps(run, b.np, env, Argv(b.words));
      }
    }
  }

  lemma LoopStepKeeps(np: Np, words: seq<string>)
    requires InBounds(np)
    ensures LoopStep(np, words).np.foffs == np.foffs && LoopStep(np, words).np.stream == np.stream
  {}

  lemma ItefStepKeeps(np: Np, words: seq<string>)
    requires InBounds(np)
    ensures ItefStep(np, words).np.foffs == np.foffs && ItefStep(np, words).np.stream == np.stream
  {}

  lemma ExecuteKeeps<E>(run: Behaviour<E>, np: Np, env: E, argv: seq<string>)
    requires InBounds(np) && argv != []
    ensures var np' := Execute(run, np, env, argv).np; np'.foffs == np.foffs && np'.stream == np.stream
  {
    hide SaveResult, CmdBreak, KeywordOf;
    if KeywordOf(argv) == KwBreak {
      CmdBreakKeeps(np);
      SaveResultKeeps(CmdBreak(np), false);
      SaveResultKeeps(np, true);
    } else {
      SaveResultKeeps(np, run(env, np.fail, argv).1);
    }
  }

  lemma SaveResultKeeps(np: Np, failed: bool)
    requires InBounds(np)
    ensures SaveResult(np, failed).foffs == np.foffs && SaveResult(np, failed).stream == np.stream
  {}

  lemma CmdBreakKeeps(np: Np)
    requires InBounds(np)
    ensures InBounds(CmdBreak(np)) && CmdBreak(np).foffs == np.foffs && CmdBreak(np).stream == np.stream
  {}
}
