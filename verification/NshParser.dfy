/** The interpreter as it is: one parser structure and one line buffer, both updated in place.

    Every method is proved to do what the function of the same name in `NshMachine`, `NshText` or
    `NshBytes` says; what the interpreter achieves is proved about those. */
module NshParser {
  import opened Common
  import M = NshMachine
  import opened NshMachine
  import opened NshCommands
  import opened NshText
  import B = NshBytes

  // ----- words, cut out of the line buffer in place -----

  /** From `start + i` on the buffer holds the rest of the command `s`, terminated by NUL. */
  ghost predicate Buffered(buf: array<char>, start: nat, s: string, i: nat)
    reads buf
  {
    && i <= |s| && start + |s| < buf.Length && '\0' !in s && buf[start + |s|] == '\0'
    && forall k :: i <= k < |s| ==> buf[start + k] == s[k]
  }

  /** The buffer changed from `a` to `b` between `lo` and `hi` only. */
  ghost predicate ChangedWithin(a: seq<char>, b: seq<char>, lo: int, hi: int) {
    |a| == |b| && forall k :: 0 <= k < |a| && !(lo <= k < hi) ==> b[k] == a[k]
  }

  /** A NUL-terminated string in the buffer. */
  ghost predicate StringAt(mem: seq<char>, p: nat, w: string) {
    p + |w| < |mem| && mem[p..p + |w|] == w && mem[p + |w|] == '\0'
  }

  /** Find the end of the word at `begin` and terminate it in place. */
  method CutWord(buf: array<char>, start: nat, ghost s: string, begin: nat, quoted: bool)
    returns (w: string, next: nat)
    requires Buffered(buf, start, s, begin)
    modifies buf
    ensures var end := WordEnd(s, begin, quoted, false);
            w == s[begin..end] && next == if end < |s| then end + 1 else end
    ensures Buffered(buf, start, s, next) && StringAt(buf[..], start + begin, w)
    ensures begin + |w| < next || next == |s|
    ensures ChangedWithin(old(buf[..]), buf[..], start + begin, start + |s|)
  {
    var end, backquote := begin, false;
    while buf[start + end] != '\0'
      invariant begin <= end <= |s|
      invariant WordEnd(s, end, quoted, backquote) == WordEnd(s, begin, quoted, false)
      decreases |s| - end
    {
      if buf[start + end] == '`' {
        backquote := !backquote;
      } else if !backquote && (if quoted then buf[start + end] == '"' else IsSeparator(buf[start + end])) {
        break;
      }
      end := end + 1;
    }
    w, next := buf[start + begin..start + end], end;
    assert w == s[begin..end];
    if buf[start + end] != '\0' {
      buf[start + end] := '\0';
      next := end + 1;
    }
    assert buf[..][start + begin..start + begin + |w|] == w;
  }

  /** nsh_argument.  A word is terminated in place and stands at `p`; no byte before the start of the
      search has changed, so the words found earlier still stand. */
  method Argument(buf: array<char>, start: nat, ghost s: string, i: nat) returns (a: NshText.Argument, p: nat)
    requires Buffered(buf, start, s, i)
    modifies buf
    ensures a == NextArgument(s, i)
    ensures a.NoMore? ==> buf[..] == old(buf[..])
    ensures a.Word? ==> Buffered(buf, start, s, a.next) && start + i <= p
    ensures a.Word? && a.word != ">" && a.word != ">>" ==>
              StringAt(buf[..], p, a.word) && (p + |a.word| < start + a.next || a.next == |s|)
    ensures ChangedWithin(old(buf[..]), buf[..], start + i, start + |s|)
  {
    hide WordEnd;
    var begin := i;
    while buf[start + begin] != '\0' && IsSeparator(buf[start + begin])
      invariant i <= begin <= |s| && SkipSeparators(s, begin) == SkipSeparators(s, i)
      decreases |s| - begin
    {
      begin := begin + 1;
    }
    p := start + begin;
    if buf[p] == '\0' || buf[p] == '#' {
      a := NoMore;
    } else if buf[p] == '>' {
      a := if buf[p + 1] == '>' then Word(">>", begin + 2) else Word(">", begin + 1);
    } else {
      var quoted := buf[p] == '"';
      if quoted {
        begin := begin + 1;
      }
      p := start + begin;
      var w, next := CutWord(buf, start, s, begin, quoted);
      a := Word(w, next);
    }
  }

  /** The words still to come: the one in hand, if there is one, and those left in the buffer. */
  function Pending(s: string, cmd: Option<string>, i: nat): seq<string>
    requires i <= |s|
  {
    match cmd
    case None => []
    case Some(w) => [w] + Words(s, i)
  }

  /** The next word, if any, as a command. */
  method NextWord(buf: array<char>, start: nat, ghost s: string, i: nat) returns (cmd: Option<string>, next: nat)
    requires Buffered(buf, start, s, i)
    modifies buf
    ensures i <= next && Buffered(buf, start, s, next) && Pending(s, cmd, next) == Words(s, i)
    ensures ChangedWithin(old(buf[..]), buf[..], start + i, start + |s|)
  {
    hide NextArgument;
    var a, p := Argument(buf, start, s, i);
    match a
    case NoMore => cmd, next := None, i;
    case Word(w, n) => cmd, next := Some(w), n;
  }

  /** The words after the command name stand, terminated, in the buffer at `at`. */
  ghost predicate VectorStands(mem: seq<char>, argv: seq<string>, at: seq<nat>, below: int, top: int) {
    |at| == |argv| &&
    forall k :: 1 <= k < |argv| && argv[k] != ">" && argv[k] != ">>" ==>
      StringAt(mem, at[k], argv[k]) && (at[k] + |argv[k]| < below || below == top)
  }

  /** What is written behind them leaves them standing. */
  lemma StillStands(a: seq<char>, b: seq<char>, argv: seq<string>, at: seq<nat>, below: int, top: int)
    requires ChangedWithin(a, b, below, top) && VectorStands(a, argv, at, below, top) && below <= top
    ensures VectorStands(b, argv, at, below, top)
  {
    forall k | 1 <= k < |argv| && argv[k] != ">" && argv[k] != ">>"
      ensures StringAt(b, at[k], argv[k])
    {
      assert StringAt(a, at[k], argv[k]);
      assert b[at[k]..at[k] + |argv[k]|] == a[at[k]..at[k] + |argv[k]|];
    }
  }

  /** The argument vector of a command: at most MAX_ARGV_ENTRIES - 1 words, all intact in the buffer. */
  method CollectArguments(buf: array<char>, start: nat, ghost s: string, cmd: string, i: nat)
    returns (argv: seq<string>, ghost at: seq<nat>)
    requires Buffered(buf, start, s, i)
    modifies buf
    ensures argv == Argv([cmd] + Words(s, i))
    ensures VectorStands(buf[..], argv, at, start + |s|, start + |s|)
    ensures ChangedWithin(old(buf[..]), buf[..], start + i, start + |s|)
  {
    hide NextArgument;
    argv, at := [cmd], [0];
    var next := i;
    while |argv| < MAX_ARGV_ENTRIES - 1
      invariant i <= next && Buffered(buf, start, s, next) && 1 <= |argv| < MAX_ARGV_ENTRIES
      invariant argv + Words(s, next) == [cmd] + Words(s, i)
      invariant VectorStands(buf[..], argv, at, start + next, start + |s|)
      invariant ChangedWithin(old(buf[..]), buf[..], start + i, start + |s|)
    {
      ghost var before := buf[..];
      var a, p := Argument(buf, start, s, next);
      StillStands(before, buf[..], argv, at, start + next, start + |s|);
      if a.NoMore? {
        assert argv + [] == argv;
        return;
      }
      assert argv + Words(s, next) == (argv + [a.word]) + Words(s, a.next);
      argv, at, next := argv + [a.word], at + [p], a.next;
    }
  }

  class Parser<E> {
    const run: Behaviour<E>
    const iestate: array<IfSlot>
    const lpstate: array<LoopSlot>
    var iendx: nat
    var lpndx: nat
    var fail: bool
    var jump: bool
    var stream: bool
    var foffs: int
    var loffs: nat
    var fpos: int
    var env: E

    ghost function State(): Np
      reads this, iestate, lpstate
    {
      Np(iestate[..], iendx, lpstate[..], lpndx, fail, jump, stream, foffs, loffs, fpos)
    }

    ghost predicate Valid()
      reads this, iestate, lpstate
    {
      InBounds(State())
    }

    /** A fresh session. */
    constructor (run: Behaviour<E>, env: E, depth: nat)
      requires depth > 0
      ensures Valid() && fresh(iestate) && fresh(lpstate)
      ensures State() == Fresh(depth) && this.env == env && this.run == run
    {
      this.run := run;
      this.env := env;
      iestate := new IfSlot[depth](_ => IfSlot(ItefNormal, false, false));
      lpstate := new LoopSlot[depth](_ => LoopSlot(LoopNormal, false, 0, 0));
      iendx, lpndx, fail, jump, stream, foffs, loffs, fpos := 0, 0, false, false, true, 0, 0, 0;
      new;
      assert iestate[..] == Fresh(depth).ie && lpstate[..] == Fresh(depth).lp;
    }

    method SaveResult(failed: bool) returns (ok: bool)
      requires Valid()
      modifies this, iestate, lpstate
      ensures Valid() && env == old(env)
      ensures State() == M.SaveResult(old(State()), failed) && ok == ResultOk(old(State()), failed)
    {
      if lpstate[lpndx].state == LoopWhile {
        fail := false;
        lpstate[lpndx] := lpstate[lpndx].(enable := !failed);
        ok := true;
      } else if lpstate[lpndx].state == LoopUntil {
        fail := false;
        lpstate[lpndx] := lpstate[lpndx].(enable := failed);
        ok := true;
      } else if iestate[iendx].state == ItefIf {
        fail := false;
        iestate[iendx] := iestate[iendx].(ifcond := failed);
        ok := true;
      } else {
        fail := failed;
        ok := !failed;
      }
    }

    method CmdEnabled() returns (enabled: bool)
      requires Valid()
      ensures enabled == M.CmdEnabled(State())
    {
      enabled := true;
      if lpstate[lpndx].state == LoopDo {
        enabled := lpstate[lpndx].enable;
      }
      if enabled {
        enabled := !iestate[iendx].disabled;
        if enabled {
          match iestate[iendx].state
          case ItefThen => enabled := !iestate[iendx].ifcond;
          case ItefElse => enabled := iestate[iendx].ifcond;
          case _ =>
        }
      }
    }

    method CmdBreak()
      requires Valid()
      modifies this, lpstate
      ensures Valid() && env == old(env) && State() == M.CmdBreak(old(State()))
    {
      if lpstate[lpndx].state == LoopDo {
        iendx := lpstate[lpndx].iendx;
        lpstate[lpndx] := lpstate[lpndx].(enable := false);
      }
    }

    method ResetLoop()
      requires Valid()
      modifies this, lpstate
      ensures Valid() && env == old(env) && State() == M.ResetLoop(old(State()))
    {
      jump := false;
      lpndx := 0;
      lpstate[0] := lpstate[0].(state := LoopNormal, enable := true, topoffs := 0);
    }

    method ResetItef()
      requires Valid()
      modifies this, iestate
      ensures Valid() && env == old(env) && State() == M.ResetItef(old(State()))
    {
      iendx := 0;
      iestate[0] := IfSlot(ItefNormal, false, false);
    }

    /** `while` or `until`: remember the file position of the command. */
    method PushLoop(state: LoopState)
      requires Valid() && lpndx + 1 < lpstate.Length
      modifies this, lpstate
      ensures Valid() && env == old(env) && State() == M.PushLoop(old(State()), state)
    {
      var enable := CmdEnabled();
      jump := false;
      lpndx := lpndx + 1;
      lpstate[lpndx] := LoopSlot(state, enable, iendx, foffs + loffs);
    }

    /** `done`: seek to the top of an enabled loop; leave the loop slot either way. */
    method PopLoop()
      requires Valid() && lpndx > 0
      modifies this, lpstate
      ensures Valid() && env == old(env) && State() == M.PopLoop(old(State()))
    {
      if lpstate[lpndx].enable {
        fpos := lpstate[lpndx].topoffs;
        jump := true;
      } else {
        lpstate[lpndx] := lpstate[lpndx].(enable := true);
      }
      lpstate[lpndx] := lpstate[lpndx].(state := LoopNormal);
      lpndx := lpndx - 1;
    }

    method SetLoopState(state: LoopState)
      requires Valid()
      modifies lpstate
      ensures Valid() && State() == M.SetLoop(old(State()), old(State().Lp()).(state := state))
    {
      lpstate[lpndx] := lpstate[lpndx].(state := state);
    }

    /** A loop may start here. */
    method HeadAllowed(hasTest: bool) returns (ok: bool)
      requires Valid()
      ensures ok <==> LoopHeadFault(if hasTest then 2 else 1, State().Ie().state == ItefIf || AwaitsDo(State())
                                    || !(stream && foffs >= 0), lpndx, lpstate.Length) == NoFault
    {
      ok := && hasTest && iestate[iendx].state != ItefIf
            && lpstate[lpndx].state != LoopWhile && lpstate[lpndx].state != LoopUntil
            && stream && foffs >= 0 && lpndx + 1 < lpstate.Length;
    }

    /** nsh_loop: take the next word if the keyword is followed by one, check the context, act. */
    method Loop(buf: array<char>, start: nat, ghost s: string, cmd: Option<string>, i: nat)
      returns (ok: bool, cmd': Option<string>, next: nat)
      requires Valid() && Buffered(buf, start, s, i)
      modifies this, lpstate, buf
      ensures Valid() && env == old(env)
      ensures Buffered(buf, start, s, next) && i <= next && ChangedWithin(old(buf[..]), buf[..], start + i, start + |s|)
      ensures State() == LoopStep(old(State()), Pending(s, cmd, i)).np
      ensures ok == LoopStep(old(State()), Pending(s, cmd, i)).Proceed?
      ensures ok ==> Pending(s, cmd', next) == LoopStep(old(State()), Pending(s, cmd, i)).words
    {
      hide M.PushLoop, M.PopLoop, Words;
      ok, cmd', next := true, cmd, i;
      if cmd == None {
        return;
      }
      var keyword := KeywordOf([cmd.value]);
      ghost var words := Pending(s, cmd, i);
      assert KeywordOf(words) == keyword && words[1..] == Words(s, i);
      if keyword in {KwWhile, KwUntil, KwDo, KwDone} {
        cmd', next := NextWord(buf, start, s, i);
      }
      assert State() == old(State());
      ok := LoopAct(keyword, cmd' != None, words);
    }

    /** Its checks and its effect; `more` says whether a word follows the keyword, where that matters. */
    method LoopAct(keyword: Keyword, more: bool, ghost words: seq<string>) returns (ok: bool)
      requires Valid() && words != [] && keyword == KeywordOf(words)
      requires keyword in {KwWhile, KwUntil, KwDo, KwDone} ==> (more <==> |words| > 1)
      modifies this, lpstate
      ensures Valid() && env == old(env)
      ensures State() == LoopStep(old(State()), words).np && ok == LoopStep(old(State()), words).Proceed?
    {
      hide M.PushLoop, M.PopLoop;
      var awaitsDo := lpstate[lpndx].state == LoopWhile || lpstate[lpndx].state == LoopUntil;
      match keyword {
        case KwWhile =>
          ok := HeadAllowed(more);
          if ok { PushLoop(LoopWhile); }
        case KwUntil =>
          ok := HeadAllowed(more);
          if ok { PushLoop(LoopUntil); }
        case KwDo =>
          ok := awaitsDo;
          if ok { SetLoopState(LoopDo); }
        case KwDone =>
          ok := !more && lpstate[lpndx].state == LoopDo && lpndx >= 1;
          if ok { PopLoop(); }
        case _ =>
          ok := !awaitsDo;
      }
      assert ok <==> LoopFaultOf(old(State()), words) == NoFault;
      assert State() == if ok then LoopEffect(old(State()), words) else old(State());
      if !ok {
        ResetLoop();
      }
    }

    method PushItef()
      requires Valid() && iendx + 1 < iestate.Length
      modifies this, iestate
      ensures Valid() && env == old(env) && State() == M.PushItef(old(State()))
    {
      var enabled := CmdEnabled();
      iendx := iendx + 1;
      iestate[iendx] := IfSlot(ItefIf, !enabled, false);
    }

    method SetItefState(state: IfState)
      requires Valid()
      modifies iestate
      ensures Valid() && State() == M.SetItef(old(State()), old(State().Ie()).(state := state))
    {
      iestate[iendx] := iestate[iendx].(state := state);
    }

    /** nsh_itef: take the next word if the keyword is followed by one, check the context, act. */
    method Itef(buf: array<char>, start: nat, ghost s: string, cmd: Option<string>, i: nat)
      returns (ok: bool, cmd': Option<string>, next: nat)
      requires Valid() && Buffered(buf, start, s, i)
      modifies this, iestate, buf
      ensures Valid() && env == old(env)
      ensures Buffered(buf, start, s, next) && i <= next && ChangedWithin(old(buf[..]), buf[..], start + i, start + |s|)
      ensures State() == ItefStep(old(State()), Pending(s, cmd, i)).np
      ensures ok == ItefStep(old(State()), Pending(s, cmd, i)).Proceed?
      ensures ok ==> Pending(s, cmd', next) == ItefStep(old(State()), Pending(s, cmd, i)).words
    {
      hide M.PushItef, Words;
      ok, cmd', next := true, cmd, i;
      if cmd == None {
        return;
      }
      var keyword := KeywordOf([cmd.value]);
      ghost var words := Pending(s, cmd, i);
      assert KeywordOf(words) == keyword && words[1..] == Words(s, i);
      if keyword in {KwIf, KwThen, KwElse, KwFi} {
        cmd', next := NextWord(buf, start, s, i);
      }
      assert State() == old(State());
      var state := iestate[iendx].state;
      match keyword {
        case KwIf =>
          ok := cmd' != None && state != ItefIf && iendx + 1 < iestate.Length;
          if ok { PushItef(); }
        case KwThen =>
          ok := state == ItefIf;
          if ok { SetItefState(ItefThen); }
        case KwElse =>
          ok := state == ItefThen;
          if ok { SetItefState(ItefElse); }
        case KwFi =>
          ok := cmd' == None && (state == ItefThen || state == ItefElse) && iendx >= 1;
          if ok { iendx := iendx - 1; }
        case _ =>
          ok := state != ItefIf;
      }
      assert ok <==> ItefFaultOf(old(State()), words) == NoFault;
      assert State() == if ok then ItefEffect(old(State()), words) else old(State());
      if !ok {
        ResetItef();
      }
    }

    /** nsh_execute, for the built-in `break`, which takes no arguments, and for all other commands. */
    method Execute(argv: seq<string>) returns (ok: bool)
      requires Valid() && argv != []
      modifies this, iestate, lpstate
      ensures Valid()
      ensures Step(State(), env, ok) == M.Execute(run, old(State()), old(env), argv)
    {
      if KeywordOf(argv) == KwBreak {
        if |argv| == 1 {
          CmdBreak();
        }
        ok := SaveResult(|argv| > 1);
      } else {
        var (env', failed) := run(env, fail, argv);
        env := env';
        ok := SaveResult(failed);
      }
    }

    /** nsh_parse_command on the NUL-terminated command `s` at `start`. */
    method ParseCommand(buf: array<char>, start: nat, ghost s: string) returns (ok: bool)
      requires Valid() && Buffered(buf, start, s, 0)
      modifies this, iestate, lpstate, buf
      ensures Valid()
      ensures ChangedWithin(old(buf[..]), buf[..], start, start + |s|)
      ensures Step(State(), env, ok) == M.ParseCommand(run, old(State()), old(env), Words(s, 0))
    {
      hide LoopStep, ItefStep, M.Execute, Words, M.SaveResult;
      var cmd, i := NextWord(buf, start, s, 0);
      ok, cmd, i := Loop(buf, start, s, cmd, i);
      if !ok {
        ok := SaveResult(true);
        return;
      }
      ok, cmd, i := Itef(buf, start, s, cmd, i);
      if !ok {
        ok := SaveResult(true);
        return;
      }
      var enabled := CmdEnabled();
      if cmd == None || !enabled {
        ok := true;
      } else {
        var argv, at := CollectArguments(buf, start, s, cmd.value, i);
        ok := Execute(argv);
      }
    }

    /** Terminate the command that ends at `ptr` in place, and run it. */
    method ParseUpTo(buf: array<char>, ghost line: string, start: nat, ptr: nat) returns (ok: bool)
      requires Valid() && Buffered(buf, 0, line, start) && start <= ptr < |line|
      modifies this, iestate, lpstate, buf
      ensures Valid() && Buffered(buf, 0, line, ptr + 1)
      ensures Step(State(), env, ok) == M.ParseCommand(run, old(State()), old(env), Words(line[start..ptr], 0))
    {
      hide M.ParseCommand, Words;
      buf[ptr] := '\0';
      ok := ParseCommand(buf, start, line[start..ptr]);
    }

    /** Run the last command of the line. */
    method ParseLast(buf: array<char>, ghost line: string, start: nat) returns (ok: bool)
      requires Valid() && Buffered(buf, 0, line, start)
      modifies this, iestate, lpstate, buf
      ensures Valid()
      ensures Step(State(), env, ok) == M.ParseCommand(run, old(State()), old(env), Words(line[start..], 0))
    {
      hide M.ParseCommand, Words;
      ok := ParseCommand(buf, start, line[start..]);
    }

    /** One turn of the loop of nsh_parse. */
    method ParseTurn(buf: array<char>, ghost line: string, start: nat, working: nat)
      returns (ok: bool, over: bool, start': nat, working': nat)
      requires Valid() && !jump && start <= working <= |line| && Buffered(buf, 0, line, start)
      modifies this, iestate, lpstate, buf
      ensures Valid()
      ensures over ==> Step(State(), env, ok) == B.ParseFrom(run, old(State()), old(env), line, start, working)
      ensures !over ==> ok && start' <= working' <= |line| && working < working' && Buffered(buf, 0, line, start')
      ensures !over ==> B.ParseFrom(run, old(State()), old(env), line, start, working)
                        == if jump then Step(State(), env, true)
                           else B.ParseFrom(run, State(), env, line, start', working')
    {
      hide M.ParseCommand, Words, NextDelimiter, NextQuote, B.Uint16;
      ok, over, start', working' := true, false, start, working;
      loffs := B.Uint16(working);
      var ptr := FindDelimiter(buf, line, working);
      if buf[ptr] == '\0' || buf[ptr] == '\n' || buf[ptr] == '#' {
        ok := ParseLast(buf, line, start);
        over := true;
      } else if buf[ptr] == ';' {
        ok := ParseUpTo(buf, line, start, ptr);
        over := !ok;
        start', working' := ptr + 1, ptr + 1;
      } else {
        var close := FindQuote(buf, line, ptr + 1);
        ok := buf[close] != '\0';
        over := !ok;
        working' := if ok then close + 1 else working;
      }
    }

    /** nsh_parse: cut the line at its semicolons, in place, and run its commands. */
    method Parse(buf: array<char>, ghost line: string) returns (ok: bool)
      requires Valid() && Buffered(buf, 0, line, 0)
      modifies this, iestate, lpstate, buf
      ensures Valid()
      ensures Step(State(), env, ok) == B.ParseLine(run, old(State()), old(env), line)
    {
      hide B.ParseFrom;
      var start: nat, working: nat, over := 0, 0, false;
      ghost var goal := B.ParseLine(run, State(), env, line);
      jump := false;
      while !jump
        invariant Valid() && start <= working <= |line| && Buffered(buf, 0, line, start)
        invariant goal
                  == if jump then Step(State(), env, true) else B.ParseFrom(run, State(), env, line, start, working)
        decreases |line| - working
      {
        ok, over, start, working := ParseTurn(buf, line, start, working);
        if over {
          return;
        }
      }
      ok := true;
    }

    /** One turn of the loop of nsh_script.  `wasOk` is the status so far. */
    method ReadLine(file: string, buf: array<char>, wasOk: bool) returns (ok: bool, done: bool)
      requires Valid() && buf.Length == B.LINELEN && '\0' !in file
      modifies this, iestate, lpstate, buf
      ensures Valid()
      ensures Machine(State(), env, ok, done) == B.ReadLine(run, file, Machine(old(State()), old(env), wasOk, false))
    {
      hide B.ParseLine, B.LineEnd;
      foffs := fpos;
      loffs := 0;
      if !(0 <= fpos < |file|) {
        return wasOk, true;
      }
      var end := ReadInto(file, fpos, buf);
      ghost var line := file[fpos..end];
      fpos := end;
      ok := Parse(buf, line);
      done := !ok;
    }

    /** nsh_script: read lines from the file and run them until the file ends or a command fails.  A
        script need not stop, so `budget` bounds the number of lines; `done` says that it did.  The stream of the
        caller is then restored. */
    method Script(file: string, buf: array<char>, budget: nat) returns (ok: bool, done: bool)
      requires Valid() && buf.Length == B.LINELEN && '\0' !in file
      modifies this, iestate, lpstate, buf
      ensures Valid()
      ensures var m := B.ReadLines(run, file, Machine(old(State()).(stream := true, fpos := 0), old(env), false, false),
                                   budget);
              && env == m.env && ok == m.ok && done == m.done
              && State() == if done then m.np.(stream := old(stream), fpos := old(fpos)) else m.np
    {
      hide B.ReadLine;
      var savedStream, savedPosition := stream, fpos;
      ok, done := false, false;
      stream, fpos := true, 0;
      ghost var goal := B.ReadLines(run, file, Machine(State(), env, false, false), budget);
      var left := budget;
      while left > 0 && !done
        invariant Valid() && 0 <= left
        invariant B.ReadLines(run, file, Machine(State(), env, ok, done), left) == goal
      {
        ok, done := ReadLine(file, buf, ok);
        left := left - 1;
      }
      if done {
        B.StopsReading(run, file, Machine(State(), env, ok, done), left);
        stream, fpos := savedStream, savedPosition;
      }
    }
  }

  /** fgets. */
  method ReadInto(file: string, pos: nat, buf: array<char>) returns (end: nat)
    requires pos <= |file| && buf.Length == B.LINELEN && '\0' !in file
    modifies buf
    ensures end == B.LineEnd(file, pos, B.LINELEN - 1) && Buffered(buf, 0, file[pos..end], 0)
  {
    end := pos;
    var room := B.LINELEN - 1;
    while room > 0 && end < |file|
      invariant pos <= end <= |file| && room + (end - pos) == B.LINELEN - 1 && room >= 0
      invariant B.LineEnd(file, end, room) == B.LineEnd(file, pos, B.LINELEN - 1)
      invariant forall k :: 0 <= k < end - pos ==> buf[k] == file[pos + k]
      decreases room
    {
      buf[end - pos] := file[end];
      end, room := end + 1, room - 1;
      if file[end - 1] == '\n' {
        break;
      }
    }
    buf[end - pos] := '\0';
  }

  /** strcspn. */
  method FindDelimiter(buf: array<char>, ghost line: string, i: nat) returns (j: nat)
    requires Buffered(buf, 0, line, i)
    ensures j == NextDelimiter(line, i) && (buf[j] == '\0' <==> j == |line|) && (j < |line| ==> buf[j] == line[j])
  {
    j := i;
    while buf[j] != '\0' && !IsDelimiter(buf[j])
      invariant i <= j <= |line| && NextDelimiter(line, j) == NextDelimiter(line, i)
      decreases |line| - j
    {
      j := j + 1;
    }
  }

  /** strchr for a quotation mark. */
  method FindQuote(buf: array<char>, ghost line: string, i: nat) returns (j: nat)
    requires Buffered(buf, 0, line, i)
    ensures j == NextQuote(line, i) && (buf[j] == '\0' <==> j == |line|)
  {
    j := i;
    while buf[j] != '\0' && buf[j] != '"'
      invariant i <= j <= |line| && NextQuote(line, j) == NextQuote(line, i)
      decreases |line| - j
    {
      j := j + 1;
    }
  }
}
