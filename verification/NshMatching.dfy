/** The loop stack matches loop heads with `done`: at every point of running a script, each open loop remembers the
    loop head that its own `done` is to go back to, as a place in the list of commands and as a byte of the file. */
module NshMatching {
  import opened NshMachine
  import opened NshProgram
  import opened NshCommands
  import opened NshSimulation
  import opened NshText
  import opened NshBytes
  import opened NshRefinement
  import opened NshBlanks
  import opened NshTheorems
  import opened NshLayout
  import opened NshReading

  // ----- loop heads and `done` in a list of commands -----

  /** The loop heads among the first `pc` commands that no `done` among them matches, the innermost last. */
  function OpenHeads(cmds: Script, pc: nat): (o: seq<nat>)
    requires pc <= |cmds|
    ensures forall i :: 0 <= i < |o| ==> o[i] < pc
  {
    if pc == 0 then []
    else
      var o := OpenHeads(cmds, pc - 1);
      var words := cmds[pc - 1].words;
      if IsLoopHead(words) then o + [pc - 1]
      else if KeywordOf(words) == KwDone && o != [] then o[..|o| - 1]
      else o
  }

  /** When a loop head was read, just the loops around it were open. */
  lemma {:induction false} OpenAtHead(cmds: Script, pc: nat, i: nat)
    requires pc <= |cmds| && i < |OpenHeads(cmds, pc)|
    ensures OpenHeads(cmds, OpenHeads(cmds, pc)[i]) == OpenHeads(cmds, pc)[..i]
    ensures IsLoopHead(cmds[OpenHeads(cmds, pc)[i]].words)
    decreases pc
  {
    hide IsLoopHead, KeywordOf;
    var before := OpenHeads(cmds, pc - 1);
    if i < |before| {
      OpenAtHead(cmds, pc - 1, i);
      assert OpenHeads(cmds, pc)[..i] == before[..i];
    } else {
      assert OpenHeads(cmds, pc)[..i] == before;
    }
  }

  /** What the last command with words was, as far as it matters to the next. */
  datatype Before = AfterHead | AfterIf | AfterOther

  function KindOf(words: seq<string>): Before {
    if IsLoopHead(words) then AfterHead else if KeywordOf(words) == KwIf then AfterIf else AfterOther
  }

  function BeforeAt(cmds: Script, pc: nat): Before
    requires pc <= |cmds|
  {
    if pc == 0 then AfterOther
    else if Blank(cmds[pc - 1]) then BeforeAt(cmds, pc - 1)
    else KindOf(cmds[pc - 1].words)
  }

  // ----- the commands of a script are in place -----

  /** A command that may come next, in `depth` loops. */
  predicate InPlace(words: seq<string>, before: Before, depth: nat, limit: nat) {
    match KeywordOf(words)
    case Nothing => true
    case KwWhile => |words| > 1 && Plain(words[1..]) && before == AfterOther && depth + 1 < limit
    case KwUntil => |words| > 1 && Plain(words[1..]) && before == AfterOther && depth + 1 < limit
    case KwDo => |words| == 1 && before == AfterHead
    case KwDone => |words| == 1 && before == AfterOther && depth > 0
    case KwIf => |words| > 1 && Plain(words[1..]) && before == AfterOther
    case KwThen => |words| == 1 && before == AfterIf
    case _ => before == AfterOther
  }

  function DepthAfter(words: seq<string>, depth: nat): nat {
    if IsLoopHead(words) then depth + 1 else if KeywordOf(words) == KwDone && depth > 0 then depth - 1 else depth
  }

  predicate Shaped(code: Listing, before: Before, depth: nat, limit: nat) {
    code == [] ||
    (InPlace(code[0], before, depth, limit)
     && Shaped(code[1..], KindOf(code[0]), DepthAfter(code[0], depth), limit))
  }

  lemma ShapedFirst(words: seq<string>, rest: Listing, before: Before, depth: nat, limit: nat)
    requires InPlace(words, before, depth, limit) && Shaped(rest, KindOf(words), DepthAfter(words, depth), limit)
    ensures Shaped([words] + rest, before, depth, limit)
  {
    assert ([words] + rest)[1..] == rest;
  }

  /** Where each word stands, and what it leaves. */
  lemma WordsInPlace(depth: nat, limit: nat)
    ensures Leaves(["then"], AfterIf, depth, depth, limit) && Leaves(["do"], AfterHead, depth, depth, limit)
    ensures Leaves(["else"], AfterOther, depth, depth, limit) && Leaves(["fi"], AfterOther, depth, depth, limit)
    ensures Leaves(["break"], AfterOther, depth, depth, limit)
    ensures Leaves(["done"], AfterOther, depth + 1, depth, limit)
  {}

  predicate Leaves(words: seq<string>, before: Before, depth: nat, after: nat, limit: nat) {
    InPlace(words, before, depth, limit) && KindOf(words) == AfterOther && DepthAfter(words, depth) == after
  }

  lemma PlainInPlace(words: seq<string>, depth: nat, limit: nat)
    requires Plain(words)
    ensures InPlace(words, AfterOther, depth, limit) && DepthAfter(words, depth) == depth && KindOf(words) == AfterOther
  {}

  lemma IfInPlace(cond: seq<string>, depth: nat, limit: nat)
    requires Plain(cond)
    ensures var words := ["if"] + cond;
            InPlace(words, AfterOther, depth, limit) && DepthAfter(words, depth) == depth && KindOf(words) == AfterIf
  {
    assert (["if"] + cond)[1..] == cond;
  }

  lemma LoopInPlace(until: bool, test: seq<string>, depth: nat, limit: nat)
    requires Plain(test) && depth + 1 < limit
    ensures var words := [LoopWord(until)] + test;
            && InPlace(words, AfterOther, depth, limit) && DepthAfter(words, depth) == depth + 1
            && KindOf(words) == AfterHead
  {
    assert ([LoopWord(until)] + test)[1..] == test;
  }

  lemma {:induction false} CodeShaped(b: Block, rest: Listing, ifRoom: int, depth: nat, limit: nat)
    requires Fits(b, ifRoom, limit - 1 - depth) && Shaped(rest, AfterOther, depth, limit)
    ensures Shaped(Code(b) + rest, AfterOther, depth, limit)
    decreases b
  {
    hide Shaped;
    if b.Seq? {
      CodeShaped(b.tail, rest, ifRoom, depth, limit);
      StmtShaped(b.head, Code(b.tail) + rest, ifRoom, depth, limit);
      assert Code(b) + rest == StmtCode(b.head) + (Code(b.tail) + rest);
    } else {
      assert Code(b) + rest == rest;
    }
  }

  lemma {:induction false} StmtShaped(s: Stmt, rest: Listing, ifRoom: int, depth: nat, limit: nat)
    requires StmtFits(s, ifRoom, limit - 1 - depth) && Shaped(rest, AfterOther, depth, limit)
    ensures Shaped(StmtCode(s) + rest, AfterOther, depth, limit)
    decreases s
  {
    hide Shaped, InPlace, KindOf, DepthAfter, Plain, LoopWord;
    match s
    case Run(words) =>
      PlainInPlace(words, depth, limit);
      ShapedFirst(words, rest, AfterOther, depth, limit);
    case Break =>
      WordsInPlace(depth, limit);
      ShapedFirst(["break"], rest, AfterOther, depth, limit);
    case If(cond, thn, els) =>
      ElseShaped(els, rest, ifRoom - 1, depth, limit);
      CodeShaped(thn, ElseCode(els) + rest, ifRoom - 1, depth, limit);
      IfShaped(cond, Code(thn), ElseCode(els), rest, depth, limit);
    case Loop(until, test, body) =>
      DoneShaped(rest, depth, limit);
      CodeShaped(body, [["done"]] + rest, ifRoom, depth + 1, limit);
      LoopShaped(until, test, Code(body), rest, depth, limit);
  }

  lemma IfShaped(cond: seq<string>, thn: Listing, els: Listing, rest: Listing, depth: nat, limit: nat)
    requires Plain(cond) && Shaped(thn + (els + rest), AfterOther, depth, limit)
    ensures Shaped([["if"] + cond, ["then"]] + (thn + els) + rest, AfterOther, depth, limit)
  {
    hide Shaped, InPlace, KindOf, DepthAfter, Plain;
    var body := thn + (els + rest);
    WordsInPlace(depth, limit);
    ShapedFirst(["then"], body, AfterIf, depth, limit);
    IfInPlace(cond, depth, limit);
    ShapedFirst(["if"] + cond, [["then"]] + body, AfterOther, depth, limit);
    assert [["if"] + cond, ["then"]] + (thn + els) + rest == [["if"] + cond] + ([["then"]] + body);
  }

  lemma DoneShaped(rest: Listing, depth: nat, limit: nat)
    requires Shaped(rest, AfterOther, depth, limit)
    ensures Shaped([["done"]] + rest, AfterOther, depth + 1, limit)
  {
    hide Shaped, InPlace, KindOf, DepthAfter;
    WordsInPlace(depth, limit);
    ShapedFirst(["done"], rest, AfterOther, depth + 1, limit);
  }

  lemma LoopShaped(until: bool, test: seq<string>, body: Listing, rest: Listing, depth: nat, limit: nat)
    requires Plain(test) && depth + 1 < limit && Shaped(body + ([["done"]] + rest), AfterOther, depth + 1, limit)
    ensures Shaped([[LoopWord(until)] + test, ["do"]] + (body + [["done"]]) + rest, AfterOther, depth, limit)
  {
    hide Shaped, InPlace, KindOf, DepthAfter, Plain, LoopWord;
    var inner := body + ([["done"]] + rest);
    WordsInPlace(depth + 1, limit);
    ShapedFirst(["do"], inner, AfterHead, depth + 1, limit);
    LoopInPlace(until, test, depth, limit);
    ShapedFirst([LoopWord(until)] + test, [["do"]] + inner, AfterOther, depth, limit);
    assert [[LoopWord(until)] + test, ["do"]] + (body + [["done"]]) + rest
        == [[LoopWord(until)] + test] + ([["do"]] + inner);
  }

  lemma {:induction false} ElseShaped(e: Else, rest: Listing, ifRoom: int, depth: nat, limit: nat)
    requires (e.Else? ==> Fits(e.block, ifRoom, limit - 1 - depth)) && Shaped(rest, AfterOther, depth, limit)
    ensures Shaped(ElseCode(e) + rest, AfterOther, depth, limit)
    decreases e
  {
    hide Shaped, InPlace, KindOf, DepthAfter;
    WordsInPlace(depth, limit);
    ShapedFirst(["fi"], rest, AfterOther, depth, limit);
    match e
    case NoElse =>
    case Else(b) =>
      CodeShaped(b, [["fi"]] + rest, ifRoom, depth, limit);
      ShapedFirst(["else"], Code(b) + ([["fi"]] + rest), AfterOther, depth, limit);
      assert ElseCode(e) + rest == [["else"]] + (Code(b) + ([["fi"]] + rest));
  }

  /** The part of the script from any command on is in place. */
  lemma {:induction false} ShapedFrom(p: Block, cmds: Script, ifRoom: int, pc: nat, limit: nat)
    requires Written(p, cmds) && Fits(p, ifRoom, limit - 1) && pc <= |cmds|
    ensures Rank(cmds, pc) <= |Code(p)|
    ensures Shaped(Code(p)[Rank(cmds, pc)..], BeforeAt(cmds, pc), |OpenHeads(cmds, pc)|, limit)
    decreases pc
  {
    hide StripTo, InPlace, IsLoopHead, KeywordOf, Code;
    var code := Code(p);
    if pc == 0 {
      NoneBefore(cmds);
      AllShaped(p, ifRoom, limit);
      assert code[0..] == code;
    } else {
      ShapedFrom(p, cmds, ifRoom, pc - 1, limit);
      Stripped(cmds, pc - 1, |cmds|);
      var k := Rank(cmds, pc - 1);
      if Blank(cmds[pc - 1]) {
        NoWords(cmds[pc - 1].words);
      } else {
        assert Strip(cmds)[0 + k].words == code[k];
        assert code[k..][1..] == code[k + 1..];
      }
    }
  }

  lemma NoneBefore(cmds: Script)
    ensures Rank(cmds, 0) == 0
  {}

  lemma NoWords(words: seq<string>)
    requires words == []
    ensures KeywordOf(words) == Nothing && !IsLoopHead(words)
  {}

  lemma AllShaped(p: Block, ifRoom: int, limit: nat)
    requires Fits(p, ifRoom, limit - 1)
    ensures Shaped(Code(p), AfterOther, 0, limit)
  {
    CodeShaped(p, [], ifRoom, 0, limit);
    assert Code(p) + [] == Code(p);
  }

  /** Every command of a script is in place. */
  lemma ScriptInPlace(p: Block, cmds: Script, ifRoom: int, pc: nat, limit: nat)
    requires Written(p, cmds) && Fits(p, ifRoom, limit - 1) && pc < |cmds|
    ensures InPlace(cmds[pc].words, BeforeAt(cmds, pc), |OpenHeads(cmds, pc)|, limit)
  {
    hide StripTo, InPlace, IsLoopHead, KeywordOf, Code, OpenHeads, BeforeAt, Shaped;
    ShapedFrom(p, cmds, ifRoom, pc, limit);
    Stripped(cmds, pc, |cmds|);
    if Blank(cmds[pc]) {
      BlankInPlace(cmds[pc].words, BeforeAt(cmds, pc), |OpenHeads(cmds, pc)|, limit);
    } else {
      var k := Rank(cmds, pc);
      assert Strip(cmds)[0 + k].words == Code(p)[k];
      HeadInPlace(Code(p)[k..], BeforeAt(cmds, pc), |OpenHeads(cmds, pc)|, limit);
    }
  }

  lemma BlankInPlace(words: seq<string>, before: Before, depth: nat, limit: nat)
    requires words == []
    ensures InPlace(words, before, depth, limit)
  {}

  lemma HeadInPlace(code: Listing, before: Before, depth: nat, limit: nat)
    requires Shaped(code, before, depth, limit) && code != []
    ensures InPlace(code[0], before, depth, limit)
  {}

  // ----- what one command keeps -----

  /** The live loop slots remember `heads`; all of them are open, the innermost perhaps about to be. */
  ghost predicate LoopsMatch(heads: seq<nat>, before: Before, np: Np) {
    && InBounds(np) && np.stream && np.lpndx == |heads|
    && np.lp[0].state == LoopNormal
    && (forall i :: 1 <= i <= np.lpndx ==> np.lp[i].topoffs == heads[i - 1])
    && (forall i :: 1 <= i < np.lpndx ==> np.lp[i].state == LoopDo)
    && (if before == AfterHead then AwaitsDo(np) else np.lpndx > 0 ==> np.Lp().state == LoopDo)
  }

  /** The `if` slots that are live, or may be again after a `break`. */
  ghost predicate Reaches(np: Np, i: nat) {
    i <= np.iendx || exists j :: 1 <= j <= np.lpndx < |np.lp| && i <= np.lp[j].iendx
  }

  /** Only an `if` that was just read waits for its `then`. */
  ghost predicate NoStrayIf(np: Np, before: Before) {
    forall i: nat :: i < |np.ie| && np.ie[i].state == ItefIf && Reaches(np, i) ==> i == np.iendx && before == AfterIf
  }

  ghost predicate Keeps(heads: seq<nat>, before: Before, np: Np) {
    LoopsMatch(heads, before, np) && NoStrayIf(np, before)
  }

  /** About to run the command at `pc`. */
  ghost predicate Due(np: Np, pc: nat) {
    np.foffs == pc && np.loffs == 0 && np.fpos == pc + 1 && !np.jump
  }

  lemma NoIfWaits(heads: seq<nat>, before: Before, np: Np)
    requires Keeps(heads, before, np) && before != AfterIf
    ensures InBounds(np) && np.Ie().state != ItefIf
  {
    assert Reaches(np, np.iendx);
  }

  lemma NoLoopWaits(heads: seq<nat>, before: Before, np: Np)
    requires Keeps(heads, before, np) && before != AfterHead
    ensures InBounds(np) && !AwaitsDo(np)
  {}

  /** Fewer slots in reach, with the same states, or states that do not wait. */
  lemma StillNoStray(a: Np, b: Np, before: Before, after: Before)
    requires NoStrayIf(a, before) && before != AfterIf && InBounds(a) && InBounds(b) && |a.ie| == |b.ie|
    requires forall i: nat :: i < |a.ie| && Reaches(b, i) ==>
               Reaches(a, i) && (b.ie[i].state == ItefIf ==> a.ie[i].state == ItefIf)
    ensures NoStrayIf(b, after)
  {}

  lemma SaveResultMatches(heads: seq<nat>, before: Before, np: Np, failed: bool)
    requires Keeps(heads, before, np)
    ensures InBounds(SaveResult(np, failed)) && Keeps(heads, before, SaveResult(np, failed))
    ensures SaveResult(np, failed).fpos == np.fpos
  {
    hide NoStrayIf;
    var np' := SaveResult(np, failed);
    assert LoopsMatch(heads, before, np');
    SaveResultNoStray(np, before, failed);
  }

  lemma SaveResultNoStray(np: Np, before: Before, failed: bool)
    requires InBounds(np) && NoStrayIf(np, before)
    ensures NoStrayIf(SaveResult(np, failed), before)
  {
    var np' := SaveResult(np, failed);
    forall i: nat | i < |np'.ie| && np'.ie[i].state == ItefIf && Reaches(np', i)
      ensures i == np'.iendx && before == AfterIf
    {
      assert Reaches(np, i);
    }
  }

  /** A loop head. */
  lemma HeadKeeps<E>(run: Behaviour<E>, np: Np, env: E, words: seq<string>, heads: seq<nat>, pc: nat)
    requires Keeps(heads, AfterOther, np) && Due(np, pc)
    requires IsLoopHead(words) && InPlace(words, AfterOther, |heads|, np.Depth())
    ensures var r := ParseCommand(run, np, env, words);
            r.ok && Keeps(heads + [pc], AfterHead, r.np) && r.np.fpos == pc + 1 && Accepts(np, words)
  {
    hide SaveResult, ItefStep, NoStrayIf, CmdEnabled;
    NoIfWaits(heads, AfterOther, np);
    NoLoopWaits(heads, AfterOther, np);
    var state := if KeywordOf(words) == KwWhile then LoopWhile else LoopUntil;
    var pushed := PushLoop(np, state);
    assert LoopStep(np, words) == Proceed(pushed, words[1..]);
    PushedKeeps(np, state, heads, pc);
    PassesItef(pushed, words[1..]);
    ArgvWord(words[1..]);
    if CmdEnabled(pushed) {
      var failed := run(env, pushed.fail, Argv(words[1..])).1;
      SaveResultMatches(heads + [pc], AfterHead, pushed, failed);
    }
  }

  lemma PushedKeeps(np: Np, state: LoopState, heads: seq<nat>, pc: nat)
    requires Keeps(heads, AfterOther, np) && Due(np, pc) && np.lpndx + 1 < np.Depth()
    requires state == LoopWhile || state == LoopUntil
    ensures InBounds(PushLoop(np, state)) && Keeps(heads + [pc], AfterHead, PushLoop(np, state))
  {
    var np' := PushLoop(np, state);
    forall i: nat | i < |np.ie| && Reaches(np', i) ensures Reaches(np, i) {
      if i > np'.iendx {
        var j :| 1 <= j <= np'.lpndx && i <= np'.lp[j].iendx;
        assert j <= np.lpndx;
        assert np.lp[j] == np'.lp[j];
      }
    }
    StillNoStray(np, np', AfterOther, AfterHead);
  }

  lemma DoKeeps<E>(run: Behaviour<E>, np: Np, env: E, words: seq<string>, heads: seq<nat>, pc: nat)
    requires Keeps(heads, AfterHead, np) && Due(np, pc) && KeywordOf(words) == KwDo && |words| == 1
    ensures var r := ParseCommand(run, np, env, words);
            r.ok && Keeps(heads, AfterOther, r.np) && r.np.fpos == pc + 1 && Accepts(np, words)
  {
    var np' := SetLoop(np, np.Lp().(state := LoopDo));
    assert LoopStep(np, words) == Proceed(np', []);
    forall i: nat | i < |np.ie| && Reaches(np', i) ensures Reaches(np, i) {
      if i > np'.iendx {
        var j :| 1 <= j <= np'.lpndx && i <= np'.lp[j].iendx;
        assert i <= np.lp[j].iendx;
      }
    }
    StillNoStray(np, np', AfterHead, AfterOther);
    PassesNothing(np');
  }

  lemma DoneKeeps<E>(run: Behaviour<E>, np: Np, env: E, words: seq<string>, heads: seq<nat>, pc: nat)
    requires Keeps(heads, AfterOther, np) && Due(np, pc) && KeywordOf(words) == KwDone && |words| == 1 && heads != []
    ensures var r := ParseCommand(run, np, env, words);
            && r.ok && Keeps(heads[..|heads| - 1], AfterOther, r.np) && Accepts(np, words)
            && r.np.fpos == if np.Lp().enable then heads[|heads| - 1] else pc + 1
  {
    var np' := PopLoop(np);
    assert LoopStep(np, words) == Proceed(np', []);
    forall i: nat | i < |np.ie| && Reaches(np', i) ensures Reaches(np, i) {
      if i > np'.iendx {
        var j :| 1 <= j <= np'.lpndx && i <= np'.lp[j].iendx;
        assert i <= np.lp[j].iendx;
      }
    }
    StillNoStray(np, np', AfterOther, AfterOther);
    PassesNothing(np');
  }

  lemma IfKeeps<E>(run: Behaviour<E>, np: Np, env: E, words: seq<string>, heads: seq<nat>, pc: nat)
    requires Keeps(heads, AfterOther, np) && Due(np, pc)
    requires KeywordOf(words) == KwIf && InPlace(words, AfterOther, |heads|, np.Depth())
    ensures var r := ParseCommand(run, np, env, words);
            && (r.ok ==> Keeps(heads, AfterIf, r.np) && r.np.fpos == pc + 1)
            && (!Accepts(np, words) ==> !r.ok)
  {
    hide SaveResult, LoopStep, NoStrayIf, CmdEnabled, LoopsMatch;
    NoIfWaits(heads, AfterOther, np);
    NoLoopWaits(heads, AfterOther, np);
    PassesLoop(np, words);
    if np.iendx + 1 < |np.ie| {
      var pushed := PushItef(np);
      PushedIfKeeps(np, heads);
      ArgvWord(words[1..]);
      if CmdEnabled(pushed) {
        var failed := run(env, pushed.fail, Argv(words[1..])).1;
        SaveResultMatches(heads, AfterIf, pushed, failed);
      }
    } else {
      RejectStops(np);
    }
  }

  /** A misplaced `if` word ends the script where no loop waits for its `do`. */
  lemma RejectStops(np: Np)
    requires InBounds(np) && !AwaitsDo(np)
    ensures InBounds(ResetItef(np)) && !ResultOk(ResetItef(np), true)
  {}

  lemma PushedIfKeeps(np: Np, heads: seq<nat>)
    requires Keeps(heads, AfterOther, np) && np.iendx + 1 < |np.ie|
    ensures InBounds(PushItef(np)) && Keeps(heads, AfterIf, PushItef(np))
  {
    var np' := PushItef(np);
    forall i: nat | Reaches(np', i) && i != np'.iendx ensures Reaches(np, i) {}
  }

  /** `then`, `else` or `fi`. */
  lemma BranchKeeps<E>(run: Behaviour<E>, np: Np, env: E, words: seq<string>, heads: seq<nat>, before: Before, pc: nat)
    requires Keeps(heads, before, np) && Due(np, pc) && before != AfterHead
    requires KeywordOf(words) == KwThen || (before == AfterOther && KeywordOf(words) in {KwElse, KwFi})
    ensures var r := ParseCommand(run, np, env, words);
            && (r.ok ==> Keeps(heads, AfterOther, r.np) && r.np.fpos == pc + 1)
            && (!Accepts(np, words) ==> !r.ok)
  {
    hide LoopStep, NoStrayIf, LoopsMatch, SaveResult, CmdEnabled;
    NoLoopWaits(heads, before, np);
    PassesLoop(np, words);
    RejectStops(np);
    if ItefFaultOf(np, words) == NoFault {
      var np' := ItefEffect(np, words);
      BranchEffectKeeps(np, words, heads, before);
      if words[1..] != [] && CmdEnabled(np') {
        ExecuteKeepsAll(run, np', env, Argv(words[1..]), heads);
      }
    }
  }

  lemma BranchEffectKeeps(np: Np, words: seq<string>, heads: seq<nat>, before: Before)
    requires Keeps(heads, before, np) && before != AfterHead && ItefFaultOf(np, words) == NoFault
    requires KeywordOf(words) == KwThen || (before == AfterOther && KeywordOf(words) in {KwElse, KwFi})
    ensures Keeps(heads, AfterOther, ItefEffect(np, words)) && ItefEffect(np, words).fpos == np.fpos
  {
    var np' := ItefEffect(np, words);
    forall i: nat | Reaches(np', i) ensures Reaches(np, i) {}
  }

  /** `break` and plain commands. */
  lemma ExecuteKeepsAll<E>(run: Behaviour<E>, np: Np, env: E, argv: seq<string>, heads: seq<nat>)
    requires Keeps(heads, AfterOther, np) && argv != []
    ensures var r := Execute(run, np, env, argv);
            Keeps(heads, AfterOther, r.np) && r.np.fpos == np.fpos
  {
    hide SaveResult, NoStrayIf, LoopsMatch;
    NoLoopWaits(heads, AfterOther, np);
    if KeywordOf(argv) == KwBreak {
      BrokenKeeps(np, heads);
      SaveResultMatches(heads, AfterOther, CmdBreak(np), false);
      SaveResultMatches(heads, AfterOther, np, true);
    } else {
      SaveResultMatches(heads, AfterOther, np, run(env, np.fail, argv).1);
    }
  }

  lemma BrokenKeeps(np: Np, heads: seq<nat>)
    requires Keeps(heads, AfterOther, np)
    ensures InBounds(CmdBreak(np)) && Keeps(heads, AfterOther, CmdBreak(np)) && CmdBreak(np).fpos == np.fpos
  {
    var np' := CmdBreak(np);
    forall i: nat | i < |np.ie| && Reaches(np', i) ensures Reaches(np, i) {
      if np.Lp().state == LoopDo && i <= np'.iendx {
        assert 1 <= np.lpndx <= np.lpndx < |np.lp| && i <= np.lp[np.lpndx].iendx;
      } else if i > np'.iendx {
        var j :| 1 <= j <= np'.lpndx && i <= np'.lp[j].iendx;
        assert i <= np.lp[j].iendx;
      }
    }
    StillNoStray(np, np', AfterOther, AfterOther);
  }

  lemma PlainKeeps<E>(run: Behaviour<E>, np: Np, env: E, words: seq<string>, heads: seq<nat>, pc: nat)
    requires Keeps(heads, AfterOther, np) && Due(np, pc) && KeywordOf(words) in {KwBreak, Other}
    ensures var r := ParseCommand(run, np, env, words);
            Keeps(heads, AfterOther, r.np) && r.np.fpos == pc + 1 && Accepts(np, words)
  {
    hide LoopStep, ItefStep, NoStrayIf, LoopsMatch, Execute, CmdEnabled;
    NoIfWaits(heads, AfterOther, np);
    NoLoopWaits(heads, AfterOther, np);
    PassesLoop(np, words);
    PassesItef(np, words);
    if CmdEnabled(np) {
      ExecuteKeepsAll(run, np, env, Argv(words), heads);
    }
  }

  // ----- what every step keeps -----

  ghost predicate Matched<E>(cmds: Script, m: Machine<E>) {
    !m.done ==>
      && 0 <= m.np.fpos <= |cmds|
      && Keeps(OpenHeads(cmds, m.np.fpos), BeforeAt(cmds, m.np.fpos), m.np)
  }

  lemma KeepsMoved(heads: seq<nat>, before: Before, np: Np, pc: nat)
    requires Keeps(heads, before, np)
    ensures var np' := np.(foffs := pc, loffs := 0, fpos := pc + 1, jump := false);
            InBounds(np') && Keeps(heads, before, np') && Due(np', pc)
  {
    var np' := np.(foffs := pc, loffs := 0, fpos := pc + 1, jump := false);
    assert LoopsMatch(heads, before, np');
    forall i: nat | i < |np'.ie| && np'.ie[i].state == ItefIf && Reaches(np', i)
      ensures i == np'.iendx && before == AfterIf
    {
      assert Reaches(np, i);
    }
  }

  lemma NextHeads(cmds: Script, pc: nat)
    requires pc < |cmds|
    ensures var words := cmds[pc].words;
            && OpenHeads(cmds, pc + 1) ==
               (if IsLoopHead(words) then OpenHeads(cmds, pc) + [pc]
                else if KeywordOf(words) == KwDone && OpenHeads(cmds, pc) != []
                then OpenHeads(cmds, pc)[..|OpenHeads(cmds, pc)| - 1]
                else OpenHeads(cmds, pc))
            && BeforeAt(cmds, pc + 1) == (if words == [] then BeforeAt(cmds, pc) else KindOf(words))
  {}

  ghost predicate AllInPlace(cmds: Script, limit: nat) {
    forall c :: 0 <= c < |cmds| ==> InPlace(cmds[c].words, BeforeAt(cmds, c), |OpenHeads(cmds, c)|, limit)
  }

  lemma OneInPlace(cmds: Script, limit: nat, c: nat)
    requires AllInPlace(cmds, limit) && c < |cmds|
    ensures InPlace(cmds[c].words, BeforeAt(cmds, c), |OpenHeads(cmds, c)|, limit)
  {}

  /** One step of a script whose commands are in place. */
  lemma AdvanceMatched<E>(run: Behaviour<E>, cmds: Script, m: Machine<E>)
    requires InBounds(m.np) && Matched(cmds, m)
    requires AllInPlace(cmds, m.np.Depth())
    ensures Matched(cmds, Advance(run, cmds, m)) && Advance(run, cmds, m).np.Depth() == m.np.Depth()
  {
    hide ParseCommand, Accepts, Keeps, OpenHeads, BeforeAt, NoStrayIf, LoopsMatch, AllInPlace;
    if !m.done && 0 <= m.np.fpos < |cmds| {
      var pc := m.np.fpos;
      var words := cmds[pc].words;
      var heads, before := OpenHeads(cmds, pc), BeforeAt(cmds, pc);
      OneInPlace(cmds, m.np.Depth(), pc);
      var np := m.np.(foffs := pc, loffs := 0, fpos := pc + 1, jump := false);
      KeepsMoved(heads, before, m.np, pc);
      NextHeads(cmds, pc);
      match KeywordOf(words) {
        case Nothing => NothingKeeps(run, np, m.env, words);
        case KwWhile => HeadKeeps(run, np, m.env, words, heads, pc);
        case KwUntil => HeadKeeps(run, np, m.env, words, heads, pc);
        case KwDo => DoKeeps(run, np, m.env, words, heads, pc);
        case KwDone =>
          DoneKeeps(run, np, m.env, words, heads, pc);
          BackAtHead(cmds, pc, heads, heads[|heads| - 1], m.np.Depth());
        case KwIf => IfKeeps(run, np, m.env, words, heads, pc);
        case KwThen => BranchKeeps(run, np, m.env, words, heads, before, pc);
        case KwElse => BranchKeeps(run, np, m.env, words, heads, before, pc);
        case KwFi => BranchKeeps(run, np, m.env, words, heads, before, pc);
        case _ => PlainKeeps(run, np, m.env, words, heads, pc);
      }
    }
  }

  lemma NothingKeeps<E>(run: Behaviour<E>, np: Np, env: E, words: seq<string>)
    requires InBounds(np) && words == []
    ensures ParseCommand(run, np, env, words) == Step(np, env, true) && Accepts(np, words)
  {
    hide LoopStep, ItefStep;
    PassesNothing(np);
  }

  /** Back at the head `h` of the innermost of the open loops `o`, just the loops around it are open. */
  lemma BackAtHead(cmds: Script, pc: nat, o: seq<nat>, h: nat, limit: nat)
    requires pc <= |cmds| && OpenHeads(cmds, pc) == o && |o| > 0 && o[|o| - 1] == h && AllInPlace(cmds, limit)
    ensures h < |cmds| && OpenHeads(cmds, h) == o[..|o| - 1] && BeforeAt(cmds, h) == AfterOther
  {
    hide OpenHeads, BeforeAt, AllInPlace, InPlace, IsLoopHead;
    OpenAtHead(cmds, pc, |o| - 1);
    OneInPlace(cmds, limit, h);
    HeadFollows(cmds[h].words, BeforeAt(cmds, h), |OpenHeads(cmds, h)|, limit);
  }

  lemma HeadFollows(words: seq<string>, before: Before, depth: nat, limit: nat)
    requires InPlace(words, before, depth, limit) && IsLoopHead(words)
    ensures before == AfterOther
  {}

  lemma {:induction false} IterateMatched<E>(run: Behaviour<E>, cmds: Script, m: Machine<E>, k: nat)
    requires InBounds(m.np) && Matched(cmds, m)
    requires AllInPlace(cmds, m.np.Depth())
    ensures Matched(cmds, Iterate(run, cmds, m, k))
    decreases k
  {
    hide Advance, Matched, AllInPlace;
    if k > 0 {
      AdvanceMatched(run, cmds, m);
      IterateMatched(run, cmds, Advance(run, cmds, m), k - 1);
    }
  }

  // ----- scripts -----

  /** No live `if` waits for its `then`. */
  ghost predicate NoneWaits(np: Np) {
    forall i :: 0 <= i <= np.iendx < |np.ie| ==> np.ie[i].state != ItefIf
  }

  lemma StartMatched<E>(np: Np, env: E, cmds: Script)
    requires Open(np) && NoneWaits(np)
    ensures Matched(cmds, Start(np, env))
  {}

  /** After any number of commands of any script that fits, whatever its breaks and loops: the open loops are those
      whose heads are read and whose `done` is not, and each goes back to its own head. */
  lemma LoopsMatchHeads<E>(run: Behaviour<E>, np: Np, env: E, p: Block, cmds: Script, k: nat)
    requires CanStart(np, p, cmds) && NoneWaits(np)
    ensures Matched(cmds, Iterate(run, cmds, Start(np, env), k))
  {
    hide Iterate, Matched, InPlace, BeforeAt, OpenHeads;
    StartMatched(np, env, cmds);
    var m := Start(np, env);
    forall c | 0 <= c < |cmds|
      ensures InPlace(cmds[c].words, BeforeAt(cmds, c), |OpenHeads(cmds, c)|, m.np.Depth())
    {
      ScriptInPlace(p, cmds, np.Depth() - 1 - np.iendx, c, np.Depth());
    }
    IterateMatched(run, cmds, m, k);
  }

  // ----- files -----

  /** The loop heads among the first `n` commands of a file that no `done` among them matches. */
  function OpenItems(items: Layout, n: nat): (o: seq<nat>)
    requires n <= |items|
    ensures forall i :: 0 <= i < |o| ==> o[i] < n
  {
    if n == 0 then []
    else
      var o := OpenItems(items, n - 1);
      var words := ItemWords(items[n - 1]);
      if IsLoopHead(words) then o + [n - 1]
      else if KeywordOf(words) == KwDone && o != [] then o[..|o| - 1]
      else o
  }

  ghost predicate SameHeads(items: Layout, n: nat)
    requires n <= |items| && First(items, n) <= |Cells(items)|
  {
    var o, h := OpenItems(items, n), OpenHeads(Cells(items), First(items, n));
    |o| == |h| && forall i :: 0 <= i < |o| ==> h[i] == First(items, o[i])
  }

  lemma FirstInCells(items: Layout, n: nat)
    requires n <= |items|
    ensures First(items, n) <= |Cells(items)|
  {
    if n < |items| {
      CellsAt(items, n, |items|);
    }
  }

  lemma {:induction false} HeadsOfItems(items: Layout, n: nat)
    requires n <= |items| && First(items, n) <= |Cells(items)|
    ensures SameHeads(items, n)
    decreases n
  {
    hide CellsOf, ItemWords, KeywordOf, CellsTo, IsLoopHead, OpenHeads;
    if n > 0 {
      FirstInCells(items, n - 1);
      HeadsOfItems(items, n - 1);
      CellsAt(items, n - 1, |items|);
      HeadsOfItem(Cells(items), First(items, n - 1), First(items, n), ItemWords(items[n - 1]));
    } else {
      NoneRead(items);
    }
  }

  lemma NoneRead(items: Layout)
    ensures First(items, 0) == 0 && OpenHeads(Cells(items), 0) == []
  {}

  /** The cells of one command do to the open heads what the command does. */
  lemma HeadsOfItem(cmds: Script, a: nat, b: nat, words: seq<string>)
    requires a <= b <= |cmds| && cmds[a..b] == CellsOf(words)
    ensures OpenHeads(cmds, b) ==
            if IsLoopHead(words) then OpenHeads(cmds, a) + [a]
            else if KeywordOf(words) == KwDone && OpenHeads(cmds, a) != []
            then OpenHeads(cmds, a)[..|OpenHeads(cmds, a)| - 1]
            else OpenHeads(cmds, a)
  {
    hide OpenHeads, BeforeAt;
    assert cmds[a] == cmds[a..b][0];
    NextHeads(cmds, a);
    if Opens(words) {
      assert cmds[a + 1] == cmds[a..b][1];
      NextHeads(cmds, a + 1);
    }
  }

  lemma {:induction false} FirstIncreases(items: Layout, a: nat, b: nat)
    requires a < b <= |items|
    ensures First(items, a) < First(items, b)
    decreases b
  {
    hide CellsOf, ItemWords;
    if a + 1 < b {
      FirstIncreases(items, a, b - 1);
    }
  }

  /** While a file written from any script that fits is read, `n` lines long: the reader stands at a command of the
      file, the open loops are those whose heads are before it and whose `done` is not, and the offset that each would
      seek to is the byte at which its own head starts. */
  lemma SeeksMatchingHead<E>(run: Behaviour<E>, np: Np, env: E, p: Block, items: Layout, n: nat) returns (k: nat)
    requires Readable(items) && CanStart(np, p, Cells(items)) && NoneWaits(np)
    ensures InBounds(Start(np, env).np)
    ensures var f := ReadLines(run, Text(items), Start(np, env), n);
            !f.done ==>
              && k <= |items| && f.np.fpos == Off(items, k) && f.np.lpndx == |OpenItems(items, k)| < |f.np.lp|
              && forall i :: 1 <= i <= f.np.lpndx ==> f.np.lp[i].topoffs == Off(items, OpenItems(items, k)[i - 1])
  {
    hide ReadLines, Iterate, TextOf, CellsTo, ItemWords, Readable, CanStart, OpenItems, OpenHeads, NoStrayIf, InBounds,
      Alike, Keeps, SameHeads, PlacesOf;
    var m := Start(np, env);
    StartsOpen(np, p, Cells(items));
    StartInStep(np, env, items);
    var j := LinesInStep(run, items, m, m, n);
    LoopsMatchHeads(run, np, env, p, Cells(items), j);
    var a := Iterate(run, Cells(items), m, j);
    var f := ReadLines(run, Text(items), m, n);
    k := 0;
    if !f.done {
      k := PlaceAt(items, a.np.fpos, f.np.fpos);
      FirstInCells(items, k);
      HeadsOfItems(items, k);
      EachAtItsHead(items, k, BeforeAt(Cells(items), a.np.fpos), a.np, f.np);
    }
  }

  /** What matches on commands matches on bytes. */
  lemma EachAtItsHead(items: Layout, k: nat, before: Before, a: Np, f: Np)
    requires k <= |items| && First(items, k) <= |Cells(items)| && SameHeads(items, k)
    requires Keeps(OpenHeads(Cells(items), First(items, k)), before, a) && Alike(PlacesOf(items), a, f)
    ensures f.lpndx == |OpenItems(items, k)| < |f.lp|
    ensures forall i :: 1 <= i <= f.lpndx ==> f.lp[i].topoffs == Off(items, OpenItems(items, k)[i - 1])
  {
    hide TextOf, CellsTo, OpenItems, OpenHeads, NoStrayIf, InBounds, Alike;
    SameLength(PlacesOf(items), a, f);
    forall i | 1 <= i <= f.lpndx ensures f.lp[i].topoffs == Off(items, OpenItems(items, k)[i - 1]) {
      TopPlace(PlacesOf(items), a, f, i);
      var q := PlaceAt(items, a.lp[i].topoffs, f.lp[i].topoffs);
      var h := OpenItems(items, k)[i - 1];
      if q < h {
        FirstIncreases(items, q, h);
      } else if h < q {
        FirstIncreases(items, h, q);
      }
    }
  }

  lemma SameLength(places: Places, a: Np, b: Np)
    requires Alike(places, a, b)
    ensures a.lpndx == b.lpndx < |a.lp| == |b.lp|
  {}

  lemma TopPlace(places: Places, a: Np, b: Np, i: nat)
    requires Alike(places, a, b) && 1 <= i <= a.lpndx
    ensures a.lpndx < |a.lp| == |b.lp| && (a.lp[i].topoffs, b.lp[i].topoffs) in places
  {}

  lemma StartInStep<E>(np: Np, env: E, items: Layout)
    requires Open(np) && Readable(items)
    ensures InBounds(Start(np, env).np) && InStep(items, Start(np, env), Start(np, env))
  {
    hide Readable, HasPlace;
    StartHasPlace(items);
    StopIsPlace(items, 0);
  }

  lemma StartHasPlace(items: Layout)
    requires Readable(items)
    ensures HasPlace(items, 0)
  {
    assert StartsLine(items, 0);
  }
}
