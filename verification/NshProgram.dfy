/** Structured scripts, their meaning, and the flat list of commands they are written as.

    The meaning is that of section 2.9.4 of XCU, POSIX.1-2017, for `if`, `while`, `until` and `break`,
    except that a plain command that fails ends the script. */
module NshProgram {
  import opened NshMachine

  datatype Block = End | Seq(head: Stmt, tail: Block)
  datatype Else = NoElse | Else(block: Block)
  datatype Stmt =
    | Run(words: seq<string>)
    | Break
    | If(cond: seq<string>, thn: Block, els: Else)
    | Loop(until: bool, test: seq<string>, body: Block)

  /** A command that is no keyword. */
  predicate Plain(words: seq<string>) {
    KeywordOf(words) == Other
  }

  // ----- the commands of a script, in file order -----

  function Code(b: Block): Listing {
    match b
    case End => []
    case Seq(s, rest) => StmtCode(s) + Code(rest)
  }

  function StmtCode(s: Stmt): (c: Listing)
    ensures c != []
  {
    match s
    case Run(words) => [words]
    case Break => [["break"]]
    case If(cond, thn, els) => [["if"] + cond, ["then"]] + (Code(thn) + ElseCode(els))
    case Loop(until, test, body) => [[LoopWord(until)] + test, ["do"]] + (Code(body) + [["done"]])
  }

  function ElseCode(e: Else): Listing {
    match e
    case NoElse => [["fi"]]
    case Else(b) => [["else"]] + (Code(b) + [["fi"]])
  }

  function LoopWord(until: bool): string { if until then "until" else "while" }

  // ----- what a script means -----

  /** `Lost` is no end of a script: see `Act`. */
  datatype Outcome = Normal | Broke | Lost | Failed | Timeout
  datatype Result<E> = Result(env: E, fail: bool, out: Outcome)

  /** A command sees the words that fit the argument vector.  `fuel` bounds the number of times a loop goes
      round; `Timeout` says that it did not suffice. */
  function Eval<E>(run: Behaviour<E>, b: Block, env: E, fail: bool, inLoop: bool, fuel: nat): Result<E>
    decreases fuel, b
  {
    match b
    case End => Result(env, fail, Normal)
    case Seq(s, rest) =>
      var r := EvalStmt(run, s, env, fail, inLoop, fuel);
      if r.out == Normal then Eval(run, rest, r.env, r.fail, inLoop, fuel) else r
  }

  function EvalStmt<E>(run: Behaviour<E>, s: Stmt, env: E, fail: bool, inLoop: bool, fuel: nat): Result<E>
    decreases fuel, s
  {
    match s
    case Run(words) =>
      var (env', failed) := run(env, fail, Argv(words));
      Result(env', failed, if failed then Failed else Normal)
    case Break =>
      Result(env, false, if inLoop then Broke else Normal)
    case If(cond, thn, els) =>
      var (env', failed) := run(env, fail, Argv(cond));
      if !failed then Eval(run, thn, env', false, inLoop, fuel) else EvalElse(run, els, env', inLoop, fuel)
    case Loop(until, test, body) =>
      if fuel == 0 then Result(env, fail, Timeout)
      else
        var (env', failed) := run(env, fail, Argv(test));
        if failed != until then Result(env', false, Normal)
        else
          var r := Eval(run, body, env', false, true, fuel);
          match r.out
          case Normal => EvalStmt(run, s, r.env, r.fail, inLoop, fuel - 1)
          case Broke => r.(out := Normal)
          case _ => r
  }

  function EvalElse<E>(run: Behaviour<E>, e: Else, env: E, inLoop: bool, fuel: nat): Result<E>
    decreases fuel, e
  {
    match e
    case NoElse => Result(env, false, Normal)
    case Else(b) => Eval(run, b, env, false, inLoop, fuel)
  }

  /** Fuel that suffices gives the meaning, and more of it changes nothing. */
  lemma {:induction false} MoreFuel<E>(run: Behaviour<E>, b: Block, env: E, fail: bool, inLoop: bool, f: nat, g: nat)
    requires f <= g && Eval(run, b, env, fail, inLoop, f).out != Timeout
    ensures Eval(run, b, env, fail, inLoop, g) == Eval(run, b, env, fail, inLoop, f)
    decreases f, b
  {
    if b.Seq? {
      MoreStmtFuel(run, b.head, env, fail, inLoop, f, g);
      var r := EvalStmt(run, b.head, env, fail, inLoop, f);
      if r.out == Normal {
        MoreFuel(run, b.tail, r.env, r.fail, inLoop, f, g);
      }
    }
  }

  lemma {:induction false} MoreStmtFuel<E>(run: Behaviour<E>, s: Stmt, env: E, fail: bool, inLoop: bool, f: nat, g: nat)
    requires f <= g && EvalStmt(run, s, env, fail, inLoop, f).out != Timeout
    ensures EvalStmt(run, s, env, fail, inLoop, g) == EvalStmt(run, s, env, fail, inLoop, f)
    decreases f, s
  {
    match s
    case Run(_) =>
    case Break =>
    case If(cond, thn, els) =>
      var (env', failed) := run(env, fail, Argv(cond));
      if !failed {
        MoreFuel(run, thn, env', false, inLoop, f, g);
      } else if els.Else? {
        MoreFuel(run, els.block, env', false, inLoop, f, g);
      }
    case Loop(until, test, body) =>
      var (env', failed) := run(env, fail, Argv(test));
      if failed == until {
        MoreFuel(run, body, env', false, true, f, g);
        var r := Eval(run, body, env', false, true, f);
        if r.out == Normal {
          MoreStmtFuel(run, s, r.env, r.fail, inLoop, f - 1, g - 1);
        }
      }
  }

  /** The meaning of a script does not depend on the fuel. */
  lemma MeaningUnique<E>(run: Behaviour<E>, b: Block, env: E, fail: bool, inLoop: bool, f: nat, g: nat)
    requires Eval(run, b, env, fail, inLoop, f).out != Timeout && Eval(run, b, env, fail, inLoop, g).out != Timeout
    ensures Eval(run, b, env, fail, inLoop, f) == Eval(run, b, env, fail, inLoop, g)
  {
    if f <= g {
      MoreFuel(run, b, env, fail, inLoop, f, g);
    } else {
      MoreFuel(run, b, env, fail, inLoop, g, f);
    }
  }

  // ----- what NSH makes of a script -----

  /** As `Eval`, with two differences.  Where a loop is left, the loops standing bare in the part of the body that is
      jumped over are run, although that part is to be skipped.  And a `break` inside an `if` of its loop drops that
      `if`: the script is `Lost`, and the next `else` or `fi` is out of place and ends it with an error.  `direct`
      says that the block is at the `if` level of its loop. */
  function Act<E>(run: Behaviour<E>, b: Block, env: E, fail: bool, inLoop: bool, direct: bool, fuel: nat): Result<E>
    decreases fuel, b
  {
    match b
    case End => Result(env, fail, Normal)
    case Seq(s, rest) =>
      var r := ActStmt(run, s, env, fail, inLoop, direct, fuel);
      match r.out
      case Normal => Act(run, rest, r.env, r.fail, inLoop, direct, fuel)
      case Broke =>
        var r' := Residue(run, rest, r.env, r.fail, fuel);
        if r'.out == Normal then r'.(out := Broke) else r'
      case _ => r
  }

  function ActStmt<E>(run: Behaviour<E>, s: Stmt, env: E, fail: bool, inLoop: bool, direct: bool, fuel: nat): Result<E>
    decreases fuel, s
  {
    match s
    case Run(words) =>
      var (env', failed) := run(env, fail, Argv(words));
      Result(env', failed, if failed then Failed else Normal)
    case Break =>
      Result(env, false, if !inLoop then Normal else if direct then Broke else Lost)
    case If(cond, thn, els) =>
      var (env', failed) := run(env, fail, Argv(cond));
      Strand(if !failed then Act(run, thn, env', false, inLoop, false, fuel) else ActElse(run, els, env', inLoop, fuel))
    case Loop(_, _, _) => ActLoop(run, s, env, fail, fuel)
  }

  /** What becomes of a branch of an `if` at the end of that branch. */
  function Strand<E>(r: Result<E>): Result<E> {
    if r.out == Lost then r.(fail := true, out := Failed) else r
  }

  function ActElse<E>(run: Behaviour<E>, e: Else, env: E, inLoop: bool, fuel: nat): Result<E>
    decreases fuel, e
  {
    match e
    case NoElse => Result(env, false, Normal)
    case Else(b) => Act(run, b, env, false, inLoop, false, fuel)
  }

  function ActLoop<E>(run: Behaviour<E>, s: Stmt, env: E, fail: bool, fuel: nat): Result<E>
    requires s.Loop?
    decreases fuel, s, 0
  {
    if fuel == 0 then Result(env, fail, Timeout)
    else
      var (env', failed) := run(env, fail, Argv(s.test));
      if failed != s.until then Residue(run, s.body, env', false, fuel)
      else
        var r := Act(run, s.body, env', false, true, true, fuel);
        match r.out
        case Normal => ActLoop(run, s, r.env, r.fail, fuel - 1)
        case Broke => r.(out := Normal)
        case _ => r
  }

  /** The bare loops of a skipped part of a loop body. */
  function Residue<E>(run: Behaviour<E>, b: Block, env: E, fail: bool, fuel: nat): Result<E>
    decreases fuel, b
  {
    match b
    case End => Result(env, fail, Normal)
    case Seq(s, rest) =>
      if s.Loop? then
        var r := ActLoop(run, s, env, fail, fuel);
        if r.out == Normal then Residue(run, rest, r.env, r.fail, fuel) else r
      else
        Residue(run, rest, env, fail, fuel)
  }

  /** Which ends there are: only a `break` at the `if` level of its loop breaks out, and only one that is not loses
      the script. */
  lemma {:induction false} ActEnds<E>(
    run: Behaviour<E>, b: Block, env: E, fail: bool, inLoop: bool, direct: bool, fuel: nat)
    ensures var r := Act(run, b, env, fail, inLoop, direct, fuel);
            (r.out == Broke ==> inLoop && direct) && (r.out == Lost ==> inLoop && !direct)
    decreases fuel, b
  {
    if b.Seq? {
      ActStmtEnds(run, b.head, env, fail, inLoop, direct, fuel);
      var r := ActStmt(run, b.head, env, fail, inLoop, direct, fuel);
      if r.out == Normal {
        ActEnds(run, b.tail, r.env, r.fail, inLoop, direct, fuel);
      } else if r.out == Broke {
        ResidueEnds(run, b.tail, r.env, r.fail, fuel);
      }
    }
  }

  lemma {:induction false} ActStmtEnds<E>(
    run: Behaviour<E>, s: Stmt, env: E, fail: bool, inLoop: bool, direct: bool, fuel: nat)
    ensures var r := ActStmt(run, s, env, fail, inLoop, direct, fuel);
            (r.out == Broke ==> s.Break? && inLoop && direct) && (r.out == Lost ==> s.Break? && inLoop && !direct)
    decreases fuel, s
  {
    match s
    case Run(_) =>
    case Break =>
    case If(cond, thn, els) =>
      var env' := run(env, fail, Argv(cond)).0;
      ActEnds(run, thn, env', false, inLoop, false, fuel);
      if els.Else? {
        ActEnds(run, els.block, env', false, inLoop, false, fuel);
      }
    case Loop(_, _, _) =>
      LoopEndsItself(run, s, env, fail, fuel);
  }

  /** A `break` in a loop ends that loop and no other. */
  lemma {:induction false} LoopEndsItself<E>(run: Behaviour<E>, s: Stmt, env: E, fail: bool, fuel: nat)
    requires s.Loop?
    ensures ActLoop(run, s, env, fail, fuel).out !in {Broke, Lost}
    decreases fuel, s, 0
  {
    if fuel > 0 {
      var (env', failed) := run(env, fail, Argv(s.test));
      if failed != s.until {
        ResidueEnds(run, s.body, env', false, fuel);
      } else {
        ActEnds(run, s.body, env', false, true, true, fuel);
        var r := Act(run, s.body, env', false, true, true, fuel);
        if r.out == Normal {
          LoopEndsItself(run, s, r.env, r.fail, fuel - 1);
        }
      }
    }
  }

  lemma {:induction false} ResidueEnds<E>(run: Behaviour<E>, b: Block, env: E, fail: bool, fuel: nat)
    ensures Residue(run, b, env, fail, fuel).out !in {Broke, Lost}
    decreases fuel, b
  {
    if b.Seq? {
      if b.head.Loop? {
        LoopEndsItself(run, b.head, env, fail, fuel);
        var r := ActLoop(run, b.head, env, fail, fuel);
        ResidueEnds(run, b.tail, r.env, r.fail, fuel);
      } else {
        ResidueEnds(run, b.tail, env, fail, fuel);
      }
    }
  }

  // ----- which scripts the interpreter can handle -----

  /** `ifRoom` and `loopRoom` slots suffice for the nesting of `b`; commands are plain. */
  predicate Fits(b: Block, ifRoom: int, loopRoom: int) {
    match b
    case End => true
    case Seq(s, rest) => StmtFits(s, ifRoom, loopRoom) && Fits(rest, ifRoom, loopRoom)
  }

  predicate StmtFits(s: Stmt, ifRoom: int, loopRoom: int) {
    match s
    case Run(words) => Plain(words)
    case Break => true
    case If(cond, thn, els) =>
      && Plain(cond) && ifRoom > 0
      && Fits(thn, ifRoom - 1, loopRoom)
      && (els.Else? ==> Fits(els.block, ifRoom - 1, loopRoom))
    case Loop(_, test, body) =>
      Plain(test) && loopRoom > 0 && Fits(body, ifRoom, loopRoom - 1)
  }

  /** In a loop every `break` stands outside every `if` of that loop.  Of what follows a `break` of that body only the
      bare loops are looked at. */
  predicate DirectBreaks(b: Block, inLoop: bool, direct: bool) {
    match b
    case End => true
    case Seq(s, rest) =>
      && StmtDirectBreaks(s, inLoop, direct)
      && (if s.Break? && inLoop then DirectResidue(rest) else DirectBreaks(rest, inLoop, direct))
  }

  predicate StmtDirectBreaks(s: Stmt, inLoop: bool, direct: bool) {
    match s
    case Run(_) => true
    case Break => inLoop ==> direct
    case If(_, thn, els) =>
      DirectBreaks(thn, inLoop, false) && (els.Else? ==> DirectBreaks(els.block, inLoop, false))
    case Loop(_, _, body) => DirectBreaks(body, true, true)
  }

  predicate DirectResidue(b: Block) {
    b.Seq? ==> (b.head.Loop? ==> StmtDirectBreaks(b.head, true, true)) && DirectResidue(b.tail)
  }

  lemma {:induction false} DirectBodyResidue(b: Block)
    requires DirectBreaks(b, true, true)
    ensures DirectResidue(b)
    decreases b
  {
    if b.Seq? && !b.head.Break? {
      DirectBodyResidue(b.tail);
    }
  }

  /** Every loop stands outside every `if`. */
  predicate LoopsOutside(b: Block, inIf: bool) {
    match b
    case End => true
    case Seq(s, rest) => StmtLoopsOutside(s, inIf) && LoopsOutside(rest, inIf)
  }

  predicate StmtLoopsOutside(s: Stmt, inIf: bool) {
    match s
    case Run(_) => true
    case Break => true
    case If(_, thn, els) => LoopsOutside(thn, true) && (els.Else? ==> LoopsOutside(els.block, true))
    case Loop(_, _, body) => !inIf && LoopsOutside(body, false)
  }

  /** No loop stands in `b` outside every `if`. */
  predicate NoBareLoop(b: Block) {
    b.Seq? ==> !b.head.Loop? && NoBareLoop(b.tail)
  }

  /** No loop stands bare in the body of a loop, and no `break` in an `if` of its loop.  What follows a `break` of that
      body is not looked at. */
  predicate Disciplined(b: Block, inLoop: bool, direct: bool) {
    match b
    case End => true
    case Seq(s, rest) =>
      StmtDisciplined(s, inLoop, direct) && ((s.Break? && inLoop) || Disciplined(rest, inLoop, direct))
  }

  predicate StmtDisciplined(s: Stmt, inLoop: bool, direct: bool) {
    match s
    case Run(_) => true
    case Break => inLoop ==> direct
    case If(_, thn, els) =>
      Disciplined(thn, inLoop, false) && (els.Else? ==> Disciplined(els.block, inLoop, false))
    case Loop(_, _, body) => NoBareLoop(body) && Disciplined(body, true, true)
  }

  // ----- when NSH does what a script means -----

  lemma {:induction false} NoResidue<E>(run: Behaviour<E>, b: Block, env: E, fail: bool, fuel: nat)
    requires NoBareLoop(b)
    ensures Residue(run, b, env, fail, fuel) == Result(env, fail, Normal)
    decreases b
  {
    if b.Seq? {
      NoResidue(run, b.tail, env, fail, fuel);
    }
  }

  /** For disciplined blocks NSH does what they mean. */
  lemma {:induction false} DisciplinedIsMeant<E>(
    run: Behaviour<E>, b: Block, env: E, fail: bool, inLoop: bool, direct: bool, fuel: nat)
    requires Disciplined(b, inLoop, direct) && (direct ==> NoBareLoop(b))
    ensures var r := Eval(run, b, env, fail, inLoop, fuel);
            Act(run, b, env, fail, inLoop, direct, fuel) == r && (r.out == Broke ==> direct) && r.out != Lost
    decreases fuel, b
  {
    if b.Seq? {
      StmtIsMeant(run, b.head, env, fail, inLoop, direct, fuel);
      var r := EvalStmt(run, b.head, env, fail, inLoop, fuel);
      if r.out == Normal {
        DisciplinedIsMeant(run, b.tail, r.env, r.fail, inLoop, direct, fuel);
      } else if r.out == Broke {
        NoResidue(run, b.tail, r.env, r.fail, fuel);
      }
    }
  }

  lemma {:induction false} StmtIsMeant<E>(
    run: Behaviour<E>, s: Stmt, env: E, fail: bool, inLoop: bool, direct: bool, fuel: nat)
    requires StmtDisciplined(s, inLoop, direct)
    ensures var r := EvalStmt(run, s, env, fail, inLoop, fuel);
            && ActStmt(run, s, env, fail, inLoop, direct, fuel) == r
            && (r.out == Broke ==> s.Break? && inLoop && direct) && r.out != Lost
    decreases fuel, s
  {
    match s
    case Run(_) =>
    case Break =>
    case If(cond, thn, els) =>
      var env' := run(env, fail, Argv(cond)).0;
      DisciplinedIsMeant(run, thn, env', false, inLoop, false, fuel);
      if els.Else? {
        DisciplinedIsMeant(run, els.block, env', false, inLoop, false, fuel);
      }
    case Loop(until, test, body) =>
      if fuel > 0 {
        var env' := run(env, fail, Argv(test)).0;
        NoResidue(run, body, env', false, fuel);
        DisciplinedIsMeant(run, body, env', false, true, true, fuel);
        var r := Eval(run, body, env', false, true, fuel);
        if r.out == Normal {
          StmtIsMeant(run, s, r.env, r.fail, inLoop, direct, fuel - 1);
        }
      }
  }

  lemma {:induction false} BareResidue(b: Block)
    requires NoBareLoop(b)
    ensures DirectResidue(b)
    decreases b
  {
    if b.Seq? {
      BareResidue(b.tail);
    }
  }

  /** A disciplined block has direct breaks. */
  lemma {:induction false} DisciplinedIsDirect(b: Block, inLoop: bool, direct: bool)
    requires Disciplined(b, inLoop, direct) && (direct ==> NoBareLoop(b))
    ensures DirectBreaks(b, inLoop, direct)
    decreases b
  {
    if b.Seq? {
      StmtIsDirect(b.head, inLoop, direct);
      if b.head.Break? && inLoop {
        BareResidue(b.tail);
      } else {
        DisciplinedIsDirect(b.tail, inLoop, direct);
      }
    }
  }

  lemma {:induction false} StmtIsDirect(s: Stmt, inLoop: bool, direct: bool)
    requires StmtDisciplined(s, inLoop, direct)
    ensures StmtDirectBreaks(s, inLoop, direct)
    decreases s
  {
    match s
    case Run(_) =>
    case Break =>
    case If(_, thn, els) =>
      DisciplinedIsDirect(thn, inLoop, false);
      if els.Else? {
        DisciplinedIsDirect(els.block, inLoop, false);
      }
    case Loop(_, _, body) =>
      DisciplinedIsDirect(body, true, true);
  }
}
