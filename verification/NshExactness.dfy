/** The bound on what NSH can run is exact: for every script that is not disciplined there are outcomes of its
    commands for which NSH does not do what the script means. */
module NshExactness {
  import opened NshMachine
  import opened NshProgram

  /** Commands that only count themselves; command number `n` fails if `bits[n]` says so. */
  function Oracle(bits: seq<bool>): Behaviour<nat> {
    (n: nat, fail: bool, words: seq<string>) => (n + 1, n < |bits| && bits[n])
  }

  ghost predicate Foretold(bits: seq<bool>, n: nat, w: seq<bool>) {
    n + |w| <= |bits| && forall i :: 0 <= i < |w| ==> bits[n + i] == w[i]
  }

  lemma ForetoldConcat(bits: seq<bool>, n: nat, v: seq<bool>, w: seq<bool>)
    requires Foretold(bits, n, v + w)
    ensures Foretold(bits, n, v) && Foretold(bits, n + |v|, w)
  {
    forall i | 0 <= i < |v| ensures bits[n + i] == v[i] {
      assert (v + w)[i] == v[i];
    }
    forall i | 0 <= i < |w| ensures bits[n + |v| + i] == w[i] {
      assert bits[n + (|v| + i)] == (v + w)[|v| + i];
    }
  }

  lemma ForetoldFirst(bits: seq<bool>, n: nat, x: bool, w: seq<bool>)
    requires Foretold(bits, n, [x] + w)
    ensures n < |bits| && bits[n] == x && Foretold(bits, n + 1, w)
  {
    ForetoldConcat(bits, n, [x], w);
    assert bits[n + 0] == [x][0];
  }

  // ----- the cheapest way through a script -----

  /** Outcomes that lead through a part of a script, and whether the way ends with a `break` of its loop. */
  datatype Way = Way(bits: seq<bool>, breaks: bool)

  function Then(v: Way, w: Way): Way {
    if v.breaks then v else Way(v.bits + w.bits, w.breaks)
  }

  function After(x: bool, w: Way): Way {
    Way([x] + w.bits, w.breaks)
  }

  /** A way through `b` with few commands. */
  function Cheapest(b: Block, inLoop: bool): Way {
    match b
    case End => Way([], false)
    case Seq(s, rest) => Then(CheapestStmt(s, inLoop), Cheapest(rest, inLoop))
  }

  function CheapestStmt(s: Stmt, inLoop: bool): Way {
    match s
    case Run(_) => Way([false], false)
    case Break => Way([], inLoop)
    case If(_, thn, els) =>
      (match els
       case NoElse => Way([true], false)
       case Else(b) =>
         var v, w := Cheapest(thn, inLoop), Cheapest(b, inLoop);
         if |v.bits| <= |w.bits| then After(false, v) else After(true, w))
    case Loop(until, _, _) => Way([!until], false)
  }

  ghost predicate Through<E>(r: Result<E>) { r.out == Normal || r.out == Broke }

  /** The block is left by the way `w`. */
  ghost predicate Goes(r: Result<nat>, n: nat, w: Way) {
    r.env == n + |w.bits| && r.out == if w.breaks then Broke else Normal
  }

  lemma {:induction false} CheapestWorks(bits: seq<bool>, b: Block, n: nat, fail: bool, inLoop: bool, fuel: nat)
    requires fuel > 0 && Foretold(bits, n, Cheapest(b, inLoop).bits)
    ensures Goes(Eval<nat>(Oracle(bits), b, n, fail, inLoop, fuel), n, Cheapest(b, inLoop))
    decreases b
  {
    if b.Seq? {
      var v, w := CheapestStmt(b.head, inLoop), Cheapest(b.tail, inLoop);
      if !v.breaks {
        ForetoldConcat(bits, n, v.bits, w.bits);
      }
      CheapestStmtWorks(bits, b.head, n, fail, inLoop, fuel);
      if !v.breaks {
        var r := EvalStmt<nat>(Oracle(bits), b.head, n, fail, inLoop, fuel);
        CheapestWorks(bits, b.tail, r.env, r.fail, inLoop, fuel);
      }
    }
  }

  lemma {:induction false} CheapestStmtWorks(bits: seq<bool>, s: Stmt, n: nat, fail: bool, inLoop: bool, fuel: nat)
    requires fuel > 0 && Foretold(bits, n, CheapestStmt(s, inLoop).bits)
    ensures Goes(EvalStmt<nat>(Oracle(bits), s, n, fail, inLoop, fuel), n, CheapestStmt(s, inLoop))
    decreases s
  {
    match s
    case Run(_) => ForetoldFirst(bits, n, false, []);
    case Break =>
    case Loop(until, _, _) => ForetoldFirst(bits, n, !until, []);
    case If(_, thn, els) =>
      match els
      case NoElse => ForetoldFirst(bits, n, true, []);
      case Else(b) =>
        var v, w := Cheapest(thn, inLoop), Cheapest(b, inLoop);
        if |v.bits| <= |w.bits| {
          ForetoldFirst(bits, n, false, v.bits);
          CheapestWorks(bits, thn, n + 1, false, inLoop, fuel);
        } else {
          ForetoldFirst(bits, n, true, w.bits);
          CheapestWorks(bits, b, n + 1, false, inLoop, fuel);
        }
  }

  /** NSH needs at least as many commands to get through, whatever their outcomes. */
  lemma {:induction false} NoneCheaper(
    bits: seq<bool>, b: Block, n: nat, fail: bool, inLoop: bool, direct: bool, fuel: nat)
    ensures var r := Act<nat>(Oracle(bits), b, n, fail, inLoop, direct, fuel);
            Through(r) ==> r.env >= n + |Cheapest(b, inLoop).bits|
    decreases fuel, b
  {
    if b.Seq? {
      var r := ActStmt<nat>(Oracle(bits), b.head, n, fail, inLoop, direct, fuel);
      NoStmtCheaper(bits, b.head, n, fail, inLoop, direct, fuel);
      ActStmtEnds<nat>(Oracle(bits), b.head, n, fail, inLoop, direct, fuel);
      if r.out == Normal {
        NoneCheaper(bits, b.tail, r.env, r.fail, inLoop, direct, fuel);
      } else if r.out == Broke {
        ResidueCounts(bits, b.tail, r.env, r.fail, fuel);
      }
    }
  }

  lemma {:induction false} NoStmtCheaper(
    bits: seq<bool>, s: Stmt, n: nat, fail: bool, inLoop: bool, direct: bool, fuel: nat)
    ensures var r := ActStmt<nat>(Oracle(bits), s, n, fail, inLoop, direct, fuel);
            Through(r) ==> r.env >= n + |CheapestStmt(s, inLoop).bits|
    decreases fuel, s
  {
    match s
    case Run(_) =>
    case Break =>
    case If(_, thn, els) =>
      NoneCheaper(bits, thn, n + 1, false, inLoop, false, fuel);
      if els.Else? {
        NoneCheaper(bits, els.block, n + 1, false, inLoop, false, fuel);
      }
    case Loop(_, _, _) =>
      LoopCounts(bits, s, n, fail, fuel);
  }

  /** A loop runs at least one command. */
  lemma {:induction false} LoopCounts(bits: seq<bool>, s: Stmt, n: nat, fail: bool, fuel: nat)
    requires s.Loop?
    ensures var r := ActLoop<nat>(Oracle(bits), s, n, fail, fuel);
            Through(r) ==> r.env >= n + 1
    decreases fuel, s, 0
  {
    if fuel > 0 {
      ResidueCounts(bits, s.body, n + 1, false, fuel);
      NoneCheaper(bits, s.body, n + 1, false, true, true, fuel);
      var r := Act<nat>(Oracle(bits), s.body, n + 1, false, true, true, fuel);
      if r.out == Normal {
        LoopCounts(bits, s, r.env, r.fail, fuel - 1);
      }
    }
  }

  /** A residue with a loop in it runs at least one command. */
  lemma {:induction false} ResidueCounts(bits: seq<bool>, b: Block, n: nat, fail: bool, fuel: nat)
    ensures var r := Residue<nat>(Oracle(bits), b, n, fail, fuel);
            Through(r) ==> r.env >= n && (!NoBareLoop(b) ==> r.env > n)
    decreases fuel, b
  {
    if b.Seq? {
      if b.head.Loop? {
        LoopCounts(bits, b.head, n, fail, fuel);
        LoopEndsItself<nat>(Oracle(bits), b.head, n, fail, fuel);
        var r := ActLoop<nat>(Oracle(bits), b.head, n, fail, fuel);
        if r.out == Normal {
          ResidueCounts(bits, b.tail, r.env, r.fail, fuel);
        }
      } else {
        ResidueCounts(bits, b.tail, n, fail, fuel);
      }
    }
  }

  // ----- leading an undisciplined script to its fault -----

  /** Outcomes that lead to a loop with a bare loop in its body and out of it again at once, or to a `break` in an
      `if`, and to the end. */
  function Exposing(b: Block, inLoop: bool, direct: bool): Way
    requires !Disciplined(b, inLoop, direct)
  {
    if !StmtDisciplined(b.head, inLoop, direct)
    then Then(ExposingStmt(b.head, inLoop, direct), Cheapest(b.tail, inLoop))
    else Then(CheapestStmt(b.head, inLoop), Exposing(b.tail, inLoop, direct))
  }

  function ExposingStmt(s: Stmt, inLoop: bool, direct: bool): Way
    requires !StmtDisciplined(s, inLoop, direct)
  {
    match s
    case Break => Way([], true)
    case If(_, thn, els) =>
      if !Disciplined(thn, inLoop, false) then After(false, Exposing(thn, inLoop, false))
      else After(true, Exposing(els.block, inLoop, false))
    case Loop(until, _, body) =>
      if !NoBareLoop(body) then Way([!until], false)
      else
        var w := Exposing(body, true, true);
        Way([until] + (w.bits + (if w.breaks then [] else [!until])), false)
  }

  /** A disciplined statement that is no `break` of its loop does not break cheaply. */
  lemma {:induction false} DisciplinedGoesOn(b: Block, inLoop: bool)
    requires Disciplined(b, inLoop, false)
    ensures !Cheapest(b, inLoop).breaks
    decreases b
  {
    if b.Seq? {
      StmtGoesOn(b.head, inLoop, false);
      DisciplinedGoesOn(b.tail, inLoop);
    }
  }

  lemma {:induction false} StmtGoesOn(s: Stmt, inLoop: bool, direct: bool)
    requires StmtDisciplined(s, inLoop, direct) && !(s.Break? && inLoop)
    ensures !CheapestStmt(s, inLoop).breaks
    decreases s
  {
    match s
    case Run(_) =>
    case Break =>
    case Loop(_, _, _) =>
    case If(_, thn, els) =>
      DisciplinedGoesOn(thn, inLoop);
      if els.Else? {
        DisciplinedGoesOn(els.block, inLoop);
      }
  }

  /** A `break` of the loop at the `if` level of its body. */
  predicate BreaksDirectly(b: Block) {
    b.Seq? && (b.head.Break? || BreaksDirectly(b.tail))
  }

  /** A body that breaks out for NSH has such a `break`, and no way leads through it to the end. */
  lemma {:induction false} BrokeDirectly<E>(run: Behaviour<E>, b: Block, env: E, fail: bool, fuel: nat)
    ensures Act(run, b, env, fail, true, true, fuel).out == Broke ==> BreaksDirectly(b)
    decreases b
  {
    if b.Seq? {
      ActStmtEnds(run, b.head, env, fail, true, true, fuel);
      var r := ActStmt(run, b.head, env, fail, true, true, fuel);
      if r.out == Normal {
        BrokeDirectly(run, b.tail, r.env, r.fail, fuel);
      }
    }
  }

  lemma {:induction false} NoEndBehind<E>(run: Behaviour<E>, b: Block, env: E, fail: bool, fuel: nat)
    requires BreaksDirectly(b)
    ensures Eval(run, b, env, fail, true, fuel).out != Normal
    decreases b
  {
    if !b.head.Break? {
      var r := EvalStmt(run, b.head, env, fail, true, fuel);
      if r.out == Normal {
        NoEndBehind(run, b.tail, r.env, r.fail, fuel);
      }
    }
  }

  /** With these outcomes NSH runs more commands than the script means, or never gets through. */
  lemma {:induction false} Exposed(
    bits: seq<bool>, b: Block, n: nat, fail: bool, inLoop: bool, direct: bool, fuel: nat)
    requires fuel > 0 && !Disciplined(b, inLoop, direct) && Foretold(bits, n, Exposing(b, inLoop, direct).bits)
    ensures Goes(Eval<nat>(Oracle(bits), b, n, fail, inLoop, 2), n, Exposing(b, inLoop, direct))
    ensures var r := Act<nat>(Oracle(bits), b, n, fail, inLoop, direct, fuel);
            Through(r) ==> r.env > n + |Exposing(b, inLoop, direct).bits|
    decreases b
  {
    var Seq(s, rest) := b;
    if !StmtDisciplined(s, inLoop, direct) {
      ExposedHead(bits, s, rest, n, fail, inLoop, direct, fuel);
    } else {
      var v, w := CheapestStmt(s, inLoop), Exposing(rest, inLoop, direct);
      StmtGoesOn(s, inLoop, direct);
      ForetoldConcat(bits, n, v.bits, w.bits);
      CheapestStmtWorks(bits, s, n, fail, inLoop, 2);
      CheapestStmtWorks(bits, s, n, fail, inLoop, fuel);
      StmtIsMeant<nat>(Oracle(bits), s, n, fail, inLoop, direct, fuel);
      var e := EvalStmt<nat>(Oracle(bits), s, n, fail, inLoop, 2);
      var a := ActStmt<nat>(Oracle(bits), s, n, fail, inLoop, direct, fuel);
      Exposed(bits, rest, e.env, e.fail, inLoop, direct, fuel);
      Exposed(bits, rest, a.env, a.fail, inLoop, direct, fuel);
    }
  }

  lemma {:induction false} ExposedHead(
    bits: seq<bool>, s: Stmt, rest: Block, n: nat, fail: bool, inLoop: bool, direct: bool, fuel: nat)
    requires fuel > 0 && !StmtDisciplined(s, inLoop, direct)
    requires Foretold(bits, n, Exposing(Seq(s, rest), inLoop, direct).bits)
    ensures Goes(Eval<nat>(Oracle(bits), Seq(s, rest), n, fail, inLoop, 2), n, Exposing(Seq(s, rest), inLoop, direct))
    ensures var r := Act<nat>(Oracle(bits), Seq(s, rest), n, fail, inLoop, direct, fuel);
            Through(r) ==> r.env > n + |Exposing(Seq(s, rest), inLoop, direct).bits|
    decreases s, 2
  {
    var v, w := ExposingStmt(s, inLoop, direct), Cheapest(rest, inLoop);
    assert Exposing(Seq(s, rest), inLoop, direct) == Then(v, w);
    if !v.breaks {
      ForetoldConcat(bits, n, v.bits, w.bits);
    }
    ExposedStmt(bits, s, n, fail, inLoop, direct, fuel);
    var e := EvalStmt<nat>(Oracle(bits), s, n, fail, inLoop, 2);
    var a := ActStmt<nat>(Oracle(bits), s, n, fail, inLoop, direct, fuel);
    if !v.breaks {
      CheapestWorks(bits, rest, e.env, e.fail, inLoop, 2);
    }
    ActStmtEnds<nat>(Oracle(bits), s, n, fail, inLoop, direct, fuel);
    if a.out == Normal {
      NoneCheaper(bits, rest, a.env, a.fail, inLoop, direct, fuel);
    }
  }

  lemma {:induction false} ExposedStmt(
    bits: seq<bool>, s: Stmt, n: nat, fail: bool, inLoop: bool, direct: bool, fuel: nat)
    requires fuel > 0 && !StmtDisciplined(s, inLoop, direct) && Foretold(bits, n, ExposingStmt(s, inLoop, direct).bits)
    ensures Goes(EvalStmt<nat>(Oracle(bits), s, n, fail, inLoop, 2), n, ExposingStmt(s, inLoop, direct))
    ensures var r := ActStmt<nat>(Oracle(bits), s, n, fail, inLoop, direct, fuel);
            Through(r) ==> r.env > n + |ExposingStmt(s, inLoop, direct).bits|
    decreases s, 1
  {
    hide Foretold;
    match s
    case Break =>
    case If(_, thn, els) =>
      if !Disciplined(thn, inLoop, false) {
        ForetoldFirst(bits, n, false, Exposing(thn, inLoop, false).bits);
        Exposed(bits, thn, n + 1, false, inLoop, false, fuel);
      } else {
        ForetoldFirst(bits, n, true, Exposing(els.block, inLoop, false).bits);
        Exposed(bits, els.block, n + 1, false, inLoop, false, fuel);
      }
    case Loop(until, _, body) =>
      if !NoBareLoop(body) {
        ExposedBare(bits, s, n, fail, inLoop, direct, fuel);
      } else {
        ExposedLoop(bits, s, n, fail, inLoop, direct, fuel);
      }
  }

  /** No round of a loop with a bare loop in its body. */
  lemma ExposedBare(bits: seq<bool>, s: Stmt, n: nat, fail: bool, inLoop: bool, direct: bool, fuel: nat)
    requires fuel > 0 && s.Loop? && !NoBareLoop(s.body)
    requires Foretold(bits, n, ExposingStmt(s, inLoop, direct).bits)
    ensures Goes(EvalStmt<nat>(Oracle(bits), s, n, fail, inLoop, 2), n, ExposingStmt(s, inLoop, direct))
    ensures var r := ActStmt<nat>(Oracle(bits), s, n, fail, inLoop, direct, fuel);
            Through(r) ==> r.env > n + |ExposingStmt(s, inLoop, direct).bits|
  {
    ForetoldFirst(bits, n, !s.until, []);
    ResidueCounts(bits, s.body, n + 1, false, fuel);
  }

  /** Two rounds of a loop, the first to the fault in its body. */
  lemma {:induction false} ExposedLoop(
    bits: seq<bool>, s: Stmt, n: nat, fail: bool, inLoop: bool, direct: bool, fuel: nat)
    requires fuel > 0 && s.Loop? && NoBareLoop(s.body) && !Disciplined(s.body, true, true)
    requires Foretold(bits, n, ExposingStmt(s, inLoop, direct).bits)
    ensures Goes(EvalStmt<nat>(Oracle(bits), s, n, fail, inLoop, 2), n, ExposingStmt(s, inLoop, direct))
    ensures var r := ActStmt<nat>(Oracle(bits), s, n, fail, inLoop, direct, fuel);
            Through(r) ==> r.env > n + |ExposingStmt(s, inLoop, direct).bits|
    decreases s, 0
  {
    var Loop(until, _, body) := s;
    var w := Exposing(body, true, true);
    var last := if w.breaks then [] else [!until];
    ForetoldFirst(bits, n, until, w.bits + last);
    ForetoldConcat(bits, n + 1, w.bits, last);
    Exposed(bits, body, n + 1, false, true, true, fuel);
    var e := Eval<nat>(Oracle(bits), body, n + 1, false, true, 2);
    if !w.breaks {
      ForetoldFirst(bits, e.env, !until, []);
      assert EvalStmt<nat>(Oracle(bits), s, e.env, e.fail, inLoop, 1).env == e.env + 1;
    }
    var a := Act<nat>(Oracle(bits), body, n + 1, false, true, true, fuel);
    if a.out == Normal {
      LoopCounts(bits, s, a.env, a.fail, fuel - 1);
    } else if a.out == Broke {
      BrokeDirectly<nat>(Oracle(bits), body, n + 1, false, fuel);
      NoEndBehind<nat>(Oracle(bits), body, n + 1, false, 2);
    }
  }

  lemma {:induction false} NeverBreaksOutside(b: Block)
    requires !Disciplined(b, false, false)
    ensures !Exposing(b, false, false).breaks
    decreases b
  {
    CheapestOutside(b.tail);
    StmtCheapestOutside(b.head);
    if !StmtDisciplined(b.head, false, false) {
      if b.head.If? {
        if !Disciplined(b.head.thn, false, false) {
          NeverBreaksOutside(b.head.thn);
        } else {
          NeverBreaksOutside(b.head.els.block);
        }
      }
    } else {
      NeverBreaksOutside(b.tail);
    }
  }

  lemma {:induction false} CheapestOutside(b: Block)
    ensures !Cheapest(b, false).breaks
    decreases b
  {
    if b.Seq? {
      StmtCheapestOutside(b.head);
      CheapestOutside(b.tail);
    }
  }

  lemma {:induction false} StmtCheapestOutside(s: Stmt)
    ensures !CheapestStmt(s, false).breaks
    decreases s
  {
    if s.If? {
      CheapestOutside(s.thn);
      if s.els.Else? {
        CheapestOutside(s.els.block);
      }
    }
  }

  /** For every script that is not disciplined there are outcomes of its commands such that the script means a normal
      end, and NSH, given any fuel, comes to another one or to none. */
  lemma UndisciplinedDiffers(p: Block, fail: bool, fuel: nat)
    requires !Disciplined(p, false, false) && fuel > 0
    ensures var run := Oracle(Exposing(p, false, false).bits);
            var meant := Eval<nat>(run, p, 0, fail, false, 2);
            var done := Act<nat>(run, p, 0, fail, false, false, fuel);
            meant.out == Normal && (done.out != Normal || done.env != meant.env)
  {
    var bits := Exposing(p, false, false).bits;
    Exposed(bits, p, 0, fail, false, false, fuel);
    NeverBreaksOutside(p);
  }
}
