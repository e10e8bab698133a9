/** Printing argument lists and cutting the text again gives the argument lists back. */
module NshQuoting {
  import opened NshMachine
  import opened NshText
  import opened NshBytes

  // ----- the argument lists that nsh_parse finds on a line -----

  /** A command of a line with its recorded offset, or a quotation mark without a second one. */
  datatype Piece = Piece(words: seq<string>, loffs: nat) | Unmatched(loffs: nat)

  /** The commands of `line` from `working` on; the current one began at `start`. */
  function SplitFrom(line: string, start: nat, working: nat): (ps: seq<Piece>)
    requires start <= working <= |line|
    ensures ps != []
    decreases |line| - working
  {
    var ptr := NextDelimiter(line, working);
    if ptr == |line| || line[ptr] == '\n' || line[ptr] == '#' then
      [Piece(Words(line[start..], 0), Uint16(working))]
    else if line[ptr] == ';' then
      [Piece(Words(line[start..ptr], 0), Uint16(working))] + SplitFrom(line, ptr + 1, ptr + 1)
    else
      var close := NextQuote(line, ptr + 1);
      if close == |line| then [Unmatched(Uint16(working))] else SplitFrom(line, start, close + 1)
  }

  /** Run commands until one fails or jumps. */
  function RunPieces<E>(run: Behaviour<E>, np: Np, env: E, ps: seq<Piece>): (r: Step<E>)
    requires InBounds(np) && ps != []
    ensures InBounds(r.np)
    decreases |ps|
  {
    var np1 := np.(loffs := ps[0].loffs);
    match ps[0]
    case Unmatched(_) => Step(np1, env, false)
    case Piece(words, _) =>
      var r := ParseCommand(run, np1, env, words);
      if |ps| == 1 || !r.ok || r.np.jump then r else RunPieces(run, r.np, r.env, ps[1..])
  }

  /** nsh_parse runs just these commands. */
  lemma {:induction false} ParseRunsPieces<E>(
    run: Behaviour<E>, np: Np, env: E, line: string, start: nat, working: nat)
    requires InBounds(np) && start <= working <= |line|
    ensures ParseFrom(run, np, env, line, start, working) == RunPieces(run, np, env, SplitFrom(line, start, working))
    decreases |line| - working
  {
    hide ParseCommand, Words, NextDelimiter, NextQuote, Uint16;
    var ptr := NextDelimiter(line, working);
    if ptr == |line| || line[ptr] == '\n' || line[ptr] == '#' {
      assert SplitFrom(line, start, working)[1..] == [];
    } else if line[ptr] == ';' {
      var r := ParseCommand(run, np.(loffs := Uint16(working)), env, Words(line[start..ptr], 0));
      var rest := SplitFrom(line, ptr + 1, ptr + 1);
      assert SplitFrom(line, start, working)[1..] == rest;
      ParseRunsPieces(run, r.np, r.env, line, ptr + 1, ptr + 1);
    } else {
      var close := NextQuote(line, ptr + 1);
      if close < |line| {
        var np1 := np.(loffs := Uint16(working));
        ParseRunsPieces(run, np1, env, line, start, close + 1);
        OffsetOverwritten(run, np, env, SplitFrom(line, start, close + 1), Uint16(working));
      }
    }
  }

  lemma OffsetOverwritten<E>(run: Behaviour<E>, np: Np, env: E, ps: seq<Piece>, loffs: nat)
    requires InBounds(np) && ps != []
    ensures RunPieces(run, np.(loffs := loffs), env, ps) == RunPieces(run, np, env, ps)
  {
    hide ParseCommand;
  }

  // ----- printing -----

  function Quoted(w: string): string { "\"" + w + "\"" }

  /** The words of a command in double quotes, with spaces between. */
  function Print(words: seq<string>): string {
    if words == [] then ""
    else if |words| == 1 then Quoted(words[0])
    else Quoted(words[0]) + " " + Print(words[1..])
  }

  /** Commands with semicolons between. */
  function PrintLine(cmds: Listing): string {
    if cmds == [] then ""
    else if |cmds| == 1 then Print(cmds[0])
    else Print(cmds[0]) + ";" + PrintLine(cmds[1..])
  }

  /** A word that can stand in double quotes: it cannot end the string, and nothing in it is expanded. */
  predicate Quotable(w: string) {
    '\0' !in w && '"' !in w && '`' !in w && '$' !in w
  }

  predicate AllQuotable(words: seq<string>) {
    forall i :: 0 <= i < |words| ==> Quotable(words[i])
  }

  // ----- reading back -----

  /** What stands in `s` from `i` on. */
  ghost predicate Continues(s: string, i: nat, t: string) {
    i + |t| == |s| && forall k :: 0 <= k < |t| ==> s[i + k] == t[k]
  }

  lemma ContinuesConcat(s: string, i: nat, t: string, u: string)
    requires Continues(s, i, t + u)
    ensures i + |t| <= |s| && Continues(s, i + |t|, u)
    ensures forall k :: 0 <= k < |t| ==> s[i + k] == t[k]
  {
    forall k | 0 <= k < |t| ensures s[i + k] == t[k] {
      assert (t + u)[k] == t[k];
    }
    forall k | 0 <= k < |u| ensures s[i + |t| + k] == u[k] {
      assert s[i + (|t| + k)] == (t + u)[|t| + k];
    }
  }

  lemma {:induction false} QuotedWordEnds(s: string, i: nat, w: string, k: nat)
    requires Quotable(w) && k <= |w| && i + |w| < |s| && s[i + |w|] == '"'
    requires forall n :: 0 <= n < |w| ==> s[i + n] == w[n]
    ensures WordEnd(s, i + k, true, false) == i + |w|
    decreases |w| - k
  {
    if k < |w| {
      assert s[i + k] == w[k];
      QuotedWordEnds(s, i, w, k + 1);
    }
  }

  /** A quoted word is read as one argument. */
  lemma QuotedArgument(s: string, i: nat, w: string, rest: string)
    requires Quotable(w) && Continues(s, i, Quoted(w) + rest)
    ensures i + |w| + 2 <= |s| && NextArgument(s, i) == Word(w, i + |w| + 2)
    ensures Continues(s, i + |w| + 2, rest)
  {
    var q := Quoted(w);
    ContinuesConcat(s, i, q, rest);
    assert s[i + 0] == q[0] == '"' && s[i + (|w| + 1)] == q[|w| + 1] == '"';
    forall n | 0 <= n < |w| ensures s[i + 1 + n] == w[n] {
      assert s[i + (1 + n)] == q[1 + n];
    }
    QuotedWordEnds(s, i + 1, w, 0);
    assert s[i + 1..i + 1 + |w|] == w;
  }

  /** The words of a printed command, possibly with a newline after it, are the words printed. */
  lemma {:induction false} PrintedWords(s: string, i: nat, words: seq<string>, end: string)
    requires AllQuotable(words) && (end == "" || end == "\n")
    requires i <= |s| && Continues(s, i, Print(words) + end)
    ensures Words(s, i) == words
    decreases |words|
  {
    hide NextArgument, Quotable;
    if words == [] {
      assert Print(words) + end == end;
      NothingLeft(s, i, end);
    } else if |words| == 1 {
      QuotedArgument(s, i, words[0], end);
      assert Print([]) + end == end;
      PrintedWords(s, i + |words[0]| + 2, [], end);
    } else {
      var rest := Print(words[1..]) + end;
      assert Print(words) + end == Quoted(words[0]) + (" " + rest);
      QuotedArgument(s, i, words[0], " " + rest);
      var j := i + |words[0]| + 2;
      assert s[j + 0] == (" " + rest)[0];
      ContinuesConcat(s, j, " ", rest);
      SeparatorSkipped(s, j);
      PrintedWords(s, j + 1, words[1..], end);
    }
  }

  lemma NothingLeft(s: string, i: nat, end: string)
    requires (end == "" || end == "\n") && i <= |s| && Continues(s, i, end)
    ensures Words(s, i) == []
  {
    assert end == "\n" ==> s[i + 0] == end[0];
  }

  lemma SeparatorSkipped(s: string, i: nat)
    requires i < |s| && IsSeparator(s[i])
    ensures Words(s, i) == Words(s, i + 1)
  {}

  // ----- cutting a printed line -----

  lemma {:induction false} QuoteCloses(s: string, i: nat, w: string, k: nat)
    requires Quotable(w) && k <= |w| && i + |w| < |s| && s[i + |w|] == '"'
    requires forall n :: 0 <= n < |w| ==> s[i + n] == w[n]
    ensures NextQuote(s, i + k) == i + |w|
    decreases |w| - k
  {
    if k < |w| {
      assert s[i + k] == w[k];
      QuoteCloses(s, i, w, k + 1);
    }
  }

  /** The scan of a line steps over a quoted word. */
  lemma QuotedScanned(line: string, start: nat, i: nat, w: string, rest: string)
    requires start <= i <= |line| && Quotable(w) && Continues(line, i, Quoted(w) + rest)
    ensures i + |w| + 2 <= |line| && Continues(line, i + |w| + 2, rest)
    ensures SplitFrom(line, start, i) == SplitFrom(line, start, i + |w| + 2)
    ensures i > start && line[i - 1] == ' ' ==> SplitFrom(line, start, i - 1) == SplitFrom(line, start, i)
  {
    hide Words, Uint16;
    var q := Quoted(w);
    ContinuesConcat(line, i, q, rest);
    assert line[i + 0] == q[0] == '"' && line[i + (|w| + 1)] == q[|w| + 1] == '"';
    forall n | 0 <= n < |w| ensures line[i + 1 + n] == w[n] {
      assert line[i + (1 + n)] == q[1 + n];
    }
    QuoteCloses(line, i + 1, w, 0);
  }

  /** The scan of a line reaches the end of a printed command. */
  lemma {:induction false} PrintedScanned(line: string, start: nat, i: nat, words: seq<string>, rest: string)
    requires start <= i <= |line| && AllQuotable(words) && Continues(line, i, Print(words) + rest)
    ensures i + |Print(words)| <= |line| && Continues(line, i + |Print(words)|, rest)
    ensures SplitFrom(line, start, i) == SplitFrom(line, start, i + |Print(words)|)
    decreases |words|
  {
    hide SplitFrom;
    if words == [] {
      assert Print(words) + rest == rest;
    } else if |words| == 1 {
      QuotedScanned(line, start, i, words[0], rest);
    } else {
      var more := Print(words[1..]) + rest;
      assert Print(words) + rest == Quoted(words[0]) + (" " + more);
      QuotedScanned(line, start, i, words[0], " " + more);
      var j := i + |words[0]| + 2;
      assert line[j + 0] == (" " + more)[0];
      ContinuesConcat(line, j, " ", more);
      StepOverSpace(line, start, j + 1, words[1..], rest);
      PrintedScanned(line, start, j + 1, words[1..], rest);
    }
  }

  lemma StepOverSpace(line: string, start: nat, i: nat, words: seq<string>, rest: string)
    requires start < i <= |line| && AllQuotable(words) && words != []
    requires Continues(line, i, Print(words) + rest) && line[i - 1] == ' '
    ensures SplitFrom(line, start, i - 1) == SplitFrom(line, start, i)
  {
    hide SplitFrom;
    var more := if |words| == 1 then rest else " " + Print(words[1..]) + rest;
    assert Print(words) + rest == Quoted(words[0]) + more;
    QuotedScanned(line, start, i, words[0], more);
  }

  /** `ps` are the commands `cmds`. */
  ghost predicate Lists(ps: seq<Piece>, cmds: Listing) {
    |ps| == |cmds| && forall k :: 0 <= k < |ps| ==> ps[k].Piece? && ps[k].words == cmds[k]
  }

  lemma LastPrinted(line: string, start: nat, words: seq<string>, end: string)
    requires start <= |line| && AllQuotable(words) && (end == "" || end == "\n")
    requires Continues(line, start, Print(words) + end)
    ensures Lists(SplitFrom(line, start, start), [words])
  {
    hide Words, Uint16;
    PrintedScanned(line, start, start, words, end);
    var w := start + |Print(words)|;
    assert end == "\n" ==> line[w + 0] == end[0];
    assert Continues(line[start..], 0, Print(words) + end);
    PrintedWords(line[start..], 0, words, end);
  }

  lemma NextPrinted(line: string, start: nat, words: seq<string>, rest: string)
    requires start <= |line| && AllQuotable(words)
    requires Continues(line, start, Print(words) + (";" + rest))
    ensures var e := start + |Print(words)|;
            && e < |line| && Continues(line, e + 1, rest)
            && SplitFrom(line, start, start) == [Piece(words, Uint16(e))] + SplitFrom(line, e + 1, e + 1)
  {
    hide Words, Uint16;
    PrintedScanned(line, start, start, words, ";" + rest);
    var w := start + |Print(words)|;
    assert line[w + 0] == (";" + rest)[0];
    ContinuesConcat(line, w, ";", rest);
    ContinuesConcat(line, start, Print(words), ";" + rest);
    assert Continues(line[start..w], 0, Print(words) + "");
    PrintedWords(line[start..w], 0, words, "");
  }

  /** Round trip: for arguments free of quotation mark and backquote, nsh_parse finds on the printed line,
      with or without a newline after it, exactly the argument lists that were printed. */
  lemma {:induction false} PrintedLineSplits(line: string, start: nat, cmds: Listing, end: string)
    requires cmds != [] && (forall k :: 0 <= k < |cmds| ==> AllQuotable(cmds[k]))
    requires start <= |line| && (end == "" || end == "\n") && Continues(line, start, PrintLine(cmds) + end)
    ensures Lists(SplitFrom(line, start, start), cmds)
    decreases |cmds|
  {
    hide SplitFrom;
    assert AllQuotable(cmds[0]);
    if |cmds| == 1 {
      LastPrinted(line, start, cmds[0], end);
    } else {
      var rest := PrintLine(cmds[1..]) + end;
      assert PrintLine(cmds) + end == Print(cmds[0]) + (";" + rest);
      NextPrinted(line, start, cmds[0], rest);
      var e := start + |Print(cmds[0])|;
      PrintedLineSplits(line, e + 1, cmds[1..], end);
    }
  }

  /** The same for a whole line, run by nsh_parse: every behaviour of the commands sees the printed
      argument lists, in order, within the size of the argument vector. */
  lemma RoundTrip<E>(run: Behaviour<E>, np: Np, env: E, cmds: Listing, end: string)
    requires InBounds(np) && cmds != [] && (end == "" || end == "\n")
    requires forall k :: 0 <= k < |cmds| ==> AllQuotable(cmds[k]) && |cmds[k]| < MAX_ARGV_ENTRIES
    ensures var line := PrintLine(cmds) + end;
            var ps := SplitFrom(line, 0, 0);
            && Lists(ps, cmds) && ParseLine(run, np, env, line) == RunPieces(run, np.(jump := false), env, ps)
            && (forall k :: 0 <= k < |cmds| ==> Argv(ps[k].words) == cmds[k])
  {
    hide ParseFrom, RunPieces, SplitFrom;
    var line := PrintLine(cmds) + end;
    PrintedLineSplits(line, 0, cmds, end);
    ParseRunsPieces(run, np.(jump := false), env, line, 0, 0);
  }
}
