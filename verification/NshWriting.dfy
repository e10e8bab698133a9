/** How commands can be written: words bare or in double quotes, parted by spaces, tabs and newlines in any number, with
    semicolons between commands and a comment at the end.  NSH finds just the words that were written. */
module NshWriting {
  import opened NshMachine
  import opened NshText
  import opened NshBytes
  import opened NshLayout
  import opened NshQuoting

  // ----- what is written -----

  /** A run of spaces, tabs and newlines. */
  predicate Gap(g: string) {
    forall i :: 0 <= i < |g| ==> g[i] == ' ' || g[i] == '\t' || g[i] == '\n'
  }

  /** No space, tab or newline but between two backquotes, of which each has its second one. */
  predicate Whole(w: string, open: bool) {
    if w == "" then !open
    else if w[0] == '`' then Whole(w[1..], !open)
    else (open || !(w[0] == ' ' || w[0] == '\t' || w[0] == '\n')) && Whole(w[1..], open)
  }

  /** A word that needs no quotes. */
  predicate Bare(w: string) {
    w == ">" || w == ">>" || (w != "" && w[0] != '#' && w[0] != '>' && w[0] != '"' && Whole(w, false))
  }

  /** A word, with or without quotes, and the gap after it. */
  datatype Token = Token(word: string, quoted: bool, gap: string)

  predicate Proper(t: Token) {
    Gap(t.gap) && if t.quoted then '"' !in t.word && '`' !in t.word else Bare(t.word)
  }

  function Spelling(t: Token): string {
    if t.quoted then "\"" + t.word + "\"" else t.word
  }

  function TokenText(t: Token): string {
    Spelling(t) + t.gap
  }

  function CommandText(ts: seq<Token>): string {
    if ts == [] then "" else TokenText(ts[0]) + CommandText(ts[1..])
  }

  function WordsOf(ts: seq<Token>): (ws: seq<string>)
    ensures |ws| == |ts| && forall i :: 0 <= i < |ts| ==> ws[i] == ts[i].word
  {
    if ts == [] then [] else [ts[0].word] + WordsOf(ts[1..])
  }

  /** There is a gap after every bare word, but perhaps not after the last of all. */
  predicate Parted(ts: seq<Token>, last: bool) {
    ts == [] ||
    (Proper(ts[0]) && (ts[0].quoted || ts[0].gap != "" || (last && |ts| == 1)) && Parted(ts[1..], last))
  }

  // ----- the words of a command -----

  lemma {:induction false} SkipsGap(s: string, i: nat, g: string, rest: string)
    requires Gap(g) && Continues(s, i, g + rest) && (rest != "" ==> !Gap(rest[..1]))
    ensures i + |g| <= |s| && Continues(s, i + |g|, rest) && SkipSeparators(s, i) == i + |g|
    decreases |g|
  {
    ContinuesConcat(s, i, g, rest);
    if g == "" {
      assert rest != "" ==> s[i + 0] == rest[0];
    } else {
      assert s[i + 0] == (g + rest)[0] == g[0];
      assert g + rest == g[..1] + (g[1..] + rest);
      ContinuesConcat(s, i, g[..1], g[1..] + rest);
      SkipsGap(s, i + 1, g[1..], rest);
    }
  }

  /** The end of a bare word. */
  lemma {:induction false} WholeEnds(s: string, i: nat, w: string, rest: string, open: bool)
    requires Whole(w, open) && i <= |s| && Continues(s, i, w + rest) && (rest != "" ==> Gap(rest[..1]))
    ensures i + |w| <= |s| && WordEnd(s, i, false, open) == i + |w|
    decreases |w|
  {
    if w == "" {
      assert w + rest == rest;
      assert rest != "" ==> s[i + 0] == rest[0];
    } else {
      assert s[i + 0] == (w + rest)[0] == w[0];
      assert w + rest == w[..1] + (w[1..] + rest);
      ContinuesConcat(s, i, w[..1], w[1..] + rest);
      WholeEnds(s, i + 1, w[1..], rest, if w[0] == '`' then !open else open);
    }
  }

  /** A quoted word ends at the second quotation mark. */
  lemma {:induction false} QuoteEnds(s: string, i: nat, w: string, rest: string)
    requires '"' !in w && '`' !in w && i <= |s| && Continues(s, i, w + "\"" + rest)
    ensures i + |w| < |s| && WordEnd(s, i, true, false) == i + |w|
    decreases |w|
  {
    if w == "" {
      assert s[i + 0] == (w + "\"" + rest)[0];
    } else {
      assert s[i + 0] == (w + "\"" + rest)[0] == w[0];
      assert w + "\"" + rest == w[..1] + (w[1..] + "\"" + rest);
      ContinuesConcat(s, i, w[..1], w[1..] + "\"" + rest);
      QuoteEnds(s, i + 1, w[1..], rest);
    }
  }

  lemma SliceContinues(s: string, i: nat, w: string, rest: string)
    requires Continues(s, i, w + rest)
    ensures i + |w| <= |s| && s[i..i + |w|] == w
  {
    ContinuesConcat(s, i, w, rest);
  }

  /** After a gap, a bare word is the next argument; one character of the gap after it is taken with it. */
  lemma BareArgument(s: string, i: nat, g: string, w: string, rest: string)
    requires Gap(g) && Bare(w) && i <= |s| && Continues(s, i, g + (w + rest)) && (rest != "" ==> Gap(rest[..1]))
    ensures NextArgument(s, i).Word? && NextArgument(s, i).word == w
    ensures var next := NextArgument(s, i).next;
            next == i + |g| + |w| || (rest != "" && next == i + |g| + |w| + 1)
  {
    hide WordEnd, Whole;
    FirstIsNoGap(w, rest);
    SkipsGap(s, i, g, w + rest);
    var begin := i + |g|;
    SliceContinues(s, begin, w, rest);
    ContinuesConcat(s, begin, w, rest);
    assert s[begin + 0] == (w + rest)[0] == w[0];
    if w[0] == '>' {
      assert |w| == 2 ==> s[begin + 1] == (w + rest)[1] == w[1];
      assert |w| == 1 && rest != "" ==> s[begin + 1] == (w + rest)[1] == rest[0];
    } else {
      WholeEnds(s, begin, w, rest, false);
    }
  }

  lemma FirstIsNoGap(w: string, rest: string)
    requires Bare(w)
    ensures w != "" && !Gap((w + rest)[..1])
  {
    assert (w + rest)[..1][0] == w[0];
  }

  lemma QuotedToken(s: string, i: nat, g: string, w: string, rest: string)
    requires Gap(g) && '"' !in w && '`' !in w && i <= |s| && Continues(s, i, g + ("\"" + w + "\"" + rest))
    ensures NextArgument(s, i) == Word(w, i + |g| + |w| + 2)
  {
    hide WordEnd;
    var q := "\"" + w + "\"" + rest;
    assert q[..1][0] == '"';
    SkipsGap(s, i, g, q);
    var begin := i + |g|;
    assert s[begin + 0] == q[0] == '"';
    assert q == "\"" + (w + "\"" + rest);
    ContinuesConcat(s, begin, "\"", w + "\"" + rest);
    QuoteEnds(s, begin + 1, w, rest);
    assert w + "\"" + rest == w + ("\"" + rest);
    SliceContinues(s, begin + 1, w, "\"" + rest);
  }

  /** A gap with less of it is a gap. */
  lemma GapRest(g: string, n: nat)
    requires Gap(g) && n <= |g|
    ensures Gap(g[n..])
  {}

  /** What may follow the last word: nothing, a newline, or a comment. */
  predicate Closing(end: string) {
    end == "" || end == "\n" || end[0] == '#'
  }

  lemma NothingWritten(s: string, i: nat, g: string, end: string)
    requires Gap(g) && Closing(end) && i <= |s| && Continues(s, i, g + end)
    ensures Words(s, i) == []
  {
    if end == "\n" {
      assert g + end == (g + end) + "";
      SkipsGap(s, i, g + end, "");
    } else {
      SkipsGap(s, i, g, end);
      assert end != "" ==> s[i + |g| + 0] == end[0];
    }
  }

  /** What is written, token by token. */
  lemma TextParts(g: string, ts: seq<Token>, end: string)
    requires ts != []
    ensures var rest := ts[0].gap + (CommandText(ts[1..]) + end);
            var all := g + (CommandText(ts) + end);
            all == g + (Spelling(ts[0]) + rest) && all == g + Spelling(ts[0]) + rest
  {
    hide Spelling;
    Regrouped(g, Spelling(ts[0]), ts[0].gap, CommandText(ts[1..]), end);
  }

  lemma Regrouped(a: string, b: string, c: string, d: string, e: string)
    ensures a + (b + c + d + e) == a + (b + (c + (d + e)))
    ensures a + (b + c + d + e) == a + b + (c + (d + e))
  {}

  lemma AfterToken(s: string, i: nat, head: string, gap: string, more: string, taken: nat)
    requires Continues(s, i, head + (gap + more)) && taken <= |gap|
    ensures i + |head| + taken <= |s| && Continues(s, i + |head| + taken, gap[taken..] + more)
  {
    ContinuesConcat(s, i, head, gap + more);
    assert gap + more == gap[..taken] + (gap[taken..] + more);
    ContinuesConcat(s, i + |head|, gap[..taken], gap[taken..] + more);
  }

  /** What follows a bare word is a gap or nothing. */
  lemma GapFollows(ts: seq<Token>, end: string)
    requires ts != [] && !ts[0].quoted && Closing(end) && Parted(ts, end == "" || end == "\n")
    ensures var rest := ts[0].gap + (CommandText(ts[1..]) + end);
            && (rest != "" ==> Gap(rest[..1])) && Gap(ts[0].gap) && Bare(ts[0].word)
            && (ts[0].gap == "" ==> ts[1..] == [] && rest == end && (end == "" || end == "\n"))
  {
    hide Bare;
    var gap, more := ts[0].gap, CommandText(ts[1..]) + end;
    if gap == "" {
      assert ts[1..] == [];
    } else {
      assert (gap + more)[..1][0] == gap[0];
    }
  }

  /** However the words of a command are written, parted by spaces, tabs and newlines, and with a comment or not: these
      are the words that nsh_argument finds. */
  lemma {:induction false} WrittenWords(s: string, i: nat, g: string, ts: seq<Token>, end: string)
    requires Gap(g) && Closing(end) && Parted(ts, end == "" || end == "\n")
    requires i <= |s| && Continues(s, i, g + (CommandText(ts) + end))
    ensures Words(s, i) == WordsOf(ts)
    decreases |ts|
  {
    hide NextArgument, Bare, Gap, Continues, Closing;
    if ts == [] {
      assert CommandText(ts) + end == end;
      NothingWritten(s, i, g, end);
    } else {
      var t, more := ts[0], CommandText(ts[1..]) + end;
      TextParts(g, ts, end);
      if t.quoted {
        QuotedToken(s, i, g, t.word, t.gap + more);
        AfterToken(s, i, g + Spelling(t), t.gap, more, 0);
        assert t.gap[0..] == t.gap;
        WrittenWords(s, i + |g| + |t.word| + 2, t.gap, ts[1..], end);
      } else {
        GapFollows(ts, end);
        BareArgument(s, i, g, t.word, t.gap + more);
        var next := NextArgument(s, i).next;
        var taken := next - (i + |g| + |t.word|);
        if t.gap == "" {
          LastWritten(s, i, g + t.word, end, taken);
        } else {
          AfterToken(s, i, g + t.word, t.gap, more, taken);
          GapRest(t.gap, taken);
          WrittenWords(s, next, t.gap[taken..], ts[1..], end);
        }
      }
    }
  }

  lemma LastWritten(s: string, i: nat, head: string, end: string, taken: nat)
    requires Continues(s, i, head + end) && (end == "" || end == "\n") && taken <= |end|
    ensures i + |head| + taken <= |s| && Words(s, i + |head| + taken) == []
  {
    assert head + end == head + (end + "");
    AfterToken(s, i, head, end, "", taken);
    assert end[taken..] + "" == "" + end[taken..];
    NothingWritten(s, i + |head| + taken, "", end[taken..]);
  }

  // ----- one command of a line -----

  /** None of the characters that nsh_parse looks for. */
  predicate Inert(s: string) {
    forall i :: 0 <= i < |s| ==> s[i] != '"' && s[i] != '#' && s[i] != ';' && s[i] != '\n'
  }

  predicate OneLine(ts: seq<Token>) {
    forall i :: 0 <= i < |ts| ==> Inert(ts[i].gap) && (!ts[i].quoted ==> Inert(ts[i].word))
  }

  lemma {:induction false} InertScanned(raw: string, i: nat, t: string, rest: string)
    requires Inert(t) && i <= |raw| && Continues(raw, i, t + rest)
    ensures i + |t| <= |raw| && NextDelimiter(raw, i) == NextDelimiter(raw, i + |t|)
    decreases |t|
  {
    if t != "" {
      assert raw[i + 0] == (t + rest)[0] == t[0];
      assert t + rest == t[..1] + (t[1..] + rest);
      ContinuesConcat(raw, i, t[..1], t[1..] + rest);
      InertScanned(raw, i + 1, t[1..], rest);
    }
  }

  lemma InertClean(raw: string, i: nat, t: string, rest: string, last: bool)
    requires Inert(t) && i <= |raw| && Continues(raw, i, t + rest)
    ensures i + |t| <= |raw| && Continues(raw, i + |t|, rest) && Clean(raw, i, last) == Clean(raw, i + |t|, last)
  {
    hide NextDelimiter, NextQuote;
    InertScanned(raw, i, t, rest);
    ContinuesConcat(raw, i, t, rest);
  }

  lemma {:induction false} QuoteFound(s: string, i: nat, w: string, rest: string)
    requires '"' !in w && i <= |s| && Continues(s, i, w + ("\"" + rest))
    ensures i + |w| < |s| && NextQuote(s, i) == i + |w|
    decreases |w|
  {
    if w == "" {
      assert s[i + 0] == (w + ("\"" + rest))[0];
    } else {
      assert s[i + 0] == (w + ("\"" + rest))[0] == w[0];
      assert w + ("\"" + rest) == w[..1] + (w[1..] + ("\"" + rest));
      ContinuesConcat(s, i, w[..1], w[1..] + ("\"" + rest));
      QuoteFound(s, i + 1, w[1..], rest);
    }
  }

  lemma QuotedClean(raw: string, i: nat, w: string, rest: string, last: bool)
    requires '"' !in w && i <= |raw| && Continues(raw, i, "\"" + w + "\"" + rest)
    ensures i + |w| + 2 <= |raw| && Continues(raw, i + |w| + 2, rest)
    ensures Clean(raw, i, last) == Clean(raw, i + |w| + 2, last)
  {
    hide NextQuote;
    assert raw[i + 0] == ("\"" + w + "\"" + rest)[0];
    assert "\"" + w + "\"" + rest == "\"" + (w + ("\"" + rest));
    ContinuesConcat(raw, i, "\"", w + ("\"" + rest));
    QuoteFound(raw, i + 1, w, rest);
    ContinuesConcat(raw, i, "\"" + w + "\"", rest);
  }

  /** nsh_parse finds no end in the text of a command but that of the command; after `#` it finds none at all. */
  lemma {:induction false} WrittenClean(raw: string, i: nat, g: string, ts: seq<Token>, comment: string, last: bool)
    requires Inert(g) && OneLine(ts) && Parted(ts, comment == "") && (comment == "" || (comment[0] == '#' && last))
    requires i <= |raw| && Continues(raw, i, g + (CommandText(ts) + comment))
    ensures Clean(raw, i, last)
    decreases |ts|
  {
    hide Inert, Continues, Bare, Gap, Clean;
    InertClean(raw, i, g, CommandText(ts) + comment, last);
    var j := i + |g|;
    if ts == [] {
      assert CommandText(ts) + comment == comment;
      CommentClean(raw, j, comment, last);
    } else {
      var t, more := ts[0], CommandText(ts[1..]) + comment;
      TextParts("", ts, comment);
      assert "" + (CommandText(ts) + comment) == CommandText(ts) + comment;
      assert "" + (Spelling(t) + (t.gap + more)) == Spelling(t) + (t.gap + more);
      if t.quoted {
        QuotedClean(raw, j, t.word, t.gap + more, last);
      } else {
        InertClean(raw, j, t.word, t.gap + more, last);
      }
      WrittenClean(raw, j + |Spelling(t)|, t.gap, ts[1..], comment, last);
    }
  }

  lemma CommentClean(raw: string, i: nat, comment: string, last: bool)
    requires i <= |raw| && Continues(raw, i, comment) && (comment == "" || (comment[0] == '#' && last))
    ensures Clean(raw, i, last)
  {
    assert comment != "" ==> raw[i + 0] == comment[0];
  }

  // ----- the commands of a line -----

  datatype Command = Command(lead: string, tokens: seq<Token>)

  function Raw(c: Command): string {
    c.lead + CommandText(c.tokens)
  }

  /** A command of a line; a comment may follow the last one, after a gap. */
  predicate Writable(c: Command, comment: string) {
    Gap(c.lead) && Inert(c.lead) && OneLine(c.tokens) && Parted(c.tokens, comment == "")
  }

  predicate AllWritable(cs: seq<Command>, comment: string) {
    cs == [] || (Writable(cs[0], if |cs| == 1 then comment else "") && AllWritable(cs[1..], comment))
  }

  /** The commands with semicolons between them, a comment or none, and a newline or none. */
  function LineOf(cs: seq<Command>, comment: string, newline: string): string {
    if cs == [] then comment + newline
    else if |cs| == 1 then Raw(cs[0]) + (comment + newline)
    else Raw(cs[0]) + (";" + LineOf(cs[1..], comment, newline))
  }

  function ListOf(cs: seq<Command>): Listing {
    if cs == [] then [] else [WordsOf(cs[0].tokens)] + ListOf(cs[1..])
  }

  predicate Comment(comment: string) {
    comment == "" || (comment[0] == '#' && '\n' !in comment)
  }

  /** What `SplitFrom` finds first, and then. */
  ghost predicate CutsOff(ps: seq<Piece>, words: seq<string>, rest: seq<Piece>) {
    ps != [] && ps[0].Piece? && ps[0].words == words && ps[1..] == rest
  }

  lemma SplitsHere(line: string, start: nat, i: nat)
    requires start <= i <= |line|
    requires var p := NextDelimiter(line, i); p == |line| || line[p] != '"'
    ensures var p := NextDelimiter(line, i);
            if p < |line| && line[p] == ';'
            then CutsOff(SplitFrom(line, start, i), Words(line[start..p], 0), SplitFrom(line, p + 1, p + 1))
            else CutsOff(SplitFrom(line, start, i), Words(line[start..], 0), [])
  {
    hide Words, Uint16;
  }

  lemma SplitsLater(line: string, start: nat, i: nat)
    requires start <= i <= |line|
    requires var p := NextDelimiter(line, i); p < |line| && line[p] == '"' && NextQuote(line, p + 1) < |line|
    ensures SplitFrom(line, start, i) == SplitFrom(line, start, NextQuote(line, NextDelimiter(line, i) + 1) + 1)
  {
    hide Words, Uint16;
  }

  /** The command that stands at the front of a line is cut off at its end. */
  lemma {:induction false} CleanSplits(line: string, start: nat, raw: string, end: nat, i: nat)
    requires Stands(line, start, raw, end) && i <= |raw| && Clean(raw, i, EndsLine(line, end))
    ensures if EndsLine(line, end) then CutsOff(SplitFrom(line, start, start + i), Words(line[start..], 0), [])
            else CutsOff(SplitFrom(line, start, start + i), Words(line[start..end], 0),
                         SplitFrom(line, end + 1, end + 1))
    decreases |raw| - i
  {
    hide NextDelimiter, NextQuote, SplitFrom, Words, CutsOff;
    DelimiterAt(line, start, raw, end, i);
    var d := NextDelimiter(raw, i);
    assert d < |raw| ==> line[start + d] == raw[d];
    if d < |raw| && raw[d] == '"' {
      QuoteAt(line, start, raw, end, d + 1);
      SplitsLater(line, start, start + i);
      CleanSplits(line, start, raw, end, NextQuote(raw, d + 1) + 1);
    } else {
      SplitsHere(line, start, start + i);
    }
  }

  lemma LastSplits(line: string, start: nat, c: Command, comment: string, newline: string)
    requires Writable(c, comment) && Comment(comment) && newline in {"", "\n"}
    requires start <= |line| && Continues(line, start, Raw(c) + (comment + newline))
    ensures Lists(SplitFrom(line, start, start), [WordsOf(c.tokens)])
  {
    hide SplitFrom, Words, Clean, Gap, Inert, Parted, OneLine;
    var raw := Raw(c) + comment;
    var end := start + |raw|;
    assert Raw(c) + (comment + newline) == raw + newline;
    ContinuesConcat(line, start, raw, newline);
    SliceContinues(line, start, raw, newline);
    assert newline == "\n" ==> line[end + 0] == newline[0];
    assert raw == c.lead + (CommandText(c.tokens) + comment);
    Itself(raw);
    WrittenClean(raw, 0, c.lead, c.tokens, comment, true);
    CleanSplits(line, start, raw, end, 0);
    LastWords(line[start..], c, comment, newline);
  }

  lemma LastWords(text: string, c: Command, comment: string, newline: string)
    requires Writable(c, comment) && Comment(comment) && newline in {"", "\n"}
    requires text == Raw(c) + comment + newline
    ensures Words(text, 0) == WordsOf(c.tokens)
  {
    hide Words, Clean, Gap, Inert, Parted, OneLine;
    assert text == c.lead + (CommandText(c.tokens) + (comment + newline));
    Itself(text);
    LastCloses(comment, newline);
    WrittenWords(text, 0, c.lead, c.tokens, comment + newline);
  }

  lemma Itself(s: string)
    ensures Continues(s, 0, s)
  {}

  lemma LastCloses(comment: string, newline: string)
    requires Comment(comment) && newline in {"", "\n"}
    ensures Closing(comment + newline) && (comment + newline in {"", "\n"} <==> comment == "")
  {
    assert comment != "" ==> (comment + newline)[0] == '#';
  }

  lemma NextSplits(line: string, start: nat, c: Command, rest: string)
    requires Writable(c, "") && start <= |line| && Continues(line, start, Raw(c) + (";" + rest))
    ensures var end := start + |Raw(c)|;
            && end < |line| && Continues(line, end + 1, rest)
            && CutsOff(SplitFrom(line, start, start), WordsOf(c.tokens), SplitFrom(line, end + 1, end + 1))
  {
    hide SplitFrom, Words, Clean, Gap, Inert, Parted, OneLine;
    var raw := Raw(c);
    var end := start + |raw|;
    ContinuesConcat(line, start, raw, ";" + rest);
    SliceContinues(line, start, raw, ";" + rest);
    assert line[end + 0] == (";" + rest)[0];
    ContinuesConcat(line, end, ";", rest);
    assert raw == c.lead + (CommandText(c.tokens) + "");
    Itself(raw);
    WrittenClean(raw, 0, c.lead, c.tokens, "", false);
    CleanSplits(line, start, raw, end, 0);
    WrittenWords(raw, 0, c.lead, c.tokens, "");
  }

  /** nsh_parse finds on a line exactly the commands that were written, whatever the comment after them holds. */
  lemma {:induction false} WrittenLineSplits(
    line: string, start: nat, cs: seq<Command>, comment: string, newline: string)
    requires cs != [] && AllWritable(cs, comment) && Comment(comment) && newline in {"", "\n"}
    requires start <= |line| && Continues(line, start, LineOf(cs, comment, newline))
    ensures Lists(SplitFrom(line, start, start), ListOf(cs))
    decreases |cs|
  {
    hide SplitFrom, Writable, Raw;
    if |cs| == 1 {
      LastSplits(line, start, cs[0], comment, newline);
      assert ListOf(cs) == [WordsOf(cs[0].tokens)];
    } else {
      NextSplits(line, start, cs[0], LineOf(cs[1..], comment, newline));
      WrittenLineSplits(line, start + |Raw(cs[0])| + 1, cs[1..], comment, newline);
      var ps := SplitFrom(line, start, start);
      assert forall k :: 0 < k < |ps| ==> ps[k] == ps[1..][k - 1];
    }
  }

  /** The argument vector holds ten words. */
  lemma ArgvHoldsTen(words: seq<string>)
    ensures Argv(words) == if |words| <= 10 then words else words[..10]
  {}

  /** So running the line is running these commands, in order, up to a failure or a jump, each with its first ten
      words as arguments. */
  lemma WrittenLineRuns<E>(run: Behaviour<E>, np: Np, env: E, cs: seq<Command>, comment: string, newline: string)
    requires InBounds(np) && cs != [] && AllWritable(cs, comment) && Comment(comment) && newline in {"", "\n"}
    ensures var line := LineOf(cs, comment, newline);
            var ps := SplitFrom(line, 0, 0);
            && Lists(ps, ListOf(cs)) && ParseLine(run, np, env, line) == RunPieces(run, np.(jump := false), env, ps)
  {
    hide ParseFrom, RunPieces, SplitFrom;
    var line := LineOf(cs, comment, newline);
    Itself(line);
    WrittenLineSplits(line, 0, cs, comment, newline);
    ParseRunsPieces(run, np.(jump := false), env, line, 0, 0);
  }

  // ----- the commands of a file -----

  /** A command as it is written is one of a file that can be read, unless it is a loop head with quotes. */
  lemma WrittenItem(c: Command, comment: string, end: Ending)
    requires Comment(comment) && (end == Semicolon ==> comment == "") && Writable(c, comment)
    ensures var it := Item(Raw(c) + comment, end);
            Clean(it.raw, 0, Last(it)) && ItemWords(it) == WordsOf(c.tokens)
  {
    hide Words, Clean, Gap, Inert, Parted, OneLine, Raw;
    var raw := Raw(c) + comment;
    RawIs(c, comment);
    Itself(raw);
    WrittenClean(raw, 0, c.lead, c.tokens, comment, end != Semicolon);
    if end == Newline {
      var text := raw + "\n";
      assert text == c.lead + (CommandText(c.tokens) + (comment + "\n"));
      Itself(text);
      LastCloses(comment, "\n");
      WrittenWords(text, 0, c.lead, c.tokens, comment + "\n");
    } else {
      LastCloses(comment, "");
      assert comment + "" == comment;
      WrittenWords(raw, 0, c.lead, c.tokens, comment);
    }
  }

  lemma RawIs(c: Command, comment: string)
    ensures Raw(c) + comment == c.lead + (CommandText(c.tokens) + comment)
  {}
}
