/** How NSH cuts text: a line into commands at semicolons outside quotes, a command into words. */
module NshText {

  /** g_token_separator. */
  predicate IsSeparator(c: char) {
    c == ' ' || c == '\t' || c == '\n'
  }

  /** g_line_separator. */
  predicate IsDelimiter(c: char) {
    c == '"' || c == '#' || c == ';' || c == '\n'
  }

  function SkipSeparators(s: string, i: nat): (j: nat)
    requires i <= |s|
    ensures i <= j <= |s| && (j < |s| ==> !IsSeparator(s[j]))
    decreases |s| - i
  {
    if i < |s| && IsSeparator(s[i]) then SkipSeparators(s, i + 1) else i
  }

  /** The end of the word that starts at `i`.  A quoted word ends at a quotation mark, any other at a
      separator; neither ends between two backquotes. */
  function WordEnd(s: string, i: nat, quoted: bool, backquote: bool): (j: nat)
    requires i <= |s|
    ensures i <= j <= |s|
    decreases |s| - i
  {
    if i == |s| then i
    else if s[i] == '`' then WordEnd(s, i + 1, quoted, !backquote)
    else if !backquote && (if quoted then s[i] == '"' else IsSeparator(s[i])) then i
    else WordEnd(s, i + 1, quoted, backquote)
  }

  /** What nsh_argument finds: a word and where to go on, or the end of the command. */
  datatype Argument = NoMore | Word(word: string, next: nat)

  /** nsh_argument, without the expansion of variables and backquotes. */
  function NextArgument(s: string, i: nat): (a: Argument)
    requires i <= |s|
    ensures a.Word? ==> i < a.next <= |s|
  {
    var begin := SkipSeparators(s, i);
    if begin == |s| || s[begin] == '#' then NoMore
    else if s[begin] == '>' then
      if begin + 1 < |s| && s[begin + 1] == '>' then Word(">>", begin + 2) else Word(">", begin + 1)
    else
      var quoted := s[begin] == '"';
      var from := if quoted then begin + 1 else begin;
      var end := WordEnd(s, from, quoted, false);
      Word(s[from..end], if end < |s| then end + 1 else end)
  }

  /** All words of a command. */
  function Words(s: string, i: nat): seq<string>
    requires i <= |s|
    decreases |s| - i
  {
    match NextArgument(s, i)
    case NoMore => []
    case Word(w, next) => [w] + Words(s, next)
  }

  /** strcspn with g_line_separator. */
  function NextDelimiter(s: string, i: nat): (j: nat)
    requires i <= |s|
    ensures i <= j <= |s| && (j < |s| ==> IsDelimiter(s[j]))
    decreases |s| - i
  {
    if i < |s| && !IsDelimiter(s[i]) then NextDelimiter(s, i + 1) else i
  }

  function NextQuote(s: string, i: nat): (j: nat)
    requires i <= |s|
    ensures i <= j <= |s| && (j < |s| ==> s[j] == '"')
    decreases |s| - i
  {
    if i < |s| && s[i] != '"' then NextQuote(s, i + 1) else i
  }
}
