/** Which texts are script files that the theorems about layouts speak of: exactly those whose lines fit the line
    buffer, whose quotes are closed on their lines, and whose loop heads have no quotes. */
module NshTidy {
  import opened Common
  import opened NshMachine
  import opened NshText
  import opened NshBytes
  import opened NshRefinement
  import opened NshLayout
  import opened NshReading

  // ----- conditions on a text -----

  function NextNewline(s: string, i: nat): (j: nat)
    requires i <= |s|
    ensures i <= j <= |s| && (j < |s| ==> s[j] == '\n') && forall k :: i <= k < j ==> s[k] != '\n'
    decreases |s| - i
  {
    if i < |s| && s[i] != '\n' then NextNewline(s, i + 1) else i
  }

  /** The end of the command that is scanned from `i` on, unless it has a quotation mark that its line does not
      close. */
  function CommandEnd(text: string, i: nat): (r: Option<nat>)
    requires i <= |text|
    ensures r.Some? ==> i <= r.value <= |text| && (r.value < |text| ==> text[r.value] in {';', '\n'})
    decreases |text| - i
  {
    var d := NextDelimiter(text, i);
    if d == |text| || text[d] == ';' || text[d] == '\n' then Some(d)
    else if text[d] == '#' then Some(NextNewline(text, d))
    else
      var close := NextQuote(text, d + 1);
      if close == |text| || NextNewline(text, d + 1) < close then None else CommandEnd(text, close + 1)
  }

  /** The command from `i` to `end`. */
  function ItemAt(text: string, i: nat, end: nat): Item
    requires i <= end <= |text|
  {
    Item(text[i..end], if end == |text| then EndOfFile else if text[end] == ';' then Semicolon else Newline)
  }

  predicate HeadUnquoted(it: Item) {
    IsLoopHead(ItemWords(it)) ==> Unquoted(it.raw)
  }

  /** The text ends with the command that ends at `end`. */
  predicate Ends(text: string, end: nat) {
    end >= |text| || (end + 1 == |text| && text[end] == '\n')
  }

  /** From the command at `i` on, quotes are closed and loop heads have none. */
  predicate TidyFrom(text: string, i: nat)
    requires i <= |text|
    decreases |text| - i
  {
    match CommandEnd(text, i)
    case None => false
    case Some(end) => HeadUnquoted(ItemAt(text, i, end)) && (Ends(text, end) || TidyFrom(text, end + 1))
  }

  /** From `i` on to the end of its line. */
  function LineRest(text: string, i: nat): nat
    requires i <= |text|
  {
    var n := NextNewline(text, i);
    if n < |text| then n + 1 - i else n - i
  }

  ghost predicate LinesFit(text: string) {
    forall i :: 0 <= i <= |text| ==> LineRest(text, i) < LINELEN
  }

  ghost predicate Tidy(text: string) {
    (text != "" ==> TidyFrom(text, 0)) && LinesFit(text)
  }

  // ----- cutting a text into commands -----

  function Cut(text: string, i: nat): (items: Layout)
    requires i <= |text| && TidyFrom(text, i)
    ensures items != []
    decreases |text| - i
  {
    var end := CommandEnd(text, i).value;
    [ItemAt(text, i, end)] + if Ends(text, end) then [] else Cut(text, end + 1)
  }

  lemma {:induction false} TextOfFirst(it: Item, rest: Layout, n: nat)
    requires n <= |rest|
    ensures TextOf([it] + rest, n + 1) == ItemText(it) + TextOf(rest, n)
    decreases n
  {
    hide ItemText;
    var items := [it] + rest;
    if n == 0 {
      assert TextOf(items, 0) == "" && TextOf(items, 1) == "" + ItemText(items[0]);
      assert ItemText(it) + "" == ItemText(it) == "" + ItemText(it);
    } else {
      TextOfFirst(it, rest, n - 1);
      assert items[n] == rest[n - 1];
      var a, b, c := ItemText(it), TextOf(rest, n - 1), ItemText(rest[n - 1]);
      assert a + (b + c) == a + b + c;
    }
  }

  lemma {:induction false} CutHolds(text: string, i: nat)
    requires i <= |text| && TidyFrom(text, i)
    ensures Text(Cut(text, i)) == text[i..]
    decreases |text| - i
  {
    hide CommandEnd, TextOf, ItemAt, HeadUnquoted;
    var end := CommandEnd(text, i).value;
    var it := ItemAt(text, i, end);
    ItemAtText(text, i, end);
    if Ends(text, end) {
      TextOfFirst(it, [], 0);
      NoText();
      assert [it] + [] == [it];
    } else {
      CutHolds(text, end + 1);
      var rest := Cut(text, end + 1);
      TextOfFirst(it, rest, |rest|);
    }
  }

  lemma NoText()
    ensures TextOf([], 0) == ""
  {}

  lemma ItemAtText(text: string, i: nat, end: nat)
    requires i <= end <= |text| && (end < |text| ==> text[end] == ';' || text[end] == '\n')
    ensures ItemText(ItemAt(text, i, end)) + (if end < |text| then text[end + 1..] else "") == text[i..]
  {
    if end == |text| {
      assert text[i..end] == text[i..];
    } else {
      assert text[i..end] + [text[end]] + text[end + 1..] == text[i..];
    }
  }

  /** What is cut off is clean. */
  lemma {:induction false} CutClean(text: string, i: nat, j: nat, end: nat)
    requires i <= j <= |text| && CommandEnd(text, j) == Some(end)
    ensures Clean(text[i..end], j - i, end == |text| || text[end] == '\n')
    decreases |text| - j
  {
    hide NextDelimiter, NextQuote, NextNewline, CommandEnd, Clean;
    var raw := text[i..end];
    var d := NextDelimiter(text, j);
    CutDelimiter(text, i, j, end);
    EndAt(text, j, end);
    CleanAt(raw, j - i, end == |text| || text[end] == '\n');
    if d < |text| && text[d] == '"' {
      var close := NextQuote(text, d + 1);
      CutQuote(text, i, d + 1, end, close);
      CutClean(text, i, close + 1, end);
      assert raw[d - i] == '"';
    } else if d < |text| && text[d] == '#' && d < end {
      assert raw[d - i] == '#';
    }
  }

  /** What is at the first delimiter of a command that ends at `end`. */
  lemma EndAt(text: string, i: nat, end: nat)
    requires i <= |text| && CommandEnd(text, i) == Some(end)
    ensures var d := NextDelimiter(text, i);
            && (d == |text| || text[d] in {';', '\n'} ==> end == d)
            && (d < |text| && text[d] == '#' ==> end == |text| || text[end] == '\n')
            && (d < |text| && text[d] == '"' ==>
                  var close := NextQuote(text, d + 1);
                  close < |text| && close < end && CommandEnd(text, close + 1) == Some(end))
  {
    hide NextDelimiter, NextQuote;
  }

  /** And what makes it clean. */
  lemma CleanAt(raw: string, i: nat, last: bool)
    requires i <= |raw|
    ensures var d := NextDelimiter(raw, i);
            && (d == |raw| || (raw[d] == '#' && last) ==> Clean(raw, i, last))
            && (d < |raw| && raw[d] == '"' && NextQuote(raw, d + 1) < |raw| ==>
                  Clean(raw, NextQuote(raw, d + 1) + 1, last) ==> Clean(raw, i, last))
  {
    hide NextDelimiter, NextQuote;
  }

  /** It has no newline. */
  lemma {:induction false} CutOneLine(text: string, j: nat, end: nat)
    requires j <= |text| && CommandEnd(text, j) == Some(end)
    ensures forall k :: j <= k < end ==> text[k] != '\n'
    decreases |text| - j
  {
    hide NextDelimiter, NextQuote, NextNewline;
    var d := NextDelimiter(text, j);
    NoDelimiter(text, j);
    if d < |text| && text[d] == '"' {
      CutOneLine(text, NextQuote(text, d + 1) + 1, end);
    }
  }

  lemma {:induction false} NoDelimiter(text: string, i: nat)
    requires i <= |text|
    ensures forall k :: i <= k < NextDelimiter(text, i) ==> !IsDelimiter(text[k])
    decreases |text| - i
  {
    if i < |text| && !IsDelimiter(text[i]) {
      NoDelimiter(text, i + 1);
    }
  }

  lemma {:induction false} CutDelimiter(text: string, i: nat, j: nat, end: nat)
    requires i <= j <= end <= |text| && (end < |text| ==> text[end] == ';' || text[end] == '\n')
    ensures var d := NextDelimiter(text, j); NextDelimiter(text[i..end], j - i) == (if d < end then d else end) - i
    decreases end - j
  {
    if j < end {
      assert text[i..end][j - i] == text[j];
      if !IsDelimiter(text[j]) {
        CutDelimiter(text, i, j + 1, end);
      }
    }
  }

  lemma {:induction false} CutQuote(text: string, i: nat, j: nat, end: nat, close: nat)
    requires i <= j <= close < end <= |text| && NextQuote(text, j) == close
    ensures NextQuote(text[i..end], j - i) == close - i
    decreases end - j
  {
    assert text[i..end][j - i] == text[j];
    if text[j] != '"' {
      CutQuote(text, i, j + 1, end, close);
    }
  }

  /** A part of a file; `starts` says that it starts a line. */
  ghost predicate Part(items: Layout, starts: bool) {
    && items != [] && Last(items[|items| - 1])
    && (forall n :: 0 <= n < |items| ==> ReadableItem(items[n]))
    && (starts ==> ItemText(items[0]) != "")
    && (forall n :: 0 < n < |items| && StartsLine(items, n) ==> ItemText(items[n]) != "")
    && (forall n :: 0 <= n < |items| - 1 ==> !items[n].end.EndOfFile?)
  }

  lemma PartFirst(it: Item, rest: Layout, starts: bool)
    requires Part(rest, Last(it)) && ReadableItem(it) && (starts ==> ItemText(it) != "") && !it.end.EndOfFile?
    ensures Part([it] + rest, starts)
  {
    hide ReadableItem, ItemText;
    var items := [it] + rest;
    forall n | 0 < n < |items|
      ensures items[n] == rest[n - 1]
      ensures StartsLine(items, n) <==> if n == 1 then Last(it) else StartsLine(rest, n - 1)
    {
      assert n > 1 ==> items[n - 1] == rest[n - 2];
    }
  }

  lemma {:induction false} CutIsPart(text: string, i: nat)
    requires i <= |text| && TidyFrom(text, i)
    ensures Part(Cut(text, i), i < |text|)
    decreases |text| - i
  {
    hide CommandEnd, Part, HeadUnquoted, Clean;
    var end := CommandEnd(text, i).value;
    var it := ItemAt(text, i, end);
    ItemIsTidy(text, i, end);
    if Ends(text, end) {
      PartAlone(it, i < |text|);
      assert [it] + [] == [it];
    } else {
      CutIsPart(text, end + 1);
      var rest := Cut(text, end + 1);
      PartWeaker(rest, end + 1 < |text|, Last(it));
      PartFirst(it, rest, i < |text|);
    }
  }

  lemma PartAlone(it: Item, starts: bool)
    requires ReadableItem(it) && Last(it) && (starts ==> ItemText(it) != "")
    ensures Part([it], starts)
  {}

  lemma PartWeaker(items: Layout, a: bool, b: bool)
    requires Part(items, a) && (b ==> a)
    ensures Part(items, b)
  {}

  lemma ItemIsTidy(text: string, i: nat, end: nat)
    requires i <= |text| && CommandEnd(text, i) == Some(end) && HeadUnquoted(ItemAt(text, i, end))
    ensures ReadableItem(ItemAt(text, i, end)) && (i < |text| ==> ItemText(ItemAt(text, i, end)) != "")
  {
    hide CommandEnd, Clean, ItemWords;
    CutClean(text, i, i, end);
    CutOneLine(text, i, end);
  }

  lemma CutScanned(text: string)
    requires text != "" && TidyFrom(text, 0)
    ensures Scanned(Cut(text, 0)) && Text(Cut(text, 0)) == text
  {
    hide Cut, TidyFrom, ReadableItem, ItemText, Text;
    CutIsPart(text, 0);
    CutHolds(text, 0);
    assert text[0..] == text;
  }

  // ----- lines that fit -----

  lemma RestAtLeast(text: string, i: nat, j: nat)
    requires i <= j <= |text| && forall k :: i <= k < j - 1 ==> text[k] != '\n'
    ensures LineRest(text, i) >= j - i
  {}

  lemma ScannedFits(items: Layout, n: nat)
    requires Scanned(items) && LinesFit(Text(items)) && n < |items|
    ensures Off(items, LineStop(items, n)) - Off(items, n) < LINELEN
  {
    hide Scanned, TextOf, LinesFit, LineRest;
    NonemptyEndsLine(items);
    var last := LineStop(items, n) - 1;
    forall k | n <= k < last ensures !Last(items[k]) {
      LineStopIsFirst(items, n, k);
    }
    OffMonotone(items, n, last);
    OffMonotone(items, last, |items|);
    NoNewlineBefore(items, n, last);
    LastNewline(items, last);
    RestAtLeast(Text(items), Off(items, n), Off(items, last + 1));
    RestFits(Text(items), Off(items, n));
  }

  lemma RestFits(text: string, i: nat)
    requires LinesFit(text) && i <= |text|
    ensures LineRest(text, i) < LINELEN
  {}

  /** Every tidy text has a layout. */
  lemma TidyIsReadable(text: string) returns (items: Layout)
    requires Tidy(text)
    ensures Readable(items) && Text(items) == text
  {
    hide Scanned, TextOf, LinesFit, TidyFrom;
    if text == "" {
      items := [];
      NothingScanned();
    } else {
      CutScanned(text);
      items := Cut(text, 0);
      NonemptyEndsLine(items);
      forall n | 0 <= n < |items| ensures Off(items, LineStop(items, n)) - Off(items, n) < LINELEN {
        ScannedFits(items, n);
      }
    }
  }

  lemma NothingScanned()
    ensures Readable([]) && Text([]) == ""
  {}

  // ----- and no other text has one -----

  /** The scan of the text ends where the command of the layout does. */
  lemma {:induction false} EndIsThere(text: string, start: nat, raw: string, end: nat, i: nat)
    requires Stands(text, start, raw, end) && i <= |raw| && '\n' !in raw && Clean(raw, i, EndsLine(text, end))
    ensures CommandEnd(text, start + i) == Some(end)
    decreases |raw| - i
  {
    hide NextDelimiter, NextQuote, NextNewline;
    DelimiterAt(text, start, raw, end, i);
    var d := NextDelimiter(raw, i);
    assert d < |raw| ==> text[start + d] == raw[d];
    if d < |raw| {
      assert forall k :: start <= k < end ==> text[k] == raw[k - start];
      if raw[d] == '"' {
        QuoteAt(text, start, raw, end, d + 1);
        EndIsThere(text, start, raw, end, NextQuote(raw, d + 1) + 1);
        NewlineIsAfter(text, start + d + 1, end);
      } else {
        NewlineIsAt(text, start + d, end);
      }
    }
  }

  lemma NewlineIsAfter(text: string, i: nat, end: nat)
    requires i <= end <= |text| && forall k :: i <= k < end ==> text[k] != '\n'
    ensures NextNewline(text, i) >= end
  {}

  lemma NewlineIsAt(text: string, i: nat, end: nat)
    requires i <= end <= |text| && EndsLine(text, end) && forall k :: i <= k < end ==> text[k] != '\n'
    ensures NextNewline(text, i) == end
  {
    NewlineIsAfter(text, i, end);
  }

  lemma ItemIsThere(items: Layout, n: nat)
    requires Scanned(items) && n < |items|
    ensures Off(items, n) <= Off(items, n) + |items[n].raw| <= |Text(items)|
    ensures var end := Off(items, n) + |items[n].raw|;
            && CommandEnd(Text(items), Off(items, n)) == Some(end)
            && ItemAt(Text(items), Off(items, n), end) == items[n]
            && (if n == |items| - 1 then Ends(Text(items), end) else end + 1 == Off(items, n + 1))
  {
    hide Scanned, TextOf, CommandEnd, Clean, ItemWords;
    var text, start, it := Text(items), Off(items, n), items[n];
    TextAt(items, n, |items|);
    OnlyLast(items, n);
    ItemIsReadable(items, n);
    NonemptyEndsLine(items);
    StandsIn(text, start, it);
    EndIsThere(text, start, it.raw, start + |it.raw|, 0);
    assert text[start..start + |it.raw|] == it.raw;
  }

  lemma {:induction false} ScannedIsTidy(items: Layout, n: nat)
    requires Scanned(items) && n < |items| && Off(items, n) <= |Text(items)|
    ensures TidyFrom(Text(items), Off(items, n))
    decreases |items| - n
  {
    hide Scanned, TextOf, CommandEnd, ItemWords;
    ItemIsThere(items, n);
    ItemIsReadable(items, n);
    if n < |items| - 1 {
      OffMonotone(items, n + 1, |items|);
      ScannedIsTidy(items, n + 1);
    }
  }

  /** Every byte of the text is in some command. */
  lemma {:induction false} CommandOf(items: Layout, m: nat, i: nat) returns (n: nat)
    requires m <= |items| && i < Off(items, m)
    ensures n < m && Off(items, n) <= i < Off(items, n + 1)
    decreases m
  {
    hide ItemText;
    if m > 0 && i < Off(items, m - 1) {
      n := CommandOf(items, m - 1, i);
    } else {
      n := m - 1;
    }
  }

  lemma ReadableFits(items: Layout, i: nat)
    requires Readable(items) && i <= |Text(items)|
    ensures LineRest(Text(items), i) < LINELEN
  {
    hide Readable, Scanned, TextOf, NextNewline;
    var text := Text(items);
    if i < |text| {
      ReadableIsScanned(items);
      var n := CommandOf(items, |items|, i);
      NonemptyEndsLine(items);
      var stop := LineStop(items, n);
      OffMonotone(items, n + 1, stop);
      LineFits(items, n);
      LastNewline(items, stop - 1);
    }
  }

  /** The texts that have a layout are exactly the tidy ones. */
  lemma LayoutExact(text: string)
    ensures (exists items :: Readable(items) && Text(items) == text) <==> Tidy(text)
  {
    hide Readable, Scanned, TextOf, TidyFrom, LineRest;
    if items :| Readable(items) && Text(items) == text {
      ReadableIsScanned(items);
      if text != "" {
        NoItems(items);
        ScannedIsTidy(items, 0);
      }
      forall i | 0 <= i <= |text| ensures LineRest(text, i) < LINELEN {
        ReadableFits(items, i);
      }
    }
    if Tidy(text) {
      var items := TidyIsReadable(text);
    }
  }

  lemma NoItems(items: Layout)
    ensures Text(items) != "" ==> items != []
    ensures Off(items, 0) == 0
  {}

  // ----- a text has one layout -----

  lemma {:induction false} LayoutIsCut(items: Layout, n: nat)
    requires Scanned(items) && n < |items| && Off(items, n) <= |Text(items)| && TidyFrom(Text(items), Off(items, n))
    ensures items[n..] == Cut(Text(items), Off(items, n))
    decreases |items| - n
  {
    hide Scanned, TextOf, CommandEnd, ItemAt, HeadUnquoted;
    ItemIsThere(items, n);
    if n < |items| - 1 {
      OffMonotone(items, n + 1, |items|);
      GoesOnAfter(items, n);
      LayoutIsCut(items, n + 1);
      assert items[n..] == [items[n]] + items[n + 1..];
    } else {
      assert items[n..] == [items[n]] + [];
    }
  }

  lemma GoesOnAfter(items: Layout, n: nat)
    requires Scanned(items) && n < |items| - 1
    ensures !Ends(Text(items), Off(items, n) + |items[n].raw|)
  {
    hide Scanned, TextOf, CommandEnd, ItemAt;
    TextAt(items, n, |items|);
    TextAt(items, n + 1, |items|);
    ItemIsThere(items, n);
    LineStartHasText(items, n + 1);
    NotTheEnd(items, n);
    var end := Off(items, n) + |items[n].raw|;
    if items[n].end.Semicolon? {
      assert Text(items)[end] == Text(items)[Off(items, n)..Off(items, n + 1)][|items[n].raw|];
    }
  }

  lemma LineStartHasText(items: Layout, n: nat)
    requires Scanned(items) && 0 < n < |items|
    ensures Last(items[n - 1]) ==> ItemText(items[n]) != ""
  {
    assert StartsLine(items, n) <==> Last(items[n - 1]);
  }

  lemma NotTheEnd(items: Layout, n: nat)
    requires Scanned(items) && n < |items| - 1
    ensures !items[n].end.EndOfFile?
  {}

  /** A text is cut into commands in one way only. */
  lemma LayoutUnique(a: Layout, b: Layout)
    requires Readable(a) && Readable(b) && Text(a) == Text(b)
    ensures a == b
  {
    hide Readable, Scanned, TextOf, TidyFrom, Cut;
    ReadableIsScanned(a);
    ReadableIsScanned(b);
    NoItems(a);
    NoItems(b);
    if a != [] {
      HasText(a);
    }
    if b != [] {
      HasText(b);
    }
    if a != [] {
      ScannedIsTidy(a, 0);
      LayoutIsCut(a, 0);
      LayoutIsCut(b, 0);
      assert a[0..] == a && b[0..] == b;
    }
  }

  lemma HasText(items: Layout)
    requires Scanned(items) && items != []
    ensures Text(items) != ""
  {
    hide TextOf;
    assert StartsLine(items, 0);
    TextAt(items, 0, |items|);
  }
}
