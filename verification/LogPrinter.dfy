/** Printing a general log, and when the program reads its statements back. */
module LogPrinter {
  import opened CStrings
  import opened GeneralLog
  import opened LogFormat

  // ----- Printing ------------------------------------------------------------------------------

  /** A line and how it ends. */
  datatype Line = Line(text: string, eol: string)

  /** A logged statement: the text before "Query", the character after it, and the statement's lines. */
  datatype Entry = Entry(prefix: string, sep: char, first: string, eol: string, more: seq<Line>)

  predicate Terminator(eol: string) {
    eol == "\n" || eol == "\r\n"
  }

  predicate PlainLine(s: string) {
    '\r' !in s && '\0' !in s && '\n' !in s
  }

  predicate PlainLines(ls: seq<Line>) {
    ls == [] || (PlainLine(ls[0].text) && Terminator(ls[0].eol) && PlainLines(ls[1..]))
  }

  /** Either header layout; the statement's lines may be empty. */
  predicate Printable(e: Entry) {
    && (|e.prefix| == 9 || |e.prefix| == 23)
    && PlainLine(e.prefix) && PlainLine([e.sep])
    && PlainLine(e.first) && Terminator(e.eol) && PlainLines(e.more)
  }

  predicate AllPrintable(es: seq<Entry>) {
    forall i | 0 <= i < |es| :: Printable(es[i])
  }

  function FirstLine(e: Entry): string {
    e.prefix + "Query" + [e.sep] + e.first
  }

  function Lines(ls: seq<Line>): string {
    if ls == [] then "" else ls[0].text + ls[0].eol + Lines(ls[1..])
  }

  function PrintEntry(e: Entry): string {
    FirstLine(e) + e.eol + Lines(e.more)
  }

  function Print(es: seq<Entry>): string {
    if es == [] then "" else Print(es[..|es| - 1]) + PrintEntry(es[|es| - 1])
  }

  function Concat(ls: seq<Line>): string {
    if ls == [] then "" else ls[0].text + Concat(ls[1..])
  }

  /** The statement without its line breaks. */
  function Text(e: Entry): string {
    e.first + Concat(e.more)
  }

  function Texts(es: seq<Entry>): (r: seq<string>)
    ensures |r| == |es|
  {
    if es == [] then [] else Texts(es[..|es| - 1]) + [Text(es[|es| - 1])]
  }

  // ----- What can go wrong with one entry ------------------------------------------------------

  /** The first line with its terminator reaches the length its header test asks for. */
  predicate LongEnough(e: Entry) {
    |FirstLine(e) + e.eol| >= if |e.prefix| == 9 then 20 else 34
  }

  /** A long prefix does not show "Query" where a short one would. */
  predicate PrefixIsClear(e: Entry) {
    |e.prefix| == 23 ==> e.prefix[9..14] != "Query"
  }

  predicate ContinuationsAreClear(ls: seq<Line>) {
    ls == [] || (!IsHeader(ls[0].text + ls[0].eol) && ContinuationsAreClear(ls[1..]))
  }

  /** Read line by line, the entry is recognised and no other line of it is. */
  predicate Unambiguous(e: Entry) {
    PrefixIsClear(e) && LongEnough(e) && ContinuationsAreClear(e.more)
  }

  /** Its lines also survive being cut into chunks. */
  predicate CutsWell(e: Entry, room: Room) {
    !SplitHeader(PrintEntry(e), true, room) && !KeepsReturn(PrintEntry(e), false, room)
  }

  // ----- Items of a log put together at a line start -------------------------------------------

  predicate EndsLine(s: string) {
    s == "" || s[|s| - 1] == '\n'
  }

  lemma LineLenAppend(a: string, b: string)
    requires a != "" && EndsLine(a)
    ensures LineLen(a + b) == LineLen(a)
  {
    var n := LineLen(a);
    assert forall k: nat | k < |a| :: (a + b)[k] == a[k];
    LineLenUnique(a + b, n);
  }

  lemma {:induction false} ItemsAppend(a: string, b: string, room: Room)
    requires EndsLine(a)
    ensures Items(a + b, room) == Items(a, room) + Items(b, room)
    decreases |a|
  {
    hide *;
    NothingLeft(room);
    if a == "" {
      assert a + b == b;
    } else {
      var n := Cut(a, room);
      CutAppend(a, b, room);
      ItemSteps(a, room);
      ItemSteps(a + b, room);
      assert (a + b)[..n] == a[..n] && (a + b)[n..] == a[n..] + b;
      ItemsAppend(a[n..], b, room);
      ConsAppend(Classify(CStr(a[..n])), Items(a[n..], room), Items(b, room));
    }
  }

  lemma CutAppend(a: string, b: string, room: Room)
    requires a != "" && EndsLine(a)
    ensures Cut(a + b, room) == Cut(a, room) && EndsLine(a[Cut(a, room)..])
  {
    LineLenAppend(a, b);
  }

  lemma {:induction false} LinesEndLine(ls: seq<Line>)
    requires PlainLines(ls)
    ensures EndsLine(Lines(ls))
  {
    if ls != [] {
      LinesEndLine(ls[1..]);
    }
  }

  lemma {:induction false} PrintEndsLine(es: seq<Entry>)
    requires AllPrintable(es)
    ensures EndsLine(Print(es))
  {
    if es != [] {
      LinesEndLine(es[|es| - 1].more);
    }
  }

  // ----- Group over a concatenation ------------------------------------------------------------

  lemma ConsAppend(item: Item, a: seq<Item>, b: seq<Item>)
    ensures [item] + a + b == [item] + (a + b)
  {
  }

  lemma First(items: seq<Item>)
    requires items != []
    ensures items == [items[0]] + items[1..]
  {
  }

  lemma ConsStrings(x: string, a: seq<string>, b: seq<string>)
    ensures [x] + (a + b) == [x] + a + b
  {
  }

  lemma NoItems(b: seq<Item>)
    ensures Group([]) == [] && Body([]) == "" && HeaderCount([]) == 0
    ensures b != [] && b[0].Header? ==> Body(b) == ""
  {
  }

  /** A header ends what came before. */
  lemma {:induction false} GroupAtHeader(a: seq<Item>, b: seq<Item>)
    requires b != [] && b[0].Header?
    ensures Group(a + b) == Group(a) + Group(b) && Body(a + b) == Body(a)
  {
    hide *;
    NoItems(b);
    if a == [] {
      assert a + b == b;
    } else {
      var rest := a[1..];
      GroupAtHeader(rest, b);
      First(a);
      ConsAppend(a[0], rest, b);
      GroupCons(a[0], rest);
      GroupCons(a[0], rest + b);
      ConsStrings(a[0].text + Body(rest), Group(rest), Group(b));
    }
  }

  function Last(list: seq<string>): string
    requires list != []
  {
    list[|list| - 1]
  }

  /** The last statement of a log is the last statement of any tail with a header. */
  lemma {:induction false} LastOfTail(a: seq<Item>, b: seq<Item>)
    requires HeaderCount(b) > 0
    ensures Group(b) != [] && Group(a + b) != [] && Last(Group(a + b)) == Last(Group(b))
  {
    OneStatementPerHeader(b);
    if a == [] {
      assert a + b == b;
    } else {
      LastOfTail(a[1..], b);
      First(a);
      ConsAppend(a[0], a[1..], b);
      GroupCons(a[0], a[1..] + b);
    }
  }

  /** A tail without header ends up in the last statement, if there is one. */
  lemma {:induction false} TailWithoutHeader(a: seq<Item>, b: seq<Item>)
    requires HeaderCount(b) == 0
    ensures Group(a + b) == [] || |Last(Group(a + b))| >= |Body(b)|
    ensures |Body(a + b)| >= |Body(b)| || HeaderCount(a) > 0
  {
    OneStatementPerHeader(b);
    if a == [] {
      assert a + b == b;
    } else {
      TailWithoutHeader(a[1..], b);
      First(a);
      ConsAppend(a[0], a[1..], b);
      GroupCons(a[0], a[1..] + b);
      GroupCons(a[0], a[1..]);
      OneStatementPerHeader(a[1..] + b);
      HeaderCountAppend(a[1..], b);
    }
  }
  // ----- How long a stretch of chunks can be ---------------------------------------------------

  /** Chunks without a header keep all their text. */
  lemma {:induction false} BareOfContinuations(input: string, room: Room)
    requires Clean(input) && HeaderCount(Items(input, room)) == 0
    ensures Bare(Body(Items(input, room))) == Bare(input)
    decreases |input|
  {
    hide *;
    NothingLeft(room);
    if input != [] {
      var n := Cut(input, room);
      var c, rest := input[..n], input[n..];
      ChunkLength(input, room);
      ItemSteps(input, room);
      CleanDrop(input, n);
      GroupCons(Classify(CStr(c)), Items(rest, room));
      BareOfContinuations(rest, room);
      BareOfJoined(Classify(CStr(c)), Items(rest, room));
    }
  }

  /** The bare text of a chunk's item: whole for a continuation, shorter for a header. */
  lemma ChunkLength(input: string, room: Room)
    requires Clean(input) && input != []
    ensures var c, rest := input[..Cut(input, room)], input[Cut(input, room)..];
            var part := Classify(CStr(c));
            && (!part.Header? ==> Bare(part.text) == Bare(c))
            && (part.Header? ==> |Bare(part.text)| < |Bare(c)|)
            && Bare(input) == Bare(c) + Bare(rest)
  {
    hide *;
    var n, len := Cut(input, room), LineLen(input);
    ItemOfChunk(input, room);
    MatchLength(input[..n], input[n..][..len - n]);
    BareAppend(input[..n], input[n..]);
    assert input == input[..n] + input[n..];
  }

  lemma MatchLength(c: string, rest: string)
    requires ItemsMatch(c, rest)
    ensures var part := Classify(CStr(c));
            && (!part.Header? ==> Bare(part.text) == Bare(c))
            && (part.Header? ==> |Bare(part.text)| < |Bare(c)|)
  {
    hide Classify, CStr, IsHeader, Bare;
  }

  /** The last statement begins with a line or chunk that lost its header text. */
  lemma {:induction false} LastStatementIsShort(input: string, room: Room)
    requires Clean(input) && HeaderCount(Items(input, room)) > 0
    ensures Group(Items(input, room)) != [] && |Bare(Last(Group(Items(input, room))))| < |Bare(input)|
    decreases |input|
  {
    hide *;
    NothingLeft(room);
    if input != [] {
      var n := Cut(input, room);
      var c, rest := input[..n], input[n..];
      var part, items := Classify(CStr(c)), Items(rest, room);
      ChunkLength(input, room);
      ItemSteps(input, room);
      CleanDrop(input, n);
      GroupCons(part, items);
      if HeaderCount(items) > 0 {
        LastStatementIsShort(rest, room);
        LastOfTail([part], items);
      } else {
        BareOfContinuations(rest, room);
        BareOfJoined(part, items);
        NoStatements(items);
        LastOfOne(part.text + Body(items));
        BareAppend(part.text, Body(items));
      }
    }
  }

  lemma NoStatements(items: seq<Item>)
    requires HeaderCount(items) == 0
    ensures Group(items) == []
  {
    OneStatementPerHeader(items);
  }

  lemma LastOfOne(s: string)
    ensures Last([s] + []) == s
  {
  }
  // ----- One printed entry, line by line -------------------------------------------------------

  function LinesItems(ls: seq<Line>): seq<Item> {
    if ls == [] then [] else [Classify(ls[0].text + ls[0].eol)] + LinesItems(ls[1..])
  }

  lemma LineLenOfLine(line: string, eol: string, rest: string)
    requires PlainLine(line) && Terminator(eol)
    ensures LineLen(line + eol + rest) == |line + eol|
  {
    var input, n := line + eol + rest, |line + eol|;
    assert forall k: nat | k < |line| :: input[k] == line[k];
    assert forall k: nat | k < |eol| :: input[|line| + k] == eol[k];
    LineLenUnique(input, n);
  }

  lemma LineItemsOfLine(line: string, eol: string, rest: string)
    requires PlainLine(line) && Terminator(eol)
    ensures LineItems(line + eol + rest) == [Classify(line + eol)] + LineItems(rest)
  {
    hide LineLen, Classify, CStr;
    var input, text := line + eol + rest, line + eol;
    LineLenOfLine(line, eol, rest);
    CStrUnique(text, |text|);
    assert text[..|text|] == text && input[..|text|] == text && input[|text|..] == rest;
  }

  lemma {:induction false} LineItemsOfLines(ls: seq<Line>)
    requires PlainLines(ls)
    ensures LineItems(Lines(ls)) == LinesItems(ls)
  {
    if ls != [] {
      hide LineItems, Classify;
      LineItemsOfLine(ls[0].text, ls[0].eol, Lines(ls[1..]));
      LineItemsOfLines(ls[1..]);
    } else {
      hide Classify, LineLen;
    }
  }

  lemma LineItemsOfEntry(e: Entry)
    requires Printable(e)
    ensures LineItems(PrintEntry(e)) == [Classify(FirstLine(e) + e.eol)] + LinesItems(e.more)
  {
    hide LineItems, Classify;
    FirstLineIsPlain(e);
    LineItemsOfLine(FirstLine(e), e.eol, Lines(e.more));
    LineItemsOfLines(e.more);
  }

  lemma FirstLineIsPlain(e: Entry)
    requires Printable(e)
    ensures PlainLine(FirstLine(e)) && Terminator(e.eol)
  {
  }

  lemma StripPrinted(line: string, eol: string)
    requires PlainLine(line) && Terminator(eol)
    ensures Strip(line + eol) == line && IsChunk(line + eol, line, eol)
  {
    StripChunk(line + eol, line, eol);
  }

  /** The header line is recognised and captured right exactly when it is long enough and its prefix is not misread. */
  lemma FirstLineIsHeader(e: Entry)
    requires Printable(e)
    ensures var item := Classify(FirstLine(e) + e.eol);
            item.Header? && item.text == e.first <==> LongEnough(e) && PrefixIsClear(e)
  {
    hide *;
    var text := FirstLine(e) + e.eol;
    FirstLineIsPlain(e);
    StripPrinted(FirstLine(e), e.eol);
    ClassifyDrops(text);
    DropOfPrinted(e);
    CapturedText(e, Dropped(text));
  }

  /** The header test drops the whole text before the statement exactly for a long enough, clear first line. */
  lemma DropOfPrinted(e: Entry)
    requires Printable(e)
    ensures Dropped(FirstLine(e) + e.eol) == |e.prefix| + 6 <==> LongEnough(e) && PrefixIsClear(e)
    ensures Dropped(FirstLine(e) + e.eol) == |e.prefix| + 6 ==> IsHeader(FirstLine(e) + e.eol)
  {
    var p, tail := |e.prefix|, [e.sep] + e.first + e.eol;
    var text := FirstLine(e) + e.eol;
    hide PlainLine, PlainLines;
    assert text == e.prefix + "Query" + tail;
    Middle(e.prefix, "Query", tail);
    assert p == 23 ==> text[9..14] == e.prefix[9..14];
  }

  lemma Middle(a: string, b: string, c: string)
    ensures (a + b + c)[|a|..|a| + |b|] == b
  {
  }

  lemma CapturedText(e: Entry, d: nat)
    ensures |FirstLine(e)| >= |e.prefix| + 6
    ensures d <= |FirstLine(e)| ==> (FirstLine(e)[d..] == e.first <==> d == |e.prefix| + 6)
  {
    assert FirstLine(e)[|e.prefix| + 6..] == e.first;
    if d <= |FirstLine(e)| {
      assert |FirstLine(e)[d..]| == |FirstLine(e)| - d;
    }
  }

  lemma {:induction false} ContinuationItems(ls: seq<Line>)
    requires PlainLines(ls)
    ensures HeaderCount(LinesItems(ls)) == 0 <==> ContinuationsAreClear(ls)
    ensures ContinuationsAreClear(ls) ==> Body(LinesItems(ls)) == Concat(ls)
  {
    if ls != [] {
      StripPrinted(ls[0].text, ls[0].eol);
      ClassifyDrops(ls[0].text + ls[0].eol);
      ContinuationItems(ls[1..]);
      hide Classify, Strip, IsHeader;
      GroupCons(Classify(ls[0].text + ls[0].eol), LinesItems(ls[1..]));
      assert ls[0].text[0..] == ls[0].text;
    }
  }

  /** Line by line, the entry yields its text alone exactly when it is unambiguous. */
  lemma EntryByLines(e: Entry)
    requires Printable(e)
    ensures var items := LineItems(PrintEntry(e));
            && items != []
            && items[0] == Classify(FirstLine(e) + e.eol)
            && (Unambiguous(e) ==> items[0].Header? && HeaderCount(items) == 1)
            && (items[0].Header? && HeaderCount(items) == 1 ==>
                  |Group(items)| == 1 && (Group(items)[0] == Text(e) <==> Unambiguous(e)))
  {
    var item, lines := Classify(FirstLine(e) + e.eol), LinesItems(e.more);
    LineItemsOfEntry(e);
    FirstLineIsHeader(e);
    ContinuationItems(e.more);
    hide PrintEntry, Classify, LinesItems, FirstLine, PrefixIsClear, LongEnough;
    GroupCons(item, lines);
    if HeaderCount(lines) == 0 {
      NoStatements(lines);
      SameHead(item.text, e.first, Concat(e.more));
    }
  }

  lemma SameHead(a: string, b: string, c: string)
    ensures a + c == b + c <==> a == b
  {
    if a + c == b + c {
      assert a == (a + c)[..|a|] && b == (b + c)[..|b|];
    }
  }

  // ----- One printed entry, chunk by chunk -----------------------------------------------------

  lemma {:induction false} LinesAreClean(ls: seq<Line>)
    requires PlainLines(ls)
    ensures Clean(Lines(ls)) && Bare(Lines(ls)) == Concat(ls)
  {
    if ls != [] {
      LinesAreClean(ls[1..]);
      LineIsClean(ls[0].text, ls[0].eol, Lines(ls[1..]));
    }
  }

  lemma LineIsClean(line: string, eol: string, rest: string)
    requires PlainLine(line) && Terminator(eol) && Clean(rest)
    ensures Clean(line + eol + rest) && Bare(line + eol + rest) == line + Bare(rest)
  {
    hide *;
    StripPrinted(line, eol);
    BareChunk(line + eol, line, eol);
    BareAppend(line + eol, rest);
    PlainIsClean(line);
    TerminatorIsClean(eol);
    CleanAppend(line, eol);
    CleanAppend(line + eol, rest);
  }

  lemma TerminatorIsClean(eol: string)
    requires Terminator(eol)
    ensures Clean(eol)
  {
  }

  lemma PlainIsClean(line: string)
    requires PlainLine(line)
    ensures Clean(line)
  {
  }

  lemma CleanAppend(a: string, b: string)
    requires Clean(a) && Clean(b)
    ensures Clean(a + b)
  {
    forall k: nat | k < |a + b| && (a + b)[k] == '\r' ensures k + 1 < |a + b| && (a + b)[k + 1] == '\n' {
      if k < |a| {
        assert a[k] == '\r';
      } else {
        assert b[k - |a|] == '\r';
      }
    }
  }

  lemma EntryIsClean(e: Entry)
    requires Printable(e)
    ensures Clean(PrintEntry(e)) && Bare(PrintEntry(e)) == FirstLine(e) + Concat(e.more)
    ensures EndsLine(PrintEntry(e)) && PrintEntry(e) != ""
    ensures |FirstLine(e) + Concat(e.more)| == |e.prefix| + 6 + |Text(e)|
  {
    FirstLineIsPlain(e);
    LinesAreClean(e.more);
    LineIsClean(FirstLine(e), e.eol, Lines(e.more));
    LinesEndLine(e.more);
  }
  /** The entry's own lines come back, and only they. */
  predicate Good(e: Entry, room: Room) {
    Unambiguous(e) && CutsWell(e, room)
  }

  lemma {:induction false} TextIsBare(ls: seq<Line>, first: string)
    requires PlainLine(first) && PlainLines(ls)
    ensures PlainLine(first + Concat(ls))
    decreases |ls|
  {
    if ls == [] {
      assert first + Concat(ls) == first;
    } else {
      TextIsBare(ls[1..], ls[0].text);
    }
  }

  /** The first chunk holds at least the text before the statement. */
  lemma FirstChunkIsLong(e: Entry, room: Room)
    requires Printable(e)
    ensures var text := PrintEntry(e);
            text != "" && |Bare(text[..Cut(text, room)])| >= |e.prefix| + 6
  {
    var text := PrintEntry(e);
    var line := FirstLine(e) + e.eol;
    var n := Cut(text, room);
    EntryIsClean(e);
    FirstLineIsPlain(e);
    LineLenOfLine(FirstLine(e), e.eol, Lines(e.more));
    var body, end := ChunkForm(text, room);
    BareChunk(text[..n], body, end);
    hide LineLen, Bare, Lines, Clean;
    if n == |line| {
      assert text[..n] == line;
      StripPrinted(FirstLine(e), e.eol);
      BareChunk(line, FirstLine(e), e.eol);
    }
  }

  lemma RestIsShort(e: Entry, room: Room)
    requires Printable(e)
    ensures var text := PrintEntry(e);
            text != "" && |Bare(text[Cut(text, room)..])| <= |Text(e)|
  {
    hide *;
    EntryIsClean(e);
    FirstChunkIsLong(e, room);
    ChunkLength(PrintEntry(e), room);
  }

  lemma EntryCounts(e: Entry, room: Room)
    requires Printable(e)
    ensures var text := PrintEntry(e);
            var items, lines := Items(text, room), LineItems(text);
            && items != [] && lines != []
            && items[0].Header? == lines[0].Header?
            && HeaderCount(items) >= HeaderCount(lines)
            && (HeaderCount(items) == HeaderCount(lines) <==> !SplitHeader(text, true, room))
            && items[1..] == Items(text[Cut(text, room)..], room)
            && HeaderCount(items) == (if items[0].Header? then 1 else 0) + HeaderCount(items[1..])
  {
    hide *;
    var text := PrintEntry(e);
    EntryIsClean(e);
    ChunksAddHeaders(text, true, room);
    FirstItems(text, room);
  }

  lemma FirstItems(input: string, room: Room)
    requires input != []
    ensures var items, lines := Items(input, room), LineItems(input);
            && items != [] && lines != [] && LinesFrom(input, true) == lines
            && items[0].Header? == lines[0].Header?
            && items[1..] == Items(input[Cut(input, room)..], room)
            && HeaderCount(items) == (if items[0].Header? then 1 else 0) + HeaderCount(items[1..])
  {
    hide *;
    SameHeader(input, room);
    ItemSteps(input, room);
    var part, line := CStr(input[..Cut(input, room)]), CStr(input[..LineLen(input)]);
    var after := Items(input[Cut(input, room)..], room);
    SameKind(part, line);
    GroupCons(Classify(part), after);
    assert ([Classify(part)] + after)[1..] == after;
  }

  lemma SameKind(part: string, line: string)
    requires ShortHeader(part) == ShortHeader(line) && LongHeader(part) == LongHeader(line)
    ensures Classify(part).Header? == Classify(line).Header?
  {
  }

  lemma GoodEntryCounts(e: Entry, room: Room)
    requires Printable(e) && Good(e, room)
    ensures var items := Items(PrintEntry(e), room);
            items != [] && items[0].Header? && HeaderCount(items[1..]) == 0
  {
    EntryCounts(e, room);
    EntryByLines(e);
    assert !SplitHeader(PrintEntry(e), true, room) && Unambiguous(e);
  }

  lemma LaterHeaderSpoils(e: Entry, room: Room)
    requires Printable(e)
    ensures var items := Items(PrintEntry(e), room);
            items != [] && (HeaderCount(items[1..]) > 0 ==>
              Group(items[1..]) != [] && Last(Group(items[1..])) != Text(e))
  {
    var text := PrintEntry(e);
    EntryIsClean(e);
    EntryCounts(e, room);
    RestIsShort(e, room);
    TextIsBare(e.more, e.first);
    var rest := text[Cut(text, room)..];
    CleanDrop(text, Cut(text, room));
    hide PrintEntry, Items, Cut, Group, HeaderCount, Clean;
    if HeaderCount(Items(rest, room)) > 0 {
      LastStatementIsShort(rest, room);
    }
  }

  lemma MissedHeaderSpoils(e: Entry, room: Room)
    requires Printable(e)
    ensures var items := Items(PrintEntry(e), room);
            HeaderCount(items) == 0 ==> |Body(items)| > |Text(e)|
  {
    hide *;
    var text := PrintEntry(e);
    EntryIsClean(e);
    if HeaderCount(Items(text, room)) == 0 {
      BareOfContinuations(text, room);
    }
  }

  lemma OneHeaderDecides(e: Entry, room: Room)
    requires Printable(e)
    ensures var items := Items(PrintEntry(e), room);
            items != [] && (items[0].Header? && HeaderCount(items[1..]) == 0 ==>
              |Group(items)| == 1 && (Group(items)[0] == Text(e) <==> Good(e, room)))
  {
    var text := PrintEntry(e);
    var items, lines := Items(text, room), LineItems(text);
    EntryCounts(e, room);
    if items[0].Header? && HeaderCount(items[1..]) == 0 {
      hide PrintEntry, Unambiguous, Items, LineItems, KeepsReturn, SplitHeader, Text, Classify;
      HeadersPositive(lines);
      EntryIsClean(e);
      EntryByLines(e);
      AgreeUpToReturns(text, true, room);
      ReturnsAreKept(text, false, room);
      StatementsHaveNoLineFeed(text, room);
      OneStatementPerHeader(items);
      OnlyStatement(Group(items), Group(lines));
      TextIsPlain(e);
    }
  }

  lemma HeadersPositive(items: seq<Item>)
    requires items != [] && items[0].Header?
    ensures HeaderCount(items) >= 1
  {
  }

  lemma TextIsPlain(e: Entry)
    requires Printable(e)
    ensures PlainLine(Text(e))
  {
    TextIsBare(e.more, e.first);
  }

  lemma OnlyStatement(chunked: seq<string>, whole: seq<string>)
    requires |chunked| == 1 && BareAll(chunked) == whole && !AnyLineFeed(chunked)
    ensures |whole| == 1 && whole[0] == Bare(chunked[0])
    ensures AnyReturn(chunked) <==> '\r' in chunked[0]
    ensures !AnyReturn(chunked) ==> whole[0] == chunked[0]
  {
    assert chunked[1..] == [];
  }

  // ----- The round trip ------------------------------------------------------------------------

  lemma SameSnoc(a: seq<string>, x: string, b: seq<string>, y: string)
    ensures a + [x] == b + [y] <==> a == b && x == y
  {
    assert (a + [x])[..|a|] == a && (b + [y])[..|b|] == b;
    assert a + [x] == b + [y] ==> (a + [x])[|a|] == (b + [y])[|b|];
  }

  /** Whatever precedes it, an entry decides about the last statement. */
  lemma LastEntry(before: seq<Item>, e: Entry, room: Room, texts: seq<string>)
    requires Printable(e)
    ensures Group(before + Items(PrintEntry(e), room)) == texts + [Text(e)] <==>
            Group(before) == texts && Good(e, room)
  {
    hide *;
    var items, text := Items(PrintEntry(e), room), Text(e);
    EntryCounts(e, room);
    SnocIsNonEmpty(texts, text);
    if HeaderCount(items[1..]) > 0 {
      LaterHeaderSpoils(e, room);
      LastOfTail(before + [items[0]], items[1..]);
      First(items);
      AppendFirst(before, items[0], items[1..]);
      if Good(e, room) {
        GoodEntryCounts(e, room);
      }
    } else if items[0].Header? {
      GroupAtHeader(before, items);
      OneHeaderDecides(e, room);
      Single(Group(items));
      SameSnoc(Group(before), Group(items)[0], texts, text);
    } else {
      MissedHeaderSpoils(e, room);
      TailWithoutHeader(before, items);
      if Good(e, room) {
        GoodEntryCounts(e, room);
      }
    }
  }

  lemma SnocIsNonEmpty(a: seq<string>, x: string)
    ensures a + [x] != [] && Last(a + [x]) == x
  {
  }

  lemma AppendFirst(a: seq<Item>, item: Item, b: seq<Item>)
    ensures a + ([item] + b) == a + [item] + b
  {
  }

  lemma Single(list: seq<string>)
    requires |list| == 1
    ensures list == [list[0]]
  {
  }

  lemma NothingPrinted(room: Room)
    ensures Group(Items(Print([]), room)) == Texts([]) && AllGood([], room)
  {
  }

  lemma PrintSteps(es: seq<Entry>)
    requires es != [] && AllPrintable(es)
    ensures var m := |es| - 1;
            && Print(es) == Print(es[..m]) + PrintEntry(es[m])
            && Texts(es) == Texts(es[..m]) + [Text(es[m])]
            && Printable(es[m]) && AllPrintable(es[..m])
  {
    hide PrintEntry, Printable, Text;
  }

  lemma AllGoodSteps(es: seq<Entry>, room: Room)
    requires es != []
    ensures AllGood(es, room) <==> AllGood(es[..|es| - 1], room) && Good(es[|es| - 1], room)
  {
    hide Good;
    var m := |es| - 1;
    assert forall i: nat | i < m :: es[..m][i] == es[i];
    if AllGood(es[..m], room) && Good(es[m], room) {
      forall i | 0 <= i < |es| ensures Good(es[i], room) {
        if i < m {
          assert Good(es[..m][i], room);
        }
      }
    }
  }

  ghost predicate AllGood(es: seq<Entry>, room: Room) {
    forall i | 0 <= i < |es| :: Good(es[i], room)
  }

  /** Reading a printed log with any room gives back exactly the printed statements, line breaks removed, if and
      only if every entry by itself is unambiguous and cuts well. */
  lemma {:induction false} RoundTrip(es: seq<Entry>, room: Room)
    requires AllPrintable(es)
    ensures Group(Items(Print(es), room)) == Texts(es) <==> AllGood(es, room)
    decreases |es|
  {
    hide *;
    if es == [] {
      NothingPrinted(room);
    } else {
      var m := |es| - 1;
      var before, e := es[..m], es[m];
      PrintSteps(es);
      AllGoodSteps(es, room);
      RoundTrip(before, room);
      PrintEndsLine(before);
      ItemsAppend(Print(before), PrintEntry(e), room);
      LastEntry(Items(Print(before), room), e, room, Texts(before));
    }
  }
  // ----- Lines that fit, and the program itself ------------------------------------------------

  /** Nothing is cut in lines that fit. */
  lemma {:induction false} FittingLinesCutWell(log: string, open: bool, room: Room)
    requires Clean(log) && LinesFit(log, room)
    ensures !SplitHeader(log, true, room) && !KeepsReturn(log, open, room)
    decreases |log|
  {
    if log != [] {
      var n := Cut(log, room);
      CleanDrop(log, n);
      FittingLinesCutWell(log[n..], open || IsHeader(CStr(log[..n])), room);
      var body, end := ChunkForm(log, room);
      hide LineLen, CStr, IsHeader, Clean;
      EndOfChunk(log[..n], body, end);
      assert log[n - 1] == log[..n][n - 1];
    }
  }

  lemma {:induction false} ShortTextFits(s: string, room: Room)
    requires |s| <= room
    ensures LinesFit(s, room)
    decreases |s|
  {
    if s != [] {
      ShortTextFits(s[LineLen(s)..], room);
    }
  }

  lemma {:induction false} EntriesAreShorter(es: seq<Entry>, i: nat)
    requires i < |es|
    ensures |PrintEntry(es[i])| <= |Print(es)|
    decreases |es|
  {
    hide PrintEntry;
    if i < |es| - 1 {
      EntriesAreShorter(es[..|es| - 1], i);
    }
  }

  ghost predicate AllUnambiguous(es: seq<Entry>) {
    forall i | 0 <= i < |es| :: Unambiguous(es[i])
  }

  /** Without any limit on lines only ambiguity matters. */
  lemma PrintParseRoundTrip(es: seq<Entry>)
    requires AllPrintable(es)
    ensures Group(LineItems(Print(es))) == Texts(es) <==> AllUnambiguous(es)
  {
    var log := Print(es);
    var room: Room := |log| + 34;
    ShortTextFits(log, room);
    FittingLinesAreReadWhole(log, room);
    RoundTrip(es, room);
    hide Print, PrintEntry, Unambiguous, Printable, SplitHeader, KeepsReturn, LinesFit, Clean, Terminator;
    forall i | 0 <= i < |es| ensures CutsWell(es[i], room) {
      var text := PrintEntry(es[i]);
      EntryIsClean(es[i]);
      EntriesAreShorter(es, i);
      ShortTextFits(text, room);
      FittingLinesCutWell(text, false, room);
    }
    assert AllGood(es, room) <==> AllUnambiguous(es);
  }

  /** The same for the program's buffered loop when the printed lines fit the buffer. */
  lemma FittingReplayRoundTrip(es: seq<Entry>)
    requires AllPrintable(es) && LinesFit(Print(es), ROOM)
    ensures Statements(Print(es)) == Texts(es) <==> AllUnambiguous(es)
  {
    FittingLinesAreReadWhole(Print(es), ROOM);
    PrintParseRoundTrip(es);
  }

  /** For lines of any length: no later chunk may look like a header, and none may end between CR and LF. */
  lemma ReplayRoundTrip(es: seq<Entry>)
    requires AllPrintable(es)
    ensures Statements(Print(es)) == Texts(es) <==> AllGood(es, ROOM)
  {
    RoundTrip(es, ROOM);
  }
  // ----- Each condition fails on some log ------------------------------------------------------

  function Filler(n: nat): (s: string)
    ensures |s| == n && PlainLine(s)
    ensures n >= 34 ==> s[9] == 'x' && s[23] == 'x'
  {
    seq(n, i => 'x')
  }

  const SELECT: Entry := Entry("123456789", ' ', "SELECT 1", "\n", [])

  lemma FillerIsNoHeader(n: nat, rest: string)
    requires n >= 34
    ensures !IsHeader(Filler(n) + rest)
  {
    var s := Filler(n) + rest;
    assert s[9..14][0] == s[9] == 'x' && s[23..28][0] == s[23] == 'x';
  }

  /** A line that is no header becomes a statement when a chunk of it begins like one. */
  lemma SplitHeaderHappens(e: Entry, room: Room)
    requires Printable(e) && e.more == [] && Unambiguous(e) && |PrintEntry(e)| <= room
    ensures var log := Filler(room) + PrintEntry(e);
            && Group(LineItems(log)) == [] && Group(Items(log, room)) == [Text(e)]
            && SplitHeader(log, true, room)
  {
    var x, last := Filler(room), PrintEntry(e);
    var log := x + last;
    assert last == FirstLine(e) + e.eol && log == x + FirstLine(e) + e.eol + "";
    FirstLineIsPlain(e);
    hide FirstLine, LineLen, LineItems, Items, CStr, Group, SplitHeader, IsHeader, PlainLines, Text, Clean, Unambiguous;
    JoinedLineIsPlain(x, FirstLine(e));
    LineItemsOfLine(x + FirstLine(e), e.eol, "");
    LineLenOfLine(x + FirstLine(e), e.eol, "");
    FillerIsNoHeader(room, FirstLine(e) + e.eol);
    FillerIsNoHeader(room, "");
    assert x + "" == x && x + (FirstLine(e) + e.eol) == x + FirstLine(e) + e.eol;
    NothingLeft(room);
    GroupCons(Classify(log), []);
    ClassifyDrops(log);
    assert log[..room] == x && log[room..] == last;
    CStrUnique(x, room);
    assert x[..room] == x;
    ItemSteps(log, room);
    ClassifyDrops(x);
    GroupCons(Classify(x), Items(last, room));
    SingleEntry(e, room);
    ChunkingKeepsCount(log, room);
  }

  lemma JoinedLineIsPlain(a: string, b: string)
    requires PlainLine(a) && PlainLine(b)
    ensures PlainLine(a + b)
  {
  }

  lemma SingleEntry(e: Entry, room: Room)
    requires Printable(e) && Unambiguous(e) && |PrintEntry(e)| <= room
    ensures Group(Items(PrintEntry(e), room)) == [Text(e)]
  {
    var text := PrintEntry(e);
    EntryIsClean(e);
    ShortTextFits(text, room);
    FittingLinesCutWell(text, false, room);
    hide PrintEntry, Printable, Unambiguous, Items, Text;
    NothingLeft(room);
    LastEntry([], e, room, []);
    assert [] + Items(text, room) == Items(text, room);
  }

  lemma ShortLayoutIsHeader(e: Entry, tail: string)
    requires |e.prefix| == 9 && |FirstLine(e) + tail| >= 20
    ensures IsHeader(FirstLine(e) + tail)
  {
    var rest := [e.sep] + e.first + tail;
    assert FirstLine(e) + tail == e.prefix + "Query" + rest;
    Middle(e.prefix, "Query", rest);
  }

  /** The cut line: all of it but the line feed. */
  lemma CutBeforeFeed(line: string, room: Room)
    requires PlainLine(line) && |line| == room - 1
    ensures var text := line + "\r\n";
            Cut(text, room) == room && text[..room] == line + "\r" && CStr(text[..room]) == line + "\r"
  {
    var text, c := line + "\r\n", line + "\r";
    assert text == line + "\r\n" + "";
    LineLenOfLine(line, "\r\n", "");
    assert text[..room] == c;
    CStrUnique(c, room);
    assert c[..room] == c;
  }

  /** A statement whose line ends one byte past the buffer comes back with a '\r' at its end. */
  lemma KeptReturnHappens(room: Room)
    ensures var e := Entry("123456789", ' ', Filler(room - 16), "\r\n", []);
            Printable(e) && Unambiguous(e) && KeepsReturn(PrintEntry(e), false, room)
  {
    var e := Entry("123456789", ' ', Filler(room - 16), "\r\n", []);
    var text := FirstLine(e) + "\r\n";
    assert text + "" == text;
    FirstLineIsPlain(e);
    hide Filler, CStr, Cut, LineLen, IsHeader;
    assert |FirstLine(e)| == room - 1;
    hide FirstLine;
    CutBeforeFeed(FirstLine(e), room);
    ShortLayoutIsHeader(e, "\r");
    assert text[room - 1] == text[..room][room - 1] == '\r';
    assert PrintEntry(e) == text;
    hide PrintEntry, Unambiguous;
    KeepsReturnSteps(text, false, room);
  }

  /** A statement that begins with a line break is lost: its 16-byte header line is not recognised. */
  lemma ShortFirstLineHappens()
    ensures var es := [SELECT, Entry("123456789", ' ', "", "\n", [Line("SELECT 2", "\n")])];
            AllPrintable(es) && Statements(Print(es)) != Texts(es)
  {
    var es := [SELECT, Entry("123456789", ' ', "", "\n", [Line("SELECT 2", "\n")])];
    hide Print, PrintEntry, Statements, Texts, IsHeader, ContinuationsAreClear, SplitHeader, KeepsReturn;
    assert Printable(es[0]) && Printable(es[1]);
    assert !LongEnough(es[1]);
    hide Printable, LongEnough;
    assert !Good(es[1], ROOM);
    hide Good;
    ReplayRoundTrip(es);
  }

  /** The program's buffer cuts such a line. */
  lemma SplitHeaderExample()
    ensures SplitHeader(Filler(ROOM) + PrintEntry(SELECT), true, ROOM)
  {
    assert Printable(SELECT) && Unambiguous(SELECT);
    assert |PrintEntry(SELECT)| == 24;
    hide *;
    SplitHeaderHappens(SELECT, ROOM);
  }
}
