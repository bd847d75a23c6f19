/** Reading a log in bounded chunks against reading it line by line. */
module LogFormat {
  import opened CStrings
  import opened GeneralLog
  import opened Sequences

  // ----- Reading without limit -----------------------------------------------------------------

  /** The items a reader without any limit would produce. */
  function LineItems(input: string): seq<Item> {
    if input == [] then []
    else [Classify(CStr(input[..LineLen(input)]))] + LineItems(input[LineLen(input)..])
  }

  predicate LinesFit(log: string, room: Room)
    decreases |log|
  {
    log == [] || (LineLen(log) <= room && LinesFit(log[LineLen(log)..], room))
  }

  /** Lines that fit the buffer are read whole, whatever characters they hold. */
  lemma {:induction false} FittingLinesAreReadWhole(log: string, room: Room)
    requires LinesFit(log, room)
    ensures Items(log, room) == LineItems(log)
    decreases |log|
  {
    if log != [] {
      FittingLinesAreReadWhole(log[LineLen(log)..], room);
    }
  }

  /** Some chunk that does not begin a line passes one of the two header tests. */
  predicate SplitHeader(input: string, atLineStart: bool, room: Room)
    decreases |input|
  {
    input != [] &&
    var n := Cut(input, room);
    ((!atLineStart && IsHeader(CStr(input[..n]))) || SplitHeader(input[n..], n == LineLen(input), room))
  }

  // ----- Counting headers, for every log -------------------------------------------------------

  lemma LineLenUnique(input: string, n: nat)
    requires n <= |input| && (input != [] ==> 0 < n)
    requires forall k | 0 <= k < n - 1 :: input[k] != '\n'
    requires n < |input| ==> input[n - 1] == '\n'
    ensures LineLen(input) == n
  {
  }

  /** What is left of a line after a chunk that stops short of its end. */
  lemma RestOfLine(input: string, n: nat)
    requires n < LineLen(input)
    ensures LineLen(input[n..]) == LineLen(input) - n
    ensures input[n..][LineLen(input) - n..] == input[LineLen(input)..]
    ensures input[..LineLen(input)] == input[..n] + input[n..][..LineLen(input) - n]
  {
    var len := LineLen(input);
    LineBehind(input, n);
    hide LineLen;
    SplitSlices(input, n, len);
  }

  lemma {:induction false} LineBehind(input: string, n: nat)
    requires n < LineLen(input)
    ensures LineLen(input[n..]) == LineLen(input) - n
    decreases n
  {
    if n == 0 {
      assert input[0..] == input;
    } else {
      LineBehind(input[1..], n - 1);
      assert input[1..][n - 1..] == input[n..];
    }
  }

  lemma SplitSlices(s: string, n: nat, len: nat)
    requires n <= len <= |s|
    ensures s[n..][len - n..] == s[len..] && s[..len] == s[..n] + s[n..][..len - n]
  {
  }

  lemma CStrOfJoin(a: string, b: string)
    ensures CStr(a + b) == if '\0' in a then CStr(a) else a + CStr(b)
  {
    if '\0' in a {
      assert (a + b)[..|CStr(a)|] == CStr(a);
      CStrUnique(a + b, |CStr(a)|);
    } else {
      assert (a + b)[..|a| + |CStr(b)|] == a + CStr(b);
      CStrUnique(a + b, |a| + |CStr(b)|);
    }
  }

  lemma HeaderSplit(a: string, b: string)
    requires |a| >= 34
    ensures ShortHeader(a + b) == ShortHeader(a) && LongHeader(a + b) == LongHeader(a)
  {
    assert (a + b)[9..14] == a[9..14] && (a + b)[23..28] == a[23..28];
  }

  lemma SameHeaderJoin(a: string, b: string)
    requires |a| >= 34
    ensures ShortHeader(CStr(a + b)) == ShortHeader(CStr(a)) && LongHeader(CStr(a + b)) == LongHeader(CStr(a))
  {
    CStrOfJoin(a, b);
    if '\0' !in a {
      CStrUnique(a, |a|);
      HeaderSplit(a, CStr(b));
    }
  }

  /** A line is a header exactly when its first chunk is, and in the same layout. */
  lemma SameHeader(input: string, room: Room)
    requires input != []
    ensures var part, line := CStr(input[..Cut(input, room)]), CStr(input[..LineLen(input)]);
            ShortHeader(part) == ShortHeader(line) && LongHeader(part) == LongHeader(line)
  {
    hide *;
    var n, len := Cut(input, room), LineLen(input);
    if n < len {
      RestOfLine(input, n);
      SameHeaderJoin(input[..n], input[n..][..len - n]);
    }
  }

  lemma GroupCons(item: Item, items: seq<Item>)
    ensures Group([item] + items) == if item.Header? then [item.text + Body(items)] + Group(items) else Group(items)
    ensures Body([item] + items) == if item.Header? then "" else item.text + Body(items)
    ensures HeaderCount([item] + items) == (if item.Header? then 1 else 0) + HeaderCount(items)
  {
  }

  lemma HeadersOfChunk(input: string, room: Room)
    requires input != []
    ensures var n, len := Cut(input, room), LineLen(input);
            var header := if IsHeader(CStr(input[..n])) then 1 else 0;
            && HeaderCount(Items(input, room)) == header + HeaderCount(Items(input[n..], room))
            && HeaderCount(LineItems(input)) == header + HeaderCount(LineItems(input[len..]))
  {
    var n, len := Cut(input, room), LineLen(input);
    SameHeader(input, room);
    CapturedIsNonEmpty(CStr(input[..n]));
    CapturedIsNonEmpty(CStr(input[..len]));
    hide Classify, LineLen, Cut, CStr, Group, Body, ShortHeader, LongHeader;
    GroupCons(Classify(CStr(input[..n])), Items(input[n..], room));
    GroupCons(Classify(CStr(input[..len])), LineItems(input[len..]));
  }

  /** The items of the lines that begin in `input`. */
  function LinesFrom(input: string, atLineStart: bool): seq<Item> {
    LineItems(if atLineStart then input else input[LineLen(input)..])
  }

  /** Chunked reading never finds fewer headers, and finds as many exactly when no later chunk looks like one. */
  lemma {:induction false} ChunksAddHeaders(input: string, atLineStart: bool, room: Room)
    ensures HeaderCount(Items(input, room)) >= HeaderCount(LinesFrom(input, atLineStart))
    ensures HeaderCount(Items(input, room)) == HeaderCount(LinesFrom(input, atLineStart)) <==>
            !SplitHeader(input, atLineStart, room)
    decreases |input|
  {
    hide *;
    if input == [] {
      NothingLeft(room);
    } else {
      var n, len := Cut(input, room), LineLen(input);
      HeadersOfChunk(input, room);
      SplitHeaderStep(input, atLineStart, room);
      AfterChunk(input, room);
      ItemSteps(input, room);
      ChunksAddHeaders(input[n..], n == len, room);
    }
  }

  // ----- Text without line breaks --------------------------------------------------------------

  /** `s` without its '\r' and '\n'. */
  function Bare(s: string): (t: string)
    ensures |t| <= |s|
    ensures '\r' !in t && '\n' !in t
    ensures '\r' !in s && '\n' !in s ==> t == s
  {
    if s == [] then []
    else if s[0] == '\r' || s[0] == '\n' then Bare(s[1..])
    else [s[0]] + Bare(s[1..])
  }

  lemma {:induction false} BareAppend(a: string, b: string)
    ensures Bare(a + b) == Bare(a) + Bare(b)
  {
    if a == [] {
      assert a + b == b;
    } else {
      assert (a + b)[1..] == a[1..] + b;
      BareAppend(a[1..], b);
    }
  }

  function BareAll(list: seq<string>): (r: seq<string>)
    ensures |r| == |list|
  {
    if list == [] then [] else [Bare(list[0])] + BareAll(list[1..])
  }

  /** No NUL, and '\r' only in CR LF pairs. */
  predicate Clean(s: string) {
    && '\0' !in s
    && forall k | 0 <= k < |s| && s[k] == '\r' :: k + 1 < |s| && s[k + 1] == '\n'
  }

  lemma CleanDrop(s: string, n: nat)
    requires Clean(s) && n <= |s|
    ensures Clean(s[n..]) && '\0' !in s[..n]
  {
    assert forall k | 0 <= k < |s| - n :: s[n..][k] == s[n + k];
  }

  /** A chunk of a clean log: text without breaks, then what is there of the line end. */
  ghost predicate IsChunk(c: string, body: string, end: string) {
    && c == body + end && '\r' !in body && '\n' !in body && '\0' !in body
    && (end == "" || end == "\r" || end == "\n" || end == "\r\n")
  }

  /** Breaks stand at the end only. */
  predicate BreaksAtEnd(c: string) {
    && '\0' !in c
    && (forall k: nat | k + 1 < |c| :: c[k] != '\n')
    && (forall k: nat | k + 2 < |c| :: c[k] != '\r')
    && (|c| >= 2 && c[|c| - 2] == '\r' ==> c[|c| - 1] == '\n')
  }

  lemma SplitBreak(c: string) returns (body: string, end: string)
    requires BreaksAtEnd(c)
    ensures IsChunk(c, body, end)
  {
    var n := |c|;
    if n >= 1 && c[n - 1] == '\r' {
      body, end := c[..n - 1], "\r";
    } else if n >= 2 && c[n - 2] == '\r' {
      body, end := c[..n - 2], "\r\n";
    } else if n >= 1 && c[n - 1] == '\n' {
      body, end := c[..n - 1], "\n";
    } else {
      body, end := c, "";
    }
  }

  lemma EndOfChunk(c: string, body: string, end: string)
    requires IsChunk(c, body, end) && c != ""
    ensures end == "\r" <==> c[|c| - 1] == '\r'
    ensures c[|c| - 1] != '\n' ==> end == "" || end == "\r"
  {
    assert end == "" ==> c[|c| - 1] in body;
  }

  /** Only a cut chunk can end between CR and LF. */
  lemma ChunkForm(input: string, room: Room) returns (body: string, end: string)
    requires Clean(input) && input != []
    ensures IsChunk(input[..Cut(input, room)], body, end)
    ensures end == "\r" ==> Cut(input, room) < LineLen(input)
    ensures Cut(input, room) < LineLen(input) ==> end == "" || end == "\r"
  {
    var n := Cut(input, room);
    var c := input[..n];
    hide Cut, LineLen, IsChunk;
    assert forall k: nat | k < n :: c[k] == input[k];
    assert c[n - 1] == '\r' ==> n < |input| && input[n] == '\n';
    forall k: nat | k + 2 < n ensures c[k] != '\r' {
      assert input[k + 1] != '\n';
    }
    body, end := SplitBreak(c);
    EndOfChunk(c, body, end);
  }

  lemma LineForm(input: string) returns (body: string, end: string)
    requires Clean(input) && input != []
    ensures IsChunk(input[..LineLen(input)], body, end) && end != "\r"
  {
    body, end := ChunkForm(input, |input| + 34);
  }

  lemma StripChunk(c: string, body: string, end: string)
    requires IsChunk(c, body, end)
    ensures Strip(c) == if end == "\r" then body + "\r" else body
  {
    if end == "\r\n" {
      StripBoth(body);
    } else if end == "\n" {
      StripFeed(body);
    } else if end == "\r" {
      StripReturn(body);
    } else {
      assert c == body;
      StripNothing(body);
    }
  }

  predicate NoBreaks(s: string) {
    '\r' !in s && '\n' !in s
  }

  lemma StripNothing(body: string)
    requires NoBreaks(body)
    ensures Strip(body) == body
  {
  }

  lemma StripFeed(body: string)
    requires NoBreaks(body)
    ensures Strip(body + "\n") == body
  {
    var c := body + "\n";
    assert c[|body|] == '\n' && c[..|body|] == body;
    assert body != "" ==> c[|body| - 1] == body[|body| - 1] && body[|body| - 1] in body;
  }

  lemma StripReturn(body: string)
    requires NoBreaks(body)
    ensures Strip(body + "\r") == body + "\r"
  {
    var c := body + "\r";
    assert c[|body|] == '\r';
    assert body != "" ==> c[|body| - 1] == body[|body| - 1] && body[|body| - 1] in body;
  }

  lemma StripBoth(body: string)
    ensures Strip(body + "\r\n") == body
  {
    var c := body + "\r\n";
    assert c[|body|] == '\r' && c[..|body|] == body;
  }

  lemma BareChunk(c: string, body: string, end: string)
    requires IsChunk(c, body, end)
    ensures Bare(c) == body && CStr(c) == c
  {
    hide CStr;
    BareAppend(body, end);
    assert Bare("\r") == "" && Bare("\n") == "";
    assert Bare("\r\n") == Bare("\n");
    CStrUnique(c, |c|);
  }

  /** How much of a line the header test it passes cuts off. */
  function Dropped(text: string): nat
  {
    if ShortHeader(text) then 15 else if LongHeader(text) then 29 else 0
  }

  lemma ClassifyDrops(text: string)
    ensures Dropped(text) <= |Strip(text)|
    ensures Classify(text).text == Strip(text)[Dropped(text)..]
    ensures Classify(text).Header? == IsHeader(text)
    ensures IsHeader(text) <==> Dropped(text) >= 15
  {
  }

  /** A chunk contributes its text without breaks, less what the header test drops. */
  lemma ChunkText(c: string, body: string, end: string)
    requires IsChunk(c, body, end)
    ensures Dropped(c) <= |body|
    ensures Bare(Classify(c).text) == body[Dropped(c)..]
    ensures '\r' in Classify(c).text <==> end == "\r"
    ensures end != "\r" ==> Classify(c).text == body[Dropped(c)..]
  {
    StripChunk(c, body, end);
    ClassifyDrops(c);
    EnoughBody(c, body, end);
    hide *;
    var d := Dropped(c);
    if end == "\r" {
      ReturnAtEnd(body, d);
    }
  }

  lemma EnoughBody(c: string, body: string, end: string)
    requires IsChunk(c, body, end)
    ensures Dropped(c) <= |body|
  {
  }

  lemma ReturnAtEnd(body: string, d: nat)
    requires d <= |body| && '\r' !in body && '\n' !in body
    ensures Bare((body + "\r")[d..]) == body[d..]
    ensures '\r' in (body + "\r")[d..]
  {
    assert (body + "\r")[d..] == body[d..] + "\r";
    BareAppend(body[d..], "\r");
    assert Bare("\r") == "";
    assert (body[d..] + "\r")[|body| - d] == '\r';
  }

  // ----- Chunks and lines agree up to kept returns ---------------------------------------------

  lemma DropFront(a: string, s: string, k: nat)
    requires k <= |a|
    ensures (a + s)[k..] == a[k..] + s
  {
  }

  /** The item of a chunk and of its line, in terms of their bare text. */
  lemma ItemOfChunk(input: string, room: Room)
    requires Clean(input) && input != []
    ensures var n, len := Cut(input, room), LineLen(input);
            ItemsMatch(input[..n], input[n..][..len - n])
  {
    hide *;
    var n, len := Cut(input, room), LineLen(input);
    var c, rest := input[..n], input[n..][..len - n];
    SplitSlices(input, n, len);
    SameHeader(input, room);
    var body, end := ChunkForm(input, room);
    var lineBody, lineEnd := LineForm(input);
    BareChunk(c, body, end);
    BareChunk(c + rest, lineBody, lineEnd);
    ItemOfPart(c, rest, body, end, lineBody, lineEnd);
  }

  /** `c` begins the line `c + rest`: same kind of item, and the same text up to breaks. */
  ghost predicate ItemsMatch(c: string, rest: string) {
    var part, whole := Classify(CStr(c)), Classify(CStr(c + rest));
    && c != ""
    && part.Header? == whole.Header? == IsHeader(CStr(c))
    && whole.text == Bare(part.text) + Bare(rest)
    && (!part.Header? ==> Bare(part.text) == Bare(c))
    && (part.Header? ==> |Bare(part.text)| < |Bare(c)|)
    && ('\r' in part.text <==> c[|c| - 1] == '\r')
  }

  lemma ItemOfPart(c: string, rest: string, body: string, end: string, lineBody: string, lineEnd: string)
    requires c != "" && IsChunk(c, body, end) && IsChunk(c + rest, lineBody, lineEnd) && lineEnd != "\r"
    requires ShortHeader(c) == ShortHeader(c + rest) && LongHeader(c) == LongHeader(c + rest)
    ensures ItemsMatch(c, rest)
  {
    var line := c + rest;
    BareChunk(c, body, end);
    BareChunk(line, lineBody, lineEnd);
    ChunkText(c, body, end);
    ChunkText(line, lineBody, lineEnd);
    ClassifyDrops(c);
    ClassifyDrops(line);
    SameDrop(c, line);
    hide ShortHeader, LongHeader, IsHeader, Classify, CStr, Bare, Dropped;
    BareAppend(c, rest);
    DropFront(body, Bare(rest), Dropped(c));
    EndOfChunk(c, body, end);
  }

  lemma SameDrop(a: string, b: string)
    requires ShortHeader(a) == ShortHeader(b) && LongHeader(a) == LongHeader(b)
    ensures Dropped(a) == Dropped(b)
  {
  }

  lemma BareOfJoined(part: Item, items: seq<Item>)
    ensures Bare(part.text + Body(items)) == Bare(part.text) + Bare(Body(items))
    ensures Bare(Body([part] + items)) == if part.Header? then "" else Bare(part.text) + Bare(Body(items))
    ensures BareAll(Group([part] + items)) ==
            if part.Header? then [Bare(part.text) + Bare(Body(items))] + BareAll(Group(items))
            else BareAll(Group(items))
  {
    BareAppend(part.text, Body(items));
    GroupCons(part, items);
  }

  /** Text of the current line still to come; nothing at a line start. */
  function RestOfCurrent(input: string, atLineStart: bool): string {
    if atLineStart then "" else input[..LineLen(input)]
  }

  /** When no later chunk looks like a header, chunked reading gives the text of the lines, up to '\r' kept where a
      chunk ended between CR and LF. */
  lemma {:induction false} AgreeUpToReturns(input: string, atLineStart: bool, room: Room)
    requires Clean(input) && !SplitHeader(input, atLineStart, room)
    ensures var lines := LinesFrom(input, atLineStart);
            && BareAll(Group(Items(input, room))) == Group(lines)
            && Bare(Body(Items(input, room))) == Bare(RestOfCurrent(input, atLineStart)) + Body(lines)
    decreases |input|
  {
    hide *;
    BareEmpty();
    if input == [] {
      NothingLeft(room);
    } else {
      var n, len := Cut(input, room), LineLen(input);
      CleanDrop(input, n);
      SplitHeaderStep(input, atLineStart, room);
      AgreeUpToReturns(input[n..], n == len, room);
      ItemOfChunk(input, room);
      AfterChunk(input, room);
      ItemSteps(input, room);
      JoinAgree(input[..n], input[n..][..len - n], Items(input[n..], room), LineItems(input[len..]), atLineStart);
    }
  }

  lemma SplitHeaderStep(input: string, atLineStart: bool, room: Room)
    requires input != []
    ensures var n := Cut(input, room);
            SplitHeader(input, atLineStart, room) <==>
            (!atLineStart && IsHeader(CStr(input[..n]))) || SplitHeader(input[n..], n == LineLen(input), room)
  {
  }

  lemma NothingLeft(room: Room)
    ensures Items("", room) == [] && Group([]) == [] && Body([]) == "" && BareAll([]) == [] && Bare("") == ""
    ensures forall b :: LinesFrom("", b) == [] && RestOfCurrent("", b) == "" && !SplitHeader("", b, room)
    ensures HeaderCount([]) == 0
  {
  }

  lemma ItemSteps(input: string, room: Room)
    requires input != []
    ensures var n, len := Cut(input, room), LineLen(input);
            && Items(input, room) == [Classify(CStr(input[..n]))] + Items(input[n..], room)
            && LineItems(input) == [Classify(CStr(input[..len]))] + LineItems(input[len..])
            && LinesFrom(input, true) == LineItems(input) && LinesFrom(input, false) == LineItems(input[len..])
            && RestOfCurrent(input, true) == "" && RestOfCurrent(input, false) == input[..len]
  {
  }

  lemma AfterChunk(input: string, room: Room)
    requires input != []
    ensures var n, len := Cut(input, room), LineLen(input);
            && input[..len] == input[..n] + input[n..][..len - n]
            && LinesFrom(input[n..], n == len) == LineItems(input[len..])
            && RestOfCurrent(input[n..], n == len) == input[n..][..len - n]
  {
    var n, len := Cut(input, room), LineLen(input);
    hide LineItems, Cut;
    if n < len {
      RestOfLine(input, n);
    } else {
      assert input[n..][..0] == "";
    }
  }

  lemma JoinAgree(head: string, tail: string, items: seq<Item>, lines: seq<Item>, atLineStart: bool)
    requires ItemsMatch(head, tail) && (atLineStart || !IsHeader(CStr(head)))
    requires BareAll(Group(items)) == Group(lines) && Bare(Body(items)) == Bare(tail) + Body(lines)
    ensures var part, whole := Classify(CStr(head)), Classify(CStr(head + tail));
            && (atLineStart ==> BareAll(Group([part] + items)) == Group([whole] + lines)
                                && Bare(Body([part] + items)) == Body([whole] + lines))
            && (!atLineStart ==> BareAll(Group([part] + items)) == Group(lines)
                                 && Bare(Body([part] + items)) == Bare(head + tail) + Body(lines))
  {
    var part, whole := Classify(CStr(head)), Classify(CStr(head + tail));
    hide Bare, BareAll, Group, Body, Classify, CStr, IsHeader;
    BareOfJoined(part, items);
    GroupCons(whole, lines);
    Associative(Bare(part.text), Bare(tail), Body(lines));
    BareAppend(head, tail);
  }

  lemma BareEmpty()
    ensures Bare("") == "" && forall s: string :: "" + s == s
  {
  }
  // ----- Which returns are kept ----------------------------------------------------------------

  /** Some chunk ends between CR and LF while a statement is open, or opens one. */
  predicate KeepsReturn(input: string, open: bool, room: Room)
    decreases |input|
  {
    input != [] &&
    var n := Cut(input, room);
    var now := open || IsHeader(CStr(input[..n]));
    (now && input[n - 1] == '\r') || KeepsReturn(input[n..], now, room)
  }

  predicate AnyReturn(list: seq<string>) {
    list != [] && ('\r' in list[0] || AnyReturn(list[1..]))
  }

  /** Exactly those returns show up in the statements. */
  lemma {:induction false} ReturnsAreKept(input: string, open: bool, room: Room)
    requires Clean(input)
    ensures KeepsReturn(input, open, room) <==>
            AnyReturn(Group(Items(input, room))) || (open && '\r' in Body(Items(input, room)))
    decreases |input|
  {
    hide *;
    KeepsReturnSteps(input, open, room);
    if input == [] {
      NothingLeft(room);
      NoReturns();
    } else {
      var n := Cut(input, room);
      ChunkItem(input, room);
      CleanDrop(input, n);
      ReturnsAreKept(input[n..], open || IsHeader(CStr(input[..n])), room);
      ItemSteps(input, room);
      ReturnsJoin(Classify(CStr(input[..n])), Items(input[n..], room), open);
    }
  }

  lemma KeepsReturnSteps(input: string, open: bool, room: Room)
    ensures input == [] ==> !KeepsReturn(input, open, room)
    ensures input != [] ==>
              var n := Cut(input, room);
              var now := open || IsHeader(CStr(input[..n]));
              KeepsReturn(input, open, room) <==> (now && input[n - 1] == '\r') || KeepsReturn(input[n..], now, room)
  {
  }

  lemma NoReturns()
    ensures !AnyReturn([])
  {
  }

  lemma ChunkItem(input: string, room: Room)
    requires Clean(input) && input != []
    ensures var n := Cut(input, room);
            var part := Classify(CStr(input[..n]));
            part.Header? == IsHeader(CStr(input[..n])) && ('\r' in part.text <==> input[n - 1] == '\r')
  {
    hide *;
    var n, len := Cut(input, room), LineLen(input);
    ItemOfChunk(input, room);
    MatchEnds(input[..n], input[n..][..len - n]);
    assert input[n - 1] == input[..n][n - 1];
  }

  lemma MatchEnds(c: string, rest: string)
    requires ItemsMatch(c, rest)
    ensures c != "" && Classify(CStr(c)).Header? == IsHeader(CStr(c))
    ensures '\r' in Classify(CStr(c)).text <==> c[|c| - 1] == '\r'
  {
    hide Classify, CStr, IsHeader, Bare;
  }

  lemma ReturnsJoin(item: Item, items: seq<Item>, open: bool)
    ensures var now := open || item.Header?;
            AnyReturn(Group([item] + items)) || (open && '\r' in Body([item] + items)) <==>
            (now && '\r' in item.text) || AnyReturn(Group(items)) || (now && '\r' in Body(items))
  {
    GroupCons(item, items);
    hide Group, Body;
    if item.Header? {
      AnyReturnCons(item.text + Body(items), Group(items));
    }
  }

  lemma AnyReturnCons(s: string, list: seq<string>)
    ensures AnyReturn([s] + list) <==> '\r' in s || AnyReturn(list)
  {
  }

  predicate AnyLineFeed(list: seq<string>) {
    list != [] && ('\n' in list[0] || AnyLineFeed(list[1..]))
  }

  lemma NoFeedInItem(text: string)
    requires forall k: nat | k + 1 < |text| :: text[k] != '\n'
    ensures '\n' !in Classify(text).text
  {
    ClassifyDrops(text);
    StripIsPrefix(text);
    var s := Strip(text);
    hide Classify, Dropped, IsHeader;
    assert forall k: nat | k < |s| :: s[k] == text[k] && s[k] != '\n';
  }

  lemma ChunkHasOneFeed(input: string, room: Room)
    requires input != []
    ensures '\n' !in Classify(CStr(input[..Cut(input, room)])).text
  {
    var c := input[..Cut(input, room)];
    var t := CStr(c);
    hide Classify, CStr;
    assert forall k: nat | k < |t| :: t[k] == c[k] == input[k];
    NoFeedInItem(t);
  }

  /** No statement of any log holds a line feed. */
  lemma {:induction false} StatementsHaveNoLineFeed(log: string, room: Room)
    ensures !AnyLineFeed(Group(Items(log, room))) && '\n' !in Body(Items(log, room))
    decreases |log|
  {
    if log != [] {
      var n := Cut(log, room);
      ChunkHasOneFeed(log, room);
      StatementsHaveNoLineFeed(log[n..], room);
      ItemSteps(log, room);
      hide Cut, CStr, Classify, Items;
      GroupCons(Classify(CStr(log[..n])), Items(log[n..], room));
    }
  }

  lemma {:induction false} BareAllSame(list: seq<string>)
    requires !AnyLineFeed(list)
    ensures BareAll(list) == list <==> !AnyReturn(list)
  {
    if list != [] {
      BareAllSame(list[1..]);
      assert BareAll(list)[0] == Bare(list[0]) && BareAll(list)[1..] == BareAll(list[1..]);
      assert list == [list[0]] + list[1..];
    }
  }

  // ----- The theorems --------------------------------------------------------------------------

  /** For every log, the bounded reads give as many statements as the whole lines exactly when no chunk after the
      first of its line looks like a header; otherwise they give more. */
  lemma ChunkingKeepsCount(log: string, room: Room)
    ensures |Group(Items(log, room))| >= |Group(LineItems(log))|
    ensures |Group(Items(log, room))| == |Group(LineItems(log))| <==> !SplitHeader(log, true, room)
  {
    OneStatementPerHeader(Items(log, room));
    OneStatementPerHeader(LineItems(log));
    ChunksAddHeaders(log, true, room);
  }

  /** For logs with LF or CR LF line ends, mixed in any way, they give the same statements exactly when, besides, no
      chunk of a statement ends between CR and LF. */
  lemma CuttingIsTransparent(log: string, room: Room)
    requires Clean(log)
    ensures Group(Items(log, room)) == Group(LineItems(log)) <==>
            !SplitHeader(log, true, room) && !KeepsReturn(log, false, room)
  {
    ChunkingKeepsCount(log, room);
    if !SplitHeader(log, true, room) {
      AgreeUpToReturns(log, true, room);
      ReturnsAreKept(log, false, room);
      StatementsHaveNoLineFeed(log, room);
      BareAllSame(Group(Items(log, room)));
    }
  }

  /** The program's 8191-byte reads against whole lines. */
  lemma ChunkingIsTransparent(log: string)
    ensures |Statements(log)| >= |Group(LineItems(log))|
    ensures |Statements(log)| == |Group(LineItems(log))| <==> !SplitHeader(log, true, ROOM)
    ensures Clean(log) ==> (Statements(log) == Group(LineItems(log)) <==>
                            !SplitHeader(log, true, ROOM) && !KeepsReturn(log, false, ROOM))
    ensures LinesFit(log, ROOM) ==> Statements(log) == Group(LineItems(log))
  {
    hide Group, Items, LineItems, SplitHeader, KeepsReturn, Clean, LinesFit;
    ChunkingKeepsCount(log, ROOM);
    if Clean(log) {
      CuttingIsTransparent(log, ROOM);
    }
    if LinesFit(log, ROOM) {
      FittingLinesAreReadWhole(log, ROOM);
    }
  }

  /** A line of 8191 bytes with its line feed is read whole; one of 8192 bytes is cut after 8191. */
  lemma BufferLimit(input: string)
    ensures LineLen(input) == 8191 ==> Cut(input, ROOM) == 8191 == LineLen(input)
    ensures LineLen(input) == 8192 ==> Cut(input, ROOM) == 8191 < LineLen(input)
    ensures input != "" ==> Cut(input, ROOM) == if LineLen(input) <= 8191 then LineLen(input) else 8191
  {
    hide LineLen;
  }

  // ----- What every statement of every log looks like ------------------------------------------

  lemma {:induction false} GroupIsNonEmptyText(items: seq<Item>)
    requires HeadersHaveText(items)
    ensures "" !in Group(items)
  {
    if items != [] {
      GroupIsNonEmptyText(items[1..]);
    }
  }

  lemma {:induction false} NoFeedMeansNone(list: seq<string>)
    ensures AnyLineFeed(list) <==> exists s :: s in list && '\n' in s
  {
    if list != [] {
      NoFeedMeansNone(list[1..]);
      assert list == [list[0]] + list[1..];
    }
  }

  /** No statement is empty, and none holds a line feed. */
  lemma StatementsAreOneLine(log: string)
    ensures forall s | s in Statements(log) :: s != "" && '\n' !in s
  {
    CapturesAreNonEmpty(log);
    GroupIsNonEmptyText(Items(log, ROOM));
    StatementsHaveNoLineFeed(log, ROOM);
    NoFeedMeansNone(Statements(log));
  }
}
