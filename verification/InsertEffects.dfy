/** What INSERT statements insert, and whether the fused statement of a bulk replay inserts the same. */
module InsertEffects {
  import opened BulkMerge
  import opened CStrings
  import opened GeneralLog
  import opened InsertHead
  import opened LogFormat
  import opened LogPrinter
  import opened Sequences

  // ----- Reading a VALUES list -----------------------------------------------------------------

  /** Lexical state: comments as MySQL writes them, quotes with backslash escapes, and the characters that may turn
      out to begin a comment. */
  datatype Lex = Plain | Dash | TwoDashes | Slash | LineComment | Block | BlockStar | Quoted(q: char) | Escaped(q: char)

  /** Where the text is: before a row, inside one, after one, in a clause behind the rows, behind a ';', or not a
      list of rows. */
  datatype Place = Before | Inside(depth: nat) | After | Clause | Ended | Broken

  /** `row` is the row being read, `after` the text behind the last one. */
  datatype Reader = Reader(place: Place, lex: Lex, rows: seq<string>, row: string, after: string)

  const START: Reader := Reader(Before, Plain, [], "", "")

  /** Adds `c` to the text it belongs to. */
  function Keep(s: Reader, c: char, lex: Lex): Reader {
    match s.place
    case Inside(_) => s.(lex := lex, row := s.row + [c])
    case After | Clause | Ended => s.(lex := lex, after := s.after + [c])
    case _ => s.(lex := lex)
  }

  /** A pending '-' or '/' turns out to be no comment. */
  function Significant(s: Reader): Reader {
    match s.place
    case Inside(_) => s.(lex := Plain)
    case After => s.(place := Clause, lex := Plain)
    case _ => s.(place := Broken, lex := Plain)
  }

  /** A character outside comments and quotes. */
  function Token(s: Reader, c: char): Reader {
    if s.place == Broken || s.place == Clause then Keep(s, c, Plain)
    else if c == '-' then Keep(s, c, Dash)
    else if c == '/' then Keep(s, c, Slash)
    else if c == '#' then Keep(s, c, LineComment)
    else if c <= ' ' then Keep(s, c, Plain)
    else
      match s.place
      case Inside(depth) =>
        if c == '(' then Keep(s.(place := Inside(depth + 1)), c, Plain)
        else if c == ')' && depth > 1 then Keep(s.(place := Inside(depth - 1)), c, Plain)
        else if c == ')' then Reader(After, Plain, s.rows + [s.row + [c]], "", "")
        else if c == '\'' || c == '"' || c == '`' then Keep(s, c, Quoted(c))
        else Keep(s, c, Plain)
      case After =>
        if c == ',' then s.(place := Before, lex := Plain, after := "")
        else Keep(s.(place := if c == ';' then Ended else Clause), c, Plain)
      case Before =>
        if c == '(' then Keep(s.(place := Inside(1)), c, Plain) else s.(place := Broken)
      case _ => s.(place := Broken)
  }

  function Feed(s: Reader, c: char): Reader {
    if s.place == Broken || s.place == Clause then Keep(s, c, Plain)
    else
      match s.lex
      case Plain => Token(s, c)
      case Dash => if c == '-' then Keep(s, c, TwoDashes) else Token(Significant(s), c)
      case TwoDashes =>
        if c <= ' ' then Keep(s, c, if c == '\n' then Plain else LineComment)
        else if c == '-' && s.place.Inside? then Keep(s, c, TwoDashes)
        else Token(Significant(s), c)
      case Slash => if c == '*' then Keep(s, c, Block) else Token(Significant(s), c)
      case LineComment => Keep(s, c, if c == '\n' then Plain else LineComment)
      case Block => Keep(s, c, if c == '*' then BlockStar else Block)
      case BlockStar => Keep(s, c, if c == '/' then Plain else if c == '*' then BlockStar else Block)
      case Quoted(q) => Keep(s, c, if c == '\\' && q != '`' then Escaped(q) else if c == q then Plain else s.lex)
      case Escaped(q) => Keep(s, c, Quoted(q))
  }

  function Run(s: Reader, text: string): Reader
    decreases |text|
  {
    if text == [] then s else Run(Feed(s, text[0]), text[1..])
  }

  /** The rows of a list, and the clause behind them. */
  datatype RowList = RowList(rows: seq<string>, clause: string)

  /** At the end of the text: a list of rows, perhaps with a clause, or None. */
  function Finish(s: Reader): Option<RowList> {
    match s.place
    case Clause => Some(RowList(s.rows, s.after))
    case After =>
      if s.lex == Dash || s.lex == Slash then Some(RowList(s.rows, s.after))
      else if s.lex == Plain || s.lex == LineComment || s.lex == TwoDashes then Some(RowList(s.rows, ""))
      else None
    case Ended =>
      if s.lex == Plain || s.lex == LineComment || s.lex == TwoDashes then Some(RowList(s.rows, "")) else None
    case _ => None
  }

  function ReadRows(text: string): Option<RowList> {
    Finish(Run(START, text))
  }

  /** Nothing but blanks and closed comments behind the last row. */
  predicate EndsCleanly(text: string) {
    var s := Run(START, text);
    s.place == After && s.lex == Plain
  }

  // ----- What statements do --------------------------------------------------------------------

  /** An INSERT of rows: where they go, the rows, and the clause behind them. */
  datatype Inserted = Inserted(into: Destination, list: RowList)

  function ReadInsert(sql: string): Option<Inserted> {
    match ReadHead(BEGIN, sql)
    case None => None
    case Some((into, rest)) =>
      match ReadRows(rest)
      case None => None
      case Some(list) => Some(Inserted(into, list))
  }

  /** One row inserted under a clause, or some other statement executed. */
  datatype Effect = Insertion(into: Destination, row: string, clause: string) | Other(sql: string)

  function Insertions(into: Destination, rows: seq<string>, clause: string): (r: seq<Effect>)
    ensures |r| == |rows| && forall i | 0 <= i < |r| :: r[i] == Insertion(into, rows[i], clause)
  {
    seq(|rows|, i requires 0 <= i < |rows| => Insertion(into, rows[i], clause))
  }

  /** What executing one statement does. */
  function Effects(sql: string): seq<Effect> {
    match ReadInsert(sql)
    case None => [Other(sql)]
    case Some(i) => Insertions(i.into, i.list.rows, i.list.clause)
  }

  /** What executing the statements one by one does. */
  function AllEffects(list: seq<string>): seq<Effect> {
    if list == [] then [] else Effects(list[0]) + AllEffects(list[1..])
  }

  /** What the bulk replay of them does. */
  function Replayed(list: seq<string>): seq<Effect> {
    match Fuse("", list)
    case None => []
    case Some(sql) => Effects(sql)
  }

  // ----- When fusing is right ------------------------------------------------------------------

  predicate AllInserts(list: seq<string>) {
    list == [] || (ReadInsert(list[0]).Some? && AllInserts(list[1..]))
  }

  /** The rows of all statements, in order. */
  function InsertedRows(list: seq<string>): seq<string>
    requires AllInserts(list)
  {
    if list == [] then [] else ReadInsert(list[0]).value.list.rows + InsertedRows(list[1..])
  }

  predicate SameDestination(list: seq<string>, into: Destination)
    requires AllInserts(list)
  {
    list == [] || (ReadInsert(list[0]).value.into == into && SameDestination(list[1..], into))
  }

  predicate SameClause(list: seq<string>, clause: string)
    requires AllInserts(list)
  {
    list == [] || (ReadInsert(list[0]).value.list.clause == clause && SameClause(list[1..], clause))
  }

  /** The texts behind the keywords. */
  function BehindKeywords(list: seq<string>): (r: seq<string>)
    requires AllInserts(list)
    ensures |r| == |list|
  {
    if list == [] then [] else [BehindKeyword(list[0])] + BehindKeywords(list[1..])
  }

  /** The texts the replay puts together: behind the first statement's keyword, and wherever the search finds one in
      the others. */
  function TakenTexts(list: seq<string>): (r: seq<string>)
    requires list != [] && BeginsInsert(list[0]) && AllContain(list[1..])
  {
    [BehindKeyword(list[0])] + RowTexts(ParseAll(list[1..]))
  }

  /** The texts put together read as the rows of all statements, under the destination and clause of each. */
  predicate JoinedReads(list: seq<string>) {
    && list != [] && AllInserts(list) && AllContain(list[1..])
    && var first := ReadInsert(list[0]).value;
    && SameDestination(list, first.into) && SameClause(list, first.list.clause)
    && ReadRows(Join(TakenTexts(list))) == Some(RowList(InsertedRows(list), first.list.clause))
  }

  /** In every statement after the first the search finds the statement's own keyword. */
  predicate SearchFindsKeywords(list: seq<string>) {
    forall i | 1 <= i < |list| :: BeginsInsert(list[i]) && Contains(list[i], VALUES) ==> KeywordFound(list[i])
  }

  predicate AllRead(texts: seq<string>) {
    texts == [] || (ReadRows(texts[0]).Some? && AllRead(texts[1..]))
  }

  predicate AllButLastEndCleanly(texts: seq<string>) {
    |texts| <= 1 || (EndsCleanly(texts[0]) && AllButLastEndCleanly(texts[1..]))
  }

  function LastClause(texts: seq<string>): string
    requires texts != [] && AllRead(texts)
  {
    if |texts| == 1 then ReadRows(texts[0]).value.clause else LastClause(texts[1..])
  }

  /** INSERTs of rows into one destination, with nothing but blanks and closed comments behind the rows of any but
      the last, and no clause behind those. */
  predicate Mergeable(list: seq<string>) {
    && list != [] && AllInserts(list) && AllContain(list[1..])
    && SameDestination(list, ReadInsert(list[0]).value.into)
    && AllButLastEndCleanly(BehindKeywords(list))
    && (TextsAreRead(list); LastClause(BehindKeywords(list)) == "")
  }

  lemma {:induction false} TextsAreRead(list: seq<string>)
    requires AllInserts(list)
    ensures AllRead(BehindKeywords(list))
  {
    if list != [] {
      hide ReadRows, ReadHead;
      TextsAreRead(list[1..]);
      assert BehindKeywords(list)[1..] == BehindKeywords(list[1..]);
    }
  }

  // ----- The reader over a concatenation -------------------------------------------------------

  lemma {:induction false} RunAppend(s: Reader, a: string, b: string)
    ensures Run(s, a + b) == Run(Run(s, a), b)
    decreases |a|
  {
    if a == [] {
      assert a + b == b;
    } else {
      hide Feed;
      assert (a + b)[1..] == a[1..] + b;
      RunAppend(Feed(s, a[0]), a[1..], b);
    }
  }

  /** The reader with `more` rows read before. */
  function Behind(more: seq<string>, s: Reader): Reader {
    s.(rows := more + s.rows)
  }

  lemma KeepBehind(more: seq<string>, s: Reader, c: char, lex: Lex)
    ensures Keep(Behind(more, s), c, lex) == Behind(more, Keep(s, c, lex))
    ensures Significant(Behind(more, s)) == Behind(more, Significant(s))
  {
  }

  lemma TokenBehind(more: seq<string>, s: Reader, c: char)
    ensures Token(Behind(more, s), c) == Behind(more, Token(s, c))
  {
    assert more + (s.rows + [s.row + [c]]) == (more + s.rows) + [s.row + [c]];
  }

  lemma FeedBehind(more: seq<string>, s: Reader, c: char)
    ensures Feed(Behind(more, s), c) == Behind(more, Feed(s, c))
  {
    hide Token, Keep, Significant;
    TokenBehind(more, s, c);
    TokenBehind(more, Significant(s), c);
    KeepBehind(more, s, c, Plain);
    forall lex ensures Keep(Behind(more, s), c, lex) == Behind(more, Keep(s, c, lex)) {
      KeepBehind(more, s, c, lex);
    }
  }

  lemma {:induction false} RunBehind(more: seq<string>, s: Reader, text: string)
    ensures Run(Behind(more, s), text) == Behind(more, Run(s, text))
    decreases |text|
  {
    if text != [] {
      hide Feed, Behind;
      FeedBehind(more, s, text[0]);
      RunBehind(more, Feed(s, text[0]), text[1..]);
    }
  }

  /** No later row can be read: broken, in a clause, or in a comment to the end of the line. */
  predicate Stuck(s: Reader) {
    s.place == Broken || s.place == Clause || s.lex == LineComment
  }

  lemma {:induction false} StuckKeepsRows(s: Reader, text: string)
    requires Stuck(s) && '\n' !in text
    ensures Run(s, text).rows == s.rows
    decreases |text|
  {
    if text != [] {
      var t := Feed(s, text[0]);
      assert Stuck(t) && t.rows == s.rows;
      hide Feed, Stuck;
      StuckKeepsRows(t, text[1..]);
    }
  }

  /** Between calls nothing is left over: rows in front of `START` have no text pending. */
  lemma CommaAfterCleanEnd(s: Reader)
    requires s.place == After && s.lex == Plain && s.row == ""
    ensures Feed(s, ',') == Behind(s.rows, START)
  {
    assert s.rows + [] == s.rows;
  }

  lemma CommaAfterOtherEnd(s: Reader)
    requires Finish(s).Some? && !(s.place == After && s.lex == Plain)
    ensures Stuck(Feed(s, ',')) && Feed(s, ',').rows == s.rows == Finish(s).value.rows
  {
  }

  /** A row is pending only inside one, and a list that is read has at least one. */
  predicate Tidy(s: Reader) {
    && (!s.place.Inside? ==> s.row == "" || s.place == Broken)
    && (s.place == After || s.place == Clause || s.place == Ended ==> s.rows != [])
  }

  lemma {:induction false} RunIsTidy(s: Reader, text: string)
    requires Tidy(s)
    ensures Tidy(Run(s, text))
    decreases |text|
  {
    if text != [] {
      assert Tidy(Feed(s, text[0]));
      hide Feed, Tidy;
      RunIsTidy(Feed(s, text[0]), text[1..]);
    }
  }

  lemma ReadsSomeRow(text: string)
    ensures ReadRows(text).Some? ==> ReadRows(text).value.rows != []
    ensures EndsCleanly(text) ==> ReadRows(text) == Some(RowList(Run(START, text).rows, ""))
  {
    RunIsTidy(START, text);
  }

  // ----- The rows of the texts put together ----------------------------------------------------

  lemma JoinSteps(texts: seq<string>)
    requires texts != []
    ensures Join(texts) == if |texts| == 1 then texts[0] else texts[0] + ("," + Join(texts[1..]))
  {
    if |texts| > 1 {
      Associative(texts[0], ",", Join(texts[1..]));
    }
  }

  predicate OneLine(texts: seq<string>) {
    forall t | t in texts :: '\n' !in t
  }

  lemma {:induction false} JoinOfOneLine(texts: seq<string>)
    requires OneLine(texts)
    ensures '\n' !in Join(texts)
  {
    if texts != [] {
      assert texts[0] in texts;
      JoinOfOneLine(texts[1..]);
    }
  }

  function AllRows(texts: seq<string>): seq<string>
    requires AllRead(texts)
  {
    if texts == [] then [] else ReadRows(texts[0]).value.rows + AllRows(texts[1..])
  }

  lemma RunComma(s: Reader, text: string)
    ensures Run(s, "," + text) == Run(Feed(s, ','), text)
  {
    assert ("," + text)[0] == ',' && ("," + text)[1..] == text;
  }

  lemma FinishBehind(more: seq<string>, s: Reader)
    ensures Finish(Behind(more, s)) ==
            if Finish(s).Some? then Some(RowList(more + Finish(s).value.rows, Finish(s).value.clause)) else None
  {
  }

  /** A clean first list is continued by the second. */
  lemma ReadAfterClean(a: string, b: string)
    requires EndsCleanly(a)
    ensures var first, second := ReadRows(a), ReadRows(b);
            && first.Some? && first.value.clause == ""
            && ReadRows(a + ("," + b)) ==
               if second.Some? then Some(RowList(first.value.rows + second.value.rows, second.value.clause)) else None
  {
    var s := Run(START, a);
    RunIsTidy(START, a);
    ReadsSomeRow(a);
    RunAppend(START, a, "," + b);
    RunComma(s, b);
    CommaAfterCleanEnd(s);
    RunBehind(s.rows, START, b);
    hide Feed, Run, Behind;
    FinishBehind(s.rows, Run(START, b));
  }

  /** Any other list swallows what follows it, or is broken by it. */
  lemma ReadAfterUnclean(a: string, b: string)
    requires ReadRows(a).Some? && !EndsCleanly(a) && '\n' !in b
    ensures var joined := ReadRows(a + ("," + b));
            joined.Some? ==> joined.value.rows == ReadRows(a).value.rows
  {
    var s := Run(START, a);
    RunAppend(START, a, "," + b);
    RunComma(s, b);
    CommaAfterOtherEnd(s);
    hide Feed, Run, Stuck;
    StuckKeepsRows(Feed(s, ','), b);
  }

  lemma {:induction false} JoinedClean(texts: seq<string>)
    requires texts != [] && AllRead(texts) && AllButLastEndCleanly(texts)
    ensures ReadRows(Join(texts)) == Some(RowList(AllRows(texts), LastClause(texts)))
  {
    hide ReadRows, EndsCleanly, Join;
    JoinSteps(texts);
    var first := ReadRows(texts[0]).value;
    if |texts| == 1 {
      assert AllRows(texts) == first.rows + [] == first.rows;
    } else {
      JoinedClean(texts[1..]);
      ReadAfterClean(texts[0], Join(texts[1..]));
    }
  }

  lemma RowsArePositive(texts: seq<string>)
    requires texts != [] && AllRead(texts)
    ensures |AllRows(texts)| > 0
  {
    hide ReadRows;
    ReadsSomeRow(texts[0]);
  }

  lemma {:induction false} JoinedUnclean(texts: seq<string>)
    requires AllRead(texts) && !AllButLastEndCleanly(texts) && OneLine(texts)
    ensures var joined := ReadRows(Join(texts));
            joined.Some? ==> |joined.value.rows| < |AllRows(texts)|
  {
    hide ReadRows, EndsCleanly, Join;
    JoinSteps(texts);
    var rest := Join(texts[1..]);
    RowsArePositive(texts[1..]);
    if EndsCleanly(texts[0]) {
      ReadAfterClean(texts[0], rest);
      JoinedUnclean(texts[1..]);
    } else {
      JoinOfOneLine(texts[1..]);
      ReadAfterUnclean(texts[0], rest);
    }
  }

  // ----- Effects of several statements ---------------------------------------------------------

  lemma EffectsOfInsert(sql: string)
    requires ReadInsert(sql).Some?
    ensures var i := ReadInsert(sql).value;
            Effects(sql) == Insertions(i.into, i.list.rows, i.list.clause) && i.list.rows != []
    ensures BeginsInsert(sql) && ReadRows(BehindKeyword(sql)) == Some(ReadInsert(sql).value.list)
  {
    hide ReadRows, ReadHead, Insertions;
    ReadsSomeRow(BehindKeyword(sql));
  }

  /** The effects of INSERTs are their rows in order. */
  lemma {:induction false} EffectsAreRows(list: seq<string>)
    requires AllInserts(list)
    ensures |AllEffects(list)| == |InsertedRows(list)|
    ensures forall i | 0 <= i < |AllEffects(list)| ::
              AllEffects(list)[i].Insertion? && AllEffects(list)[i].row == InsertedRows(list)[i]
  {
    if list != [] {
      EffectsOfInsert(list[0]);
      EffectsAreRows(list[1..]);
      hide ReadInsert, Effects;
    }
  }

  lemma {:induction false} SameEffects(list: seq<string>, into: Destination, clause: string)
    requires AllInserts(list)
    ensures Insertions(into, InsertedRows(list), clause) == AllEffects(list) <==>
            SameDestination(list, into) && SameClause(list, clause)
  {
    if list != [] {
      EffectsOfInsert(list[0]);
      SameEffects(list[1..], into, clause);
      var first := ReadInsert(list[0]).value;
      hide ReadInsert, Effects;
      InsertionsAppend(into, InsertedRows(list[1..]), clause, first, AllEffects(list[1..]));
    }
  }

  lemma InsertionsAppend(into: Destination, more: seq<string>, clause: string, first: Inserted, rest: seq<Effect>)
    requires first.list.rows != []
    ensures Insertions(into, first.list.rows + more, clause) ==
            Insertions(first.into, first.list.rows, first.list.clause) + rest <==>
            first.into == into && first.list.clause == clause && Insertions(into, more, clause) == rest
  {
    var rows := first.list.rows;
    var left, right := Insertions(into, rows + more, clause), Insertions(first.into, rows, first.list.clause) + rest;
    assert left == Insertions(into, rows, clause) + Insertions(into, more, clause);
    assert left[0] == Insertion(into, rows[0], clause) && right[0] == Insertion(first.into, rows[0], first.list.clause);
    assert left[|rows|..] == Insertions(into, more, clause) && right[|rows|..] == rest;
  }

  lemma EffectsArePositive(sql: string)
    ensures |Effects(sql)| > 0
  {
    if ReadInsert(sql).Some? {
      EffectsOfInsert(sql);
    }
  }

  lemma {:induction false} EffectsPerStatement(list: seq<string>)
    ensures |AllEffects(list)| >= |list|
    ensures !AllInserts(list) ==> exists i :: 0 <= i < |AllEffects(list)| && AllEffects(list)[i].Other?
  {
    if list != [] {
      EffectsPerStatement(list[1..]);
      EffectsArePositive(list[0]);
      if ReadInsert(list[0]).None? {
        assert AllEffects(list)[0].Other?;
      } else if !AllInserts(list) {
        var i :| 0 <= i < |AllEffects(list[1..])| && AllEffects(list[1..])[i].Other?;
        hide Effects, ReadInsert;
        assert AllEffects(list)[|Effects(list[0])| + i] == AllEffects(list[1..])[i];
      }
    }
  }

  // ----- The fused statement -------------------------------------------------------------------

  /** An INSERT keeps its head when text is appended: only its row list grows. */
  lemma ReadInsertAppend(sql: string, more: string)
    requires ReadInsert(sql).Some?
    ensures ReadInsert(sql + more) ==
            match ReadRows(BehindKeyword(sql) + more)
            case None => None
            case Some(list) => Some(Inserted(ReadInsert(sql).value.into, list))
  {
    EmptyIsNotRead();
    ReadHeadAppend(BEGIN, sql, more);
    hide ReadRows, ReadHead;
  }

  lemma EmptyIsNotRead()
    ensures ReadRows("").None?
  {
  }

  /** The fused statement in terms of the texts put together. */
  lemma FusedInsert(list: seq<string>)
    requires |list| >= 2 && "" !in list && ReadInsert(list[0]).Some? && AllContain(list[1..])
    ensures Fuse("", list).Some?
    ensures ReadInsert(Fuse("", list).value) ==
            match ReadRows(Join(TakenTexts(list)))
            case None => None
            case Some(rows) => Some(Inserted(ReadInsert(list[0]).value.into, rows))
  {
    var first, later := list[0], RowTexts(ParseAll(list[1..]));
    FirstIsNotChecked(list);
    Associative(first, ",", Join(later));
    ReadInsertAppend(first, "," + Join(later));
    RowTextsLength(ParseAll(list[1..]));
    hide Fuse, ReadInsert, ReadRows, ReadHead, Join, RowTexts, ParseAll, Contains;
    JoinSteps(TakenTexts(list));
    assert TakenTexts(list)[1..] == later;
  }

  /** For two statements or more the replay does what they do one by one exactly when the texts it puts together read
      as their rows, under one destination and one clause. */
  lemma JoinedTextsDecide(list: seq<string>)
    requires |list| >= 2 && "" !in list
    ensures Replayed(list) == AllEffects(list) <==> JoinedReads(list)
  {
    hide *;
    EffectsPerStatement(list);
    FirstIsNotChecked(list);
    JoinedNeeds(list);
    ReplayedIs(list);
    if AllContain(list[1..]) {
      if AllInserts(list) {
        JoinedInsertsDecide(list);
      } else {
        OneKind(Fuse("", list).value);
      }
    }
  }

  lemma JoinedNeeds(list: seq<string>)
    ensures JoinedReads(list) ==> list != [] && AllInserts(list) && AllContain(list[1..])
  {
    hide AllInserts, AllContain, TakenTexts, ReadInsert, ReadRows, Join;
  }

  lemma ReplayedIs(list: seq<string>)
    ensures Replayed(list) == if Fuse("", list).Some? then Effects(Fuse("", list).value) else []
  {
  }

  lemma JoinedInsertsDecide(list: seq<string>)
    requires |list| >= 2 && "" !in list && AllInserts(list) && AllContain(list[1..])
    ensures Fuse("", list).Some?
    ensures Effects(Fuse("", list).value) == AllEffects(list) <==> JoinedReads(list)
  {
    FusedInsert(list);
    var fused := Fuse("", list).value;
    var first := ReadInsert(list[0]).value;
    hide Fuse, ReadRows, ReadHead, Join, TakenTexts, AllContain, InsertedRows, AllInserts, Contains, SameDestination;
    hide SameClause, AllEffects;
    EffectsPerStatement(list);
    if ReadInsert(fused).Some? {
      var read := ReadInsert(fused).value;
      EffectsOfInsert(fused);
      SameEffects(list, first.into, read.list.clause);
      FirstClause(list, read.list.clause);
      hide Effects, ReadInsert;
      RowsOfEffects(list, read);
    } else {
      EffectsAreRows(list);
    }
  }

  lemma FirstClause(list: seq<string>, clause: string)
    requires list != [] && AllInserts(list)
    ensures SameClause(list, clause) ==> ReadInsert(list[0]).value.list.clause == clause
  {
  }

  lemma RowsOfEffects(list: seq<string>, read: Inserted)
    requires AllInserts(list)
    ensures Insertions(read.into, read.list.rows, read.list.clause) == AllEffects(list) ==>
              read.list.rows == InsertedRows(list)
  {
    EffectsAreRows(list);
    hide AllInserts, AllEffects, InsertedRows;
    if Insertions(read.into, read.list.rows, read.list.clause) == AllEffects(list) {
      assert forall i | 0 <= i < |read.list.rows| :: read.list.rows[i] == AllEffects(list)[i].row;
    }
  }

  lemma OneKind(sql: string)
    ensures |Effects(sql)| == 1 || forall i | 0 <= i < |Effects(sql)| :: Effects(sql)[i].Insertion?
  {
  }

  // ----- When the search finds the keywords ----------------------------------------------------

  lemma {:induction false} FoundTexts(list: seq<string>)
    requires AllInserts(list) && AllContain(list)
    requires forall s | s in list && BeginsInsert(s) :: KeywordFound(s)
    ensures RowTexts(ParseAll(list)) == BehindKeywords(list)
  {
    if list != [] {
      assert list[0] in list;
      EffectsOfInsert(list[0]);
      hide Contains, ReadHead, ReadRows;
      FoundTexts(list[1..]);
      assert ParseAll(list) == [Parse(list[0])] + ParseAll(list[1..]);
    }
  }

  lemma {:induction false} RowsBehindKeywords(list: seq<string>)
    requires AllInserts(list)
    ensures AllRead(BehindKeywords(list)) && AllRows(BehindKeywords(list)) == InsertedRows(list)
  {
    TextsAreRead(list);
    if list != [] {
      EffectsOfInsert(list[0]);
      hide ReadInsert, ReadRows, ReadHead;
      RowsBehindKeywords(list[1..]);
      assert BehindKeywords(list)[1..] == BehindKeywords(list[1..]);
    }
  }

  /** Clean ends carry no clause, so all clauses agree exactly when the last is empty, if there are several. */
  lemma {:induction false} ClausesOfClean(list: seq<string>)
    requires list != [] && AllInserts(list) && AllButLastEndCleanly(BehindKeywords(list))
    ensures AllRead(BehindKeywords(list))
    ensures SameClause(list, "") <==> LastClause(BehindKeywords(list)) == ""
    ensures |list| >= 2 ==> ReadInsert(list[0]).value.list.clause == ""
  {
    TextsAreRead(list);
    EffectsOfInsert(list[0]);
    ReadsSomeRow(BehindKeyword(list[0]));
    hide ReadRows, EndsCleanly, ReadHead, ReadInsert;
    if |list| >= 2 {
      assert BehindKeywords(list)[1..] == BehindKeywords(list[1..]);
      ClausesOfClean(list[1..]);
    }
  }

  lemma TextsOfOneLine(list: seq<string>)
    requires AllInserts(list) && OneLine(list)
    ensures OneLine(BehindKeywords(list))
  {
    if list != [] {
      assert list[0] in list;
      EffectsOfInsert(list[0]);
      ReadHeadIsSuffix(BEGIN, list[0]);
      hide ReadHead, ReadRows;
      TextsOfOneLine(list[1..]);
    }
  }

  /** Then the condition is one on the statements alone. */
  lemma FoundKeywordsDecide(list: seq<string>)
    requires |list| >= 2 && OneLine(list) && SearchFindsKeywords(list)
    ensures JoinedReads(list) <==> Mergeable(list)
  {
    if AllInserts(list) && AllContain(list[1..]) {
      var texts, first := BehindKeywords(list), ReadInsert(list[0]).value;
      assert forall i | 1 <= i < |list| :: list[i] == list[1..][i - 1];
      assert forall s | s in list[1..] && BeginsInsert(s) :: KeywordFound(s) by {
        assert forall s | s in list[1..] :: Contains(s, VALUES);
      }
      FoundTexts(list[1..]);
      EffectsOfInsert(list[0]);
      assert TakenTexts(list) == texts;
      RowsBehindKeywords(list);
      TextsOfOneLine(list);
      hide ReadRows, ReadHead, ReadInsert, Join, AllRows, Contains, SameDestination, BehindKeywords, TakenTexts;
      if AllButLastEndCleanly(texts) {
        JoinedClean(texts);
        ClausesOfClean(list);
      } else {
        JoinedUnclean(texts);
      }
    }
  }

  // ----- The theorems --------------------------------------------------------------------------

  /** What a bulk replay does is what running the statements one by one does: always for one statement; for several
      exactly when the texts put together read as their rows, which is to say that they are mergeable if the search
      finds each statement's own keyword. */
  lemma BulkMergePreservesEffects(list: seq<string>)
    requires list != [] && "" !in list && OneLine(list)
    ensures |list| == 1 ==> Fuse("", list) == Some(list[0]) && Replayed(list) == AllEffects(list)
    ensures |list| >= 2 ==> (Replayed(list) == AllEffects(list) <==> JoinedReads(list))
    ensures |list| >= 2 && SearchFindsKeywords(list) ==> (Replayed(list) == AllEffects(list) <==> Mergeable(list))
  {
    if |list| == 1 {
      FirstIsNotChecked(list);
      assert list[1..] == [];
      assert AllEffects(list) == Effects(list[0]) + [] == Effects(list[0]);
    } else {
      hide *;
      JoinedTextsDecide(list);
      if SearchFindsKeywords(list) {
        FoundKeywordsDecide(list);
      }
    }
  }

  /** When a bulk replay of these statements is right. */
  predicate Faithful(list: seq<string>) {
    |list| == 1 || (if SearchFindsKeywords(list) then Mergeable(list) else JoinedReads(list))
  }

  /** Hence for the program: whatever the log, what a bulk replay of it does. */
  lemma BulkReplayOfLog(log: string)
    requires Statements(log) != []
    ensures Replayed(Statements(log)) == AllEffects(Statements(log)) <==> Faithful(Statements(log))
  {
    hide Statements, Replayed, AllEffects, Mergeable, JoinedReads, SearchFindsKeywords;
    StatementsAreOneLine(log);
    BulkMergePreservesEffects(Statements(log));
  }

  /** From the printer to the inserted rows: a bulk replay of a printed log does what the printed statements do exactly
      when they are fit for it, provided the log gives them back. */
  lemma BulkReplayOfPrintedLog(es: seq<Entry>)
    requires es != [] && AllPrintable(es) && AllGood(es, ROOM)
    ensures Replayed(Statements(Print(es))) == AllEffects(Texts(es)) <==> Faithful(Texts(es))
  {
    hide *;
    ReplayRoundTrip(es);
    BulkReplayOfLog(Print(es));
  }

  // ----- Ends that are not clean ---------------------------------------------------------------

  /** Behind the rows for good: a clause, a ';' or a comment to the end of the line. */
  predicate Past(s: Reader) {
    Stuck(s) || s.place == Ended
  }

  lemma {:induction false} PastStays(s: Reader, text: string)
    requires Past(s) && '\n' !in text
    ensures Past(Run(s, text))
    decreases |text|
  {
    if text != [] {
      assert Past(Feed(s, text[0]));
      hide Feed, Past;
      PastStays(Feed(s, text[0]), text[1..]);
    }
  }

  /** A '#', a ';' or the beginning of a clause spoils a clean end, whatever else follows; a blank does not. */
  lemma AfterCleanEnd(a: string, c: char, b: string)
    requires EndsCleanly(a) && '\n' !in b
    ensures c <= ' ' ==> EndsCleanly(a + [c])
    ensures c > ' ' && c != ',' && c != '-' && c != '/' ==> !EndsCleanly(a + ([c] + b))
  {
    var s := Run(START, a);
    RunAppend(START, a, [c]);
    RunAppend(START, a, [c] + b);
    RunAppend(s, [c], b);
    assert Run(s, [c]) == Feed(s, c);
    if c > ' ' && c != ',' && c != '-' && c != '/' {
      assert Past(Feed(s, c));
      PastStays(Feed(s, c), b);
    }
  }

  /** So a row list with ON DUPLICATE KEY UPDATE must not be followed by another. */
  lemma DuplicateKeyExample()
    ensures EndsCleanly("(1)") && !EndsCleanly("(1)" + ("O" + "N DUPLICATE KEY UPDATE c=1"))
  {
    var s1, s2 := Feed(START, '('), Feed(Feed(START, '('), '1');
    assert s1 == Reader(Inside(1), Plain, [], "(", "");
    assert s2 == Reader(Inside(1), Plain, [], "(1", "");
    assert "(1" + [')'] == "(1)" && [] + ["(1)"] == ["(1)"];
    assert Feed(s2, ')') == Reader(After, Plain, ["(1)"], "", "");
    hide Feed;
    assert "(1)"[1..] == "1)" && "1)"[1..] == ")";
    assert Run(s2, ")") == Feed(s2, ')');
    AfterCleanEnd("(1)", 'O', "N DUPLICATE KEY UPDATE c=1");
  }
  // ----- Statements in front of the keyword ----------------------------------------------------

  /** Two statements that name different destinations are never replayed faithfully. */
  lemma DifferentDestinationsSpoil(s1: string, s2: string)
    requires BeginsInsert(s1) && BeginsInsert(s2)
    requires ReadHead(BEGIN, s1).value.0 != ReadHead(BEGIN, s2).value.0
    ensures Replayed([s1, s2]) != AllEffects([s1, s2])
  {
    NoHeadInEmpty();
    var list := [s1, s2];
    if ReadInsert(s1).Some? && ReadInsert(s2).Some? {
      TwoLists(s1, s2);
      TwoDestinations(s1, s2);
      hide ReadHead, ReadRows, ReadInsert, Replayed, AllEffects, TakenTexts, InsertedRows, Join;
      JoinedTextsDecide(list);
    } else {
      hide ReadHead, ReadRows, ReadInsert, Replayed, AllEffects;
      OtherStatementSpoils(list, if ReadInsert(s1).None? then s1 else s2);
    }
  }

  lemma NoHeadInEmpty()
    ensures !BeginsInsert("")
  {
  }

  lemma TwoDestinations(s1: string, s2: string)
    requires ReadInsert(s1).Some? && ReadInsert(s2).Some? && AllInserts([s1, s2])
    ensures SameDestination([s1, s2], ReadInsert(s1).value.into) ==>
              ReadInsert(s2).value.into == ReadInsert(s1).value.into
  {
    hide ReadInsert;
    var list, into := [s1, s2], ReadInsert(s1).value.into;
    assert list[1..] == [s2];
    if SameDestination(list, into) {
      assert SameDestination(list[1..], into);
    }
  }

  function SetForm(table: string, rest: string): string {
    "INSERT" + (" " + ("INTO" + (" " + (table + (" " + ("SET" + (" " + rest)))))))
  }

  lemma {:induction false} NotAllInserts(list: seq<string>, s: string)
    requires s in list && ReadInsert(s).None?
    ensures !AllInserts(list)
  {
    hide ReadInsert;
    if s != list[0] {
      NotAllInserts(list[1..], s);
    }
  }

  /** Any list of several with a statement that is no INSERT of rows is spoiled. */
  lemma OtherStatementSpoils(list: seq<string>, s: string)
    requires |list| >= 2 && "" !in list && s in list && ReadInsert(s).None?
    ensures Replayed(list) != AllEffects(list)
  {
    hide ReadInsert, Replayed, AllEffects, InsertedRows, TakenTexts;
    NotAllInserts(list, s);
    JoinedTextsDecide(list);
  }

  /** Statements of the SET form whose update clauses call VALUES() pass the search, but fusing them executes none of
      them. */
  lemma SetFormSpoils(table: string, rest: string, list: seq<string>)
    requires PlainName(table) && Contains(SetForm(table, rest), VALUES)
    requires |list| >= 2 && forall s | s in list :: s == SetForm(table, rest)
    ensures Fuse("", list).Some? && Replayed(list) != AllEffects(list)
  {
    var s := SetForm(table, rest);
    SetFormIsOther(table, rest);
    hide SetForm, ReadHead, ReadInsert, Contains, Fuse, Replayed, AllEffects;
    assert list[0] in list && forall t | t in list[1..] :: t in list;
    FirstIsNotChecked(list);
    OtherStatementSpoils(list, s);
  }

  lemma SetFormIsOther(table: string, rest: string)
    requires PlainName(table)
    ensures SetForm(table, rest) != "" && ReadInsert(SetForm(table, rest)).None?
  {
    UpperSpellings();
    SetSpelling();
    hide ReadHead, Spells, IsValues, PlainName;
    OtherFormIsNoInsertOfRows("INSERT", "INTO", table, "SET", rest);
    assert |SetForm(table, rest)| >= 6;
  }

  lemma FoundInPlainInsert(table: string, rows: string)
    requires 'V' !in table
    ensures var sql := PlainInsert("insert", "into", table, "VALUES", rows);
            Contains(sql, VALUES) && Rows(sql) == " " + rows
  {
    var p := "insert" + (" " + ("into" + (" " + (table + " "))));
    assert PlainInsert("insert", "into", table, "VALUES", rows) == p + VALUES + (" " + rows);
    assert NoV(p);
    NoKeyword(p);
    RowsOfInsert(p, " " + rows);
  }

  lemma TwoTexts(s1: string, s2: string)
    requires BeginsInsert(s1) && Contains(s2, VALUES)
    ensures [s1, s2][1..] == [s2] && AllContain([s1, s2][1..])
    ensures TakenTexts([s1, s2]) == [BehindKeyword(s1), Rows(s2)]
  {
    hide ReadHead, Contains, Rows;
    assert [s2][1..] == [];
    assert ParseAll([s2]) == [Parse(s2)];
    assert RowTexts([Parse(s2)]) == [Rows(s2)];
  }

  lemma TwoLists(s1: string, s2: string)
    requires ReadInsert(s1).Some? && ReadInsert(s2).Some?
    ensures AllInserts([s1, s2])
    ensures InsertedRows([s1, s2]) == ReadInsert(s1).value.list.rows + ReadInsert(s2).value.list.rows
    ensures var i1, i2 := ReadInsert(s1).value, ReadInsert(s2).value;
            && (i1.into == i2.into ==> SameDestination([s1, s2], i1.into))
            && (i1.list.clause == i2.list.clause ==> SameClause([s1, s2], i1.list.clause))
  {
    hide ReadInsert;
    assert [s1, s2][1..] == [s2] && [s2][1..] == [];
    assert AllInserts([]) && AllInserts([s2]);
    var i1, i2 := ReadInsert(s1).value, ReadInsert(s2).value;
    assert InsertedRows([s2]) == i2.list.rows + [] == i2.list.rows;
    assert SameDestination([s2], i2.into) && SameClause([s2], i2.list.clause);
  }

  lemma TwoInserts(s1: string, s2: string)
    requires ReadInsert(s1).Some? && ReadInsert(s2).Some? && s1 != "" && s2 != ""
    requires ReadInsert(s1).value.into == ReadInsert(s2).value.into && ReadInsert(s2).value.list.clause == ""
    requires BeginsInsert(s1) && EndsCleanly(BehindKeyword(s1))
    requires BeginsInsert(s2) && Contains(s2, VALUES) && KeywordFound(s2)
    ensures Replayed([s1, s2]) == AllEffects([s1, s2])
  {
    EffectsOfInsert(s1);
    EffectsOfInsert(s2);
    TwoTexts(s1, s2);
    TwoLists(s1, s2);
    ReadAfterClean(BehindKeyword(s1), BehindKeyword(s2));
    hide ReadHead, EndsCleanly, ReadRows, Contains, ReadInsert, Replayed, AllEffects;
    hide AllInserts, InsertedRows, TakenTexts, SameDestination, SameClause, Join;
    JoinSteps([BehindKeyword(s1), BehindKeyword(s2)]);
    LastOfTwo(BehindKeyword(s1), BehindKeyword(s2));
    JoinedTextsDecide([s1, s2]);
  }

  lemma LastOfTwo(a: string, b: string)
    ensures [a, b][1..] == [b] && Join([b]) == b
  {
  }

  /** The first statement's keyword may be written in any case, for it is not searched for. */
  lemma LowerCaseFirstMerges(table: string, r1: string, r2: string)
    requires PlainName(table) && 'V' !in table
    requires EndsCleanly(" " + r1) && ReadRows(" " + r2).Some? && ReadRows(" " + r2).value.clause == ""
    ensures var list := [PlainInsert("insert", "into", table, "values", r1),
                         PlainInsert("insert", "into", table, "VALUES", r2)];
            Replayed(list) == AllEffects(list)
  {
    ReadsSomeRow(" " + r1);
    PlainInsertIsRead(table, "values", r1);
    PlainInsertIsRead(table, "VALUES", r2);
    FoundInPlainInsert(table, r2);
    hide PlainInsert, ReadHead, EndsCleanly, ReadRows, Contains, Replayed, AllEffects, ReadInsert, PlainName;
    TwoInserts(PlainInsert("insert", "into", table, "values", r1), PlainInsert("insert", "into", table, "VALUES", r2));
  }

  lemma PlainInsertIsRead(table: string, values: string, rows: string)
    requires PlainName(table) && (values == "values" || values == "VALUES")
    ensures var sql := PlainInsert("insert", "into", table, values, rows);
            && sql != "" && BeginsInsert(sql) && BehindKeyword(sql) == " " + rows
            && ReadInsert(sql) == if ReadRows(" " + rows).Some?
                                  then Some(Inserted(IntoTable(table), ReadRows(" " + rows).value)) else None
  {
    LowerSpellings();
    UpperSpellings();
    hide Spells, PlainName, ReadHead, ReadRows;
    ReadPlainInsert("insert", "into", table, values, rows);
    PlainInsertIsText(table, values, rows);
  }

  lemma PlainInsertIsText(table: string, values: string, rows: string)
    ensures PlainInsert("insert", "into", table, values, rows) != ""
  {
    assert |PlainInsert("insert", "into", table, values, rows)| >= 6;
  }
}
