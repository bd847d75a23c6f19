/** The text of an INSERT statement up to its VALUES keyword, and where the bulk replay looks for that keyword. */
module InsertHead {
  import opened BulkMerge
  import opened CStrings

  // ----- Tokens --------------------------------------------------------------------------------

  /** `Name` is an identifier in backquotes; `End` the end of the text, or something no statement may hold. */
  datatype Token = Word(text: string) | Name(text: string) | Symbol(c: char) | End

  predicate WordChar(c: char) {
    'a' <= c <= 'z' || 'A' <= c <= 'Z' || '0' <= c <= '9' || c == '_' || c == '$' || c >= '\U{80}'
  }

  function WordLen(text: string): (n: nat)
    ensures n <= |text|
  {
    if text == [] || !WordChar(text[0]) then 0 else 1 + WordLen(text[1..])
  }

  /** Behind a comment to the end of the line. */
  function AfterLine(text: string): (rest: string)
    ensures |rest| <= |text|
  {
    if text == [] then [] else if text[0] == '\n' then text[1..] else AfterLine(text[1..])
  }

  /** Behind the end of a block comment. */
  function AfterBlock(text: string): (rest: string)
    ensures |rest| <= |text|
  {
    if |text| < 2 then [] else if text[0] == '*' && text[1] == '/' then text[2..] else AfterBlock(text[1..])
  }

  /** The identifier and the text behind its closing backquote; a doubled backquote stands for one. */
  function QuotedName(text: string): (r: Option<(string, string)>)
    ensures r.Some? ==> |r.value.1| < |text|
    decreases |text|
  {
    if text == [] then None
    else if text[0] == '`' && |text| >= 2 && text[1] == '`' then
      match QuotedName(text[2..])
      case None => None
      case Some((name, rest)) => Some((['`'] + name, rest))
    else if text[0] == '`' then Some(([], text[1..]))
    else
      match QuotedName(text[1..])
      case None => None
      case Some((name, rest)) => Some(([text[0]] + name, rest))
  }

  predicate LineCommentAt(text: string) {
    text != [] && (text[0] == '#' || (|text| >= 2 && text[..2] == "--" && (|text| == 2 || text[2] <= ' ')))
  }

  predicate BlockCommentAt(text: string) {
    |text| >= 2 && text[..2] == "/*"
  }

  /** The first token, behind blanks and comments, and the text after it. */
  function NextToken(text: string): (r: (Token, string))
    ensures |r.1| <= |text| && (r.0 != End ==> |r.1| < |text|)
    decreases |text|
  {
    if text == [] then (End, [])
    else if text[0] <= ' ' then NextToken(text[1..])
    else if LineCommentAt(text) then NextToken(AfterLine(text[1..]))
    else if BlockCommentAt(text) then NextToken(AfterBlock(text[2..]))
    else if WordChar(text[0]) then (Word(text[..WordLen(text)]), text[WordLen(text)..])
    else if text[0] == '`' then
      match QuotedName(text[1..])
      case None => (End, [])
      case Some((name, rest)) => (Name(name), rest)
    else (Symbol(text[0]), text[1..])
  }

  // ----- The statement up to its keyword -------------------------------------------------------

  function Upper(c: char): char {
    if 'a' <= c <= 'z' then (c as int - 32) as char else c
  }

  function UpperCase(s: string): (r: string)
    ensures |r| == |s|
  {
    if s == [] then [] else [Upper(s[0])] + UpperCase(s[1..])
  }

  /** An unquoted word is a keyword in any case. */
  predicate Is(t: Token, keyword: string) {
    t.Word? && UpperCase(t.text) == keyword
  }

  predicate IsValues(t: Token) {
    Is(t, VALUES) || Is(t, "VALUE")
  }

  predicate Numeral(s: string) {
    forall c | c in s :: '0' <= c <= '9'
  }

  /** What an INSERT names: REPLACE or INSERT, IGNORE, the table with or without its database, and the columns;
      column names have no case. */
  datatype Destination = Destination(replace: bool, ignore: bool, table: seq<string>, columns: seq<string>)

  /** What the next token may be. */
  datatype Stage =
    | Verb | Priority | Ignore | Into | Table | AfterTable | TableInDatabase
    | AfterName | FirstColumn | Column | AfterColumn | ColumnInTable | Keyword | Done | Wrong

  datatype Head = Head(stage: Stage, into: Destination)

  const BEGIN: Head := Head(Verb, Destination(false, false, [], []))

  /** The keywords of INSERT statements that cannot be names unless quoted. */
  predicate Reserved(word: string) {
    var u := UpperCase(word);
    || u == "INSERT" || u == "REPLACE" || u == "LOW_PRIORITY" || u == "DELAYED" || u == "HIGH_PRIORITY"
    || u == "IGNORE" || u == "INTO" || u == VALUES || u == "SET" || u == "SELECT"
  }

  predicate Identifier(t: Token) {
    t.Name? || (t.Word? && !Numeral(t.text) && !Reserved(t.text))
  }

  /** Behind a dot every word is a name. */
  predicate IdentifierInName(t: Token) {
    t.Name? || t.Word?
  }

  function AtTable(h: Head, t: Token): Head {
    if Identifier(t) then Head(AfterTable, h.into.(table := h.into.table + [t.text])) else h.(stage := Wrong)
  }

  function AtInto(h: Head, t: Token): Head {
    if Is(t, "INTO") then h.(stage := Table) else AtTable(h, t)
  }

  function AtIgnore(h: Head, t: Token): Head {
    if Is(t, "IGNORE") && !h.into.replace then Head(Into, h.into.(ignore := true)) else AtInto(h, t)
  }

  function AtPriority(h: Head, t: Token): Head {
    if Is(t, "LOW_PRIORITY") || Is(t, "DELAYED") || (Is(t, "HIGH_PRIORITY") && !h.into.replace)
    then h.(stage := Ignore)
    else AtIgnore(h, t)
  }

  function AtKeyword(h: Head, t: Token): Head {
    h.(stage := if IsValues(t) then Done else Wrong)
  }

  function AfterTableName(h: Head, t: Token): Head {
    if t == Symbol('(') then h.(stage := FirstColumn) else AtKeyword(h, t)
  }

  function AddColumn(h: Head, t: Token): Head
    requires IdentifierInName(t)
  {
    Head(AfterColumn, h.into.(columns := h.into.columns + [UpperCase(t.text)]))
  }

  function AtColumn(h: Head, t: Token): Head {
    if Identifier(t) then AddColumn(h, t) else h.(stage := Wrong)
  }

  function Accept(h: Head, t: Token): Head {
    match h.stage
    case Verb =>
      if Is(t, "INSERT") then h.(stage := Priority)
      else if Is(t, "REPLACE") then Head(Priority, h.into.(replace := true))
      else h.(stage := Wrong)
    case Priority => AtPriority(h, t)
    case Ignore => AtIgnore(h, t)
    case Into => AtInto(h, t)
    case Table => AtTable(h, t)
    case AfterTable => if t == Symbol('.') then h.(stage := TableInDatabase) else AfterTableName(h, t)
    case TableInDatabase =>
      if IdentifierInName(t) then Head(AfterName, h.into.(table := h.into.table + [t.text])) else h.(stage := Wrong)
    case AfterName => AfterTableName(h, t)
    case FirstColumn => if t == Symbol(')') then h.(stage := Keyword) else AtColumn(h, t)
    case Column => AtColumn(h, t)
    case AfterColumn =>
      if t == Symbol(',') then h.(stage := Column)
      else if t == Symbol(')') then h.(stage := Keyword)
      else if t == Symbol('.') && h.into.columns != [] then
        // what stood before the dot was a table
        Head(ColumnInTable, h.into.(columns := h.into.columns[..|h.into.columns| - 1]))
      else h.(stage := Wrong)
    case ColumnInTable => if IdentifierInName(t) then AddColumn(h, t) else h.(stage := Wrong)
    case Keyword => AtKeyword(h, t)
    case _ => h.(stage := Wrong)
  }

  /** The destination and the text behind the keyword, or None when the text does not begin like an INSERT of rows. */
  function ReadHead(h: Head, text: string): (r: Option<(Destination, string)>)
    ensures r.Some? ==> |r.value.1| <= |text|
    decreases |text|
  {
    if h.stage == Done then Some((h.into, text))
    else
      var (t, rest) := NextToken(text);
      if t == End || Accept(h, t).stage == Wrong then None else ReadHead(Accept(h, t), rest)
  }

  // ----- Text behind the rest does not matter --------------------------------------------------

  lemma {:induction false} WordLenAppend(text: string, more: string)
    requires WordLen(text) < |text|
    ensures WordLen(text + more) == WordLen(text)
  {
    if WordChar(text[0]) {
      assert (text + more)[1..] == text[1..] + more;
      WordLenAppend(text[1..], more);
    }
  }

  lemma {:induction false} AfterLineAppend(text: string, more: string)
    requires AfterLine(text) != ""
    ensures AfterLine(text + more) == AfterLine(text) + more
  {
    assert (text + more)[1..] == text[1..] + more;
    if text[0] != '\n' {
      AfterLineAppend(text[1..], more);
    }
  }

  lemma {:induction false} AfterBlockAppend(text: string, more: string)
    requires AfterBlock(text) != ""
    ensures AfterBlock(text + more) == AfterBlock(text) + more
  {
    assert (text + more)[1..] == text[1..] + more && (text + more)[2..] == text[2..] + more;
    if !(text[0] == '*' && text[1] == '/') {
      AfterBlockAppend(text[1..], more);
    }
  }

  lemma {:induction false} QuotedNameAppend(text: string, more: string)
    requires QuotedName(text).Some? && QuotedName(text).value.1 != ""
    ensures QuotedName(text + more) == Some((QuotedName(text).value.0, QuotedName(text).value.1 + more))
    decreases |text|
  {
    assert (text + more)[1..] == text[1..] + more;
    if text[0] == '`' && |text| >= 2 && text[1] == '`' {
      assert (text + more)[2..] == text[2..] + more;
      QuotedNameAppend(text[2..], more);
    } else if text[0] != '`' {
      QuotedNameAppend(text[1..], more);
    }
  }

  lemma CommentsAppend(text: string, more: string)
    requires |text| >= 1
    ensures BlockCommentAt(text) ==> BlockCommentAt(text + more)
    ensures |text| >= 2 ==> BlockCommentAt(text + more) == BlockCommentAt(text)
    ensures |text| >= 3 || text[0] == '#' ==> LineCommentAt(text + more) == LineCommentAt(text)
    ensures |text| == 2 && !LineCommentAt(text) ==> !LineCommentAt(text + more)
  {
    assert |text| >= 2 ==> (text + more)[..2] == text[..2];
  }

  lemma {:induction false} NextTokenAppend(text: string, more: string)
    requires NextToken(text).1 != ""
    ensures NextToken(text + more) == (NextToken(text).0, NextToken(text).1 + more)
    decreases |text|
  {
    var whole := text + more;
    assert whole[0] == text[0] && whole[1..] == text[1..] + more;
    CommentsAppend(text, more);
    hide LineCommentAt, BlockCommentAt;
    if text[0] <= ' ' {
      NextTokenAppend(text[1..], more);
    } else if LineCommentAt(text) {
      NextTokenNeedsText(AfterLine(text[1..]));
      AfterLineAppend(text[1..], more);
      NextTokenAppend(AfterLine(text[1..]), more);
    } else if BlockCommentAt(text) {
      NextTokenNeedsText(AfterBlock(text[2..]));
      assert whole[2..] == text[2..] + more;
      AfterBlockAppend(text[2..], more);
      NextTokenAppend(AfterBlock(text[2..]), more);
    } else if WordChar(text[0]) {
      WordLenAppend(text, more);
      assert whole[..WordLen(text)] == text[..WordLen(text)] && whole[WordLen(text)..] == text[WordLen(text)..] + more;
    } else if text[0] == '`' {
      QuotedNameAppend(text[1..], more);
    }
  }

  lemma NextTokenNeedsText(text: string)
    ensures NextToken(text).1 != "" ==> text != ""
  {
  }

  /** What follows the rest does not change how the head is read. */
  lemma {:induction false} ReadHeadAppend(h: Head, text: string, more: string)
    requires ReadHead(h, text).Some? && ReadHead(h, text).value.1 != ""
    ensures ReadHead(h, text + more) == Some((ReadHead(h, text).value.0, ReadHead(h, text).value.1 + more))
    decreases |text|
  {
    hide Accept, NextToken;
    if h.stage != Done {
      var (t, rest) := NextToken(text);
      NextTokenAppend(text, more);
      ReadHeadAppend(Accept(h, t), rest, more);
    }
  }

  // ----- Where the bulk replay looks for the keyword -------------------------------------------

  predicate BeginsInsert(sql: string) {
    ReadHead(BEGIN, sql).Some?
  }

  /** The text behind the statement's own keyword. */
  function BehindKeyword(sql: string): (rest: string)
    requires BeginsInsert(sql)
    ensures |rest| <= |sql|
  {
    ReadHead(BEGIN, sql).value.1
  }

  /** The text the replay appends is the text behind the statement's own keyword. */
  predicate KeywordFound(sql: string)
    requires BeginsInsert(sql) && Contains(sql, VALUES)
  {
    Rows(sql) == BehindKeyword(sql)
  }

  lemma {:induction false} NextTokenIsSuffix(text: string)
    ensures NextToken(text).1 == text[|text| - |NextToken(text).1|..]
    decreases |text|
  {
    if text != "" {
      if text[0] <= ' ' {
        NextTokenIsSuffix(text[1..]);
      } else if LineCommentAt(text) {
        AfterLineIsSuffix(text[1..]);
        NextTokenIsSuffix(AfterLine(text[1..]));
      } else if BlockCommentAt(text) {
        AfterBlockIsSuffix(text[2..]);
        NextTokenIsSuffix(AfterBlock(text[2..]));
      } else if text[0] == '`' {
        QuotedNameIsSuffix(text[1..]);
      }
    }
  }

  lemma {:induction false} AfterLineIsSuffix(text: string)
    ensures AfterLine(text) == text[|text| - |AfterLine(text)|..]
  {
    if text != "" && text[0] != '\n' {
      AfterLineIsSuffix(text[1..]);
    }
  }

  lemma {:induction false} AfterBlockIsSuffix(text: string)
    ensures AfterBlock(text) == text[|text| - |AfterBlock(text)|..]
  {
    if |text| >= 2 && !(text[0] == '*' && text[1] == '/') {
      AfterBlockIsSuffix(text[1..]);
    }
  }

  lemma {:induction false} QuotedNameIsSuffix(text: string)
    ensures QuotedName(text).Some? ==> QuotedName(text).value.1 == text[|text| - |QuotedName(text).value.1|..]
    decreases |text|
  {
    if text != "" {
      if text[0] == '`' && |text| >= 2 && text[1] == '`' {
        QuotedNameIsSuffix(text[2..]);
      } else if text[0] != '`' {
        QuotedNameIsSuffix(text[1..]);
      }
    }
  }

  lemma {:induction false} ReadHeadIsSuffix(h: Head, text: string)
    ensures ReadHead(h, text).Some? ==> ReadHead(h, text).value.1 == text[|text| - |ReadHead(h, text).value.1|..]
    decreases |text|
  {
    hide Accept, NextToken;
    if h.stage != Done {
      var (t, rest) := NextToken(text);
      NextTokenIsSuffix(text);
      if t != End {
        ReadHeadIsSuffix(Accept(h, t), rest);
      }
    }
  }

  /** The search finds the statement's own keyword exactly when that is written VALUES, in upper case, and nothing in
      front of it contains those letters. */
  lemma KeywordFoundExactly(sql: string)
    requires BeginsInsert(sql) && Contains(sql, VALUES)
    ensures var head := sql[..|sql| - |BehindKeyword(sql)|];
            KeywordFound(sql) <==>
            |head| >= 6 && head[|head| - 6..] == VALUES && !Contains(head[..|head| - 6], VALUES)
  {
    ReadHeadIsSuffix(BEGIN, sql);
    hide ReadHead;
    var rest := BehindKeyword(sql);
    var n := |sql| - |rest|;
    var head := sql[..n];
    assert sql == head + rest;
    if KeywordFound(sql) {
      var p := Target(sql);
      assert sql == p + VALUES + Rows(sql);
      assert head == p + VALUES;
      assert head[..|p|] == p && head[|p|..] == VALUES;
    }
    if n >= 6 && head[n - 6..] == VALUES && !Contains(head[..n - 6], VALUES) {
      var p := head[..n - 6];
      assert sql == p + VALUES + rest;
      KeywordPosition(p, rest);
    }
  }
  // ----- Reading word by word ------------------------------------------------------------------

  lemma {:induction false} WordLenOf(w: string, rest: string)
    requires forall c | c in w :: WordChar(c)
    requires rest == "" || !WordChar(rest[0])
    ensures WordLen(w + rest) == |w|
  {
    if w == "" {
      assert w + rest == rest;
    } else {
      assert (w + rest)[1..] == w[1..] + rest && w[0] in w;
      WordLenOf(w[1..], rest);
    }
  }

  /** A word followed by a blank is one token. */
  lemma ReadWord(h: Head, w: string, rest: string)
    requires h.stage != Done && w != "" && forall c | c in w :: WordChar(c)
    ensures ReadHead(h, w + (" " + rest)) ==
            if Accept(h, Word(w)).stage == Wrong then None else ReadHead(Accept(h, Word(w)), " " + rest)
  {
    var text := w + (" " + rest);
    WordLenOf(w, " " + rest);
    assert w[0] in w && text[0] == w[0];
    assert text[..|w|] == w && text[|w|..] == " " + rest;
    hide Accept;
    assert NextToken(text) == (Word(w), " " + rest);
  }

  lemma ReadBlank(h: Head, rest: string)
    requires h.stage != Done
    ensures ReadHead(h, " " + rest) == ReadHead(h, rest)
  {
    assert (" " + rest)[1..] == rest;
    hide Accept;
    assert NextToken(" " + rest) == NextToken(rest);
  }

  lemma {:induction false} UpperCaseOf(s: string, u: string)
    requires |s| == |u| && forall i | 0 <= i < |s| :: Upper(s[i]) == u[i]
    ensures UpperCase(s) == u
  {
    if s != "" {
      assert forall i | 0 <= i < |s| - 1 :: s[1..][i] == s[i + 1] && u[1..][i] == u[i + 1];
      UpperCaseOf(s[1..], u[1..]);
      assert u == [u[0]] + u[1..];
    }
  }

  /** `w` is `keyword` in some case. */
  predicate Spells(w: string, keyword: string) {
    w != "" && UpperCase(w) == keyword && forall c | c in w :: WordChar(c)
  }

  predicate PlainName(table: string) {
    table != "" && Identifier(Word(table)) && forall c | c in table :: WordChar(c)
  }

  function IntoTable(table: string): Destination {
    Destination(false, false, [table], [])
  }

  lemma AcceptInsert(verb: string)
    requires UpperCase(verb) == "INSERT"
    ensures Accept(BEGIN, Word(verb)) == BEGIN.(stage := Priority)
  {
    hide UpperCase;
  }

  lemma AcceptInto(into: string)
    requires UpperCase(into) == "INTO"
    ensures Accept(BEGIN.(stage := Priority), Word(into)) == BEGIN.(stage := Table)
  {
    hide UpperCase;
    assert |UpperCase(into)| == 4;
  }

  lemma AcceptTable(table: string)
    requires Identifier(Word(table))
    ensures Accept(BEGIN.(stage := Table), Word(table)) == Head(AfterTable, IntoTable(table))
  {
    hide UpperCase, Numeral, Reserved;
    assert [] + [table] == [table];
  }

  /** Behind `INSERT INTO`. */
  lemma ReadInto(verb: string, into: string, rest: string)
    requires Spells(verb, "INSERT") && Spells(into, "INTO")
    ensures ReadHead(BEGIN, verb + (" " + (into + (" " + rest)))) == ReadHead(BEGIN.(stage := Table), rest)
  {
    AcceptInsert(verb);
    AcceptInto(into);
    hide Accept, ReadHead, UpperCase, WordChar;
    var h1, h2 := BEGIN.(stage := Priority), BEGIN.(stage := Table);
    ReadWord(BEGIN, verb, into + (" " + rest));
    ReadBlank(h1, into + (" " + rest));
    ReadWord(h1, into, rest);
    ReadBlank(h2, rest);
  }

  /** Behind `INSERT INTO` and a table name. */
  lemma ReadInsertInto(verb: string, into: string, table: string, rest: string)
    requires Spells(verb, "INSERT") && Spells(into, "INTO") && PlainName(table)
    ensures ReadHead(BEGIN, verb + (" " + (into + (" " + (table + (" " + rest)))))) ==
            ReadHead(Head(AfterTable, IntoTable(table)), rest)
  {
    AcceptTable(table);
    hide Accept, ReadHead, UpperCase, Numeral, Reserved, WordChar, IntoTable, Spells;
    ReadInto(verb, into, table + (" " + rest));
    ReadWord(BEGIN.(stage := Table), table, rest);
    ReadBlank(Head(AfterTable, IntoTable(table)), rest);
  }

  /** `INSERT INTO table VALUES rows`, in any case. */
  function PlainInsert(verb: string, into: string, table: string, values: string, rows: string): string {
    verb + (" " + (into + (" " + (table + (" " + (values + (" " + rows)))))))
  }

  lemma ReadPlainInsert(verb: string, into: string, table: string, values: string, rows: string)
    requires Spells(verb, "INSERT") && Spells(into, "INTO") && PlainName(table)
    requires Spells(values, VALUES) || Spells(values, "VALUE")
    ensures ReadHead(BEGIN, PlainInsert(verb, into, table, values, rows)) == Some((IntoTable(table), " " + rows))
  {
    ReadInsertInto(verb, into, table, values + (" " + rows));
    var h := Head(AfterTable, IntoTable(table));
    hide UpperCase, WordChar, IntoTable;
    ReadWord(h, values, rows);
    assert Accept(h, Word(values)) == h.(stage := Done);
  }

  /** `INSERT INTO table SET ...` or `SELECT ...` is no INSERT of rows, whatever VALUES() functions it calls. */
  lemma OtherFormIsNoInsertOfRows(verb: string, into: string, table: string, word: string, rest: string)
    requires Spells(verb, "INSERT") && Spells(into, "INTO") && PlainName(table)
    requires Spells(word, UpperCase(word)) && !IsValues(Word(word))
    ensures !BeginsInsert(verb + (" " + (into + (" " + (table + (" " + (word + (" " + rest))))))))
  {
    hide *;
    ReadInsertInto(verb, into, table, word + (" " + rest));
    var h := Head(AfterTable, IntoTable(table));
    OtherWordIsWrong(h, word);
    SpelledIsWord(word, UpperCase(word));
    ReadWord(h, word, rest);
    NoHeadNoInsert(verb + (" " + (into + (" " + (table + (" " + (word + (" " + rest))))))));
  }

  lemma OtherWordIsWrong(h: Head, word: string)
    requires h.stage == AfterTable && !IsValues(Word(word))
    ensures Accept(h, Word(word)).stage == Wrong
  {
    hide IsValues;
  }

  lemma SpelledIsWord(w: string, keyword: string)
    requires Spells(w, keyword)
    ensures w != "" && forall c | c in w :: WordChar(c)
  {
    hide WordChar;
  }

  lemma NoHeadNoInsert(sql: string)
    ensures BeginsInsert(sql) <==> ReadHead(BEGIN, sql).Some?
  {
  }

  lemma SpelledOut(s: string, u: string)
    requires |s| == |u| > 0 && forall i | 0 <= i < |s| :: Upper(s[i]) == u[i] && WordChar(s[i])
    ensures Spells(s, u)
  {
    UpperCaseOf(s, u);
    hide UpperCase, WordChar;
  }

  lemma UpperSpellings()
    ensures Spells("INSERT", "INSERT") && Spells("INTO", "INTO") && Spells("VALUES", VALUES)
  {
    hide Spells;
    SpelledOut("INSERT", "INSERT");
    SpelledOut("INTO", "INTO");
    SpelledOut("VALUES", VALUES);
  }

  lemma LowerSpellings()
    ensures Spells("insert", "INSERT") && Spells("into", "INTO") && Spells("values", VALUES)
  {
    hide Spells;
    SpelledOut("insert", "INSERT");
    SpelledOut("into", "INTO");
    SpelledOut("values", VALUES);
  }

  lemma SetSpelling()
    ensures Spells("SET", UpperCase("SET")) && !IsValues(Word("SET"))
  {
    SpelledOut("SET", "SET");
    hide UpperCase;
    assert |UpperCase("SET")| == 3;
  }

  // ----- The characters and words of the language ----------------------------------------------

  const LOWER := "abcdefghijklmnopqrstuvwxyz"
  const UPPER := "ABCDEFGHIJKLMNOPQRSTUVWXYZ"
  const DIGITS := "0123456789"

  /** Every member of an interval of characters is in the string that lists it. */
  lemma ListedIn(c: char, list: string)
    requires list != "" && forall i | 0 <= i < |list| :: list[i] as int == list[0] as int + i
    ensures c in list <==> list[0] <= c <= list[|list| - 1]
  {
    if list[0] <= c <= list[|list| - 1] {
      assert list[c as int - list[0] as int] == c;
    }
  }

  predicate Listed(c: char) {
    c in LOWER || c in UPPER || c in DIGITS || c == '_' || c == '$' || c as int >= 128
  }

  lemma WordCharIsListed(c: char)
    ensures WordChar(c) <==> Listed(c)
  {
    ListedIn(c, LOWER);
    ListedIn(c, UPPER);
    ListedIn(c, DIGITS);
  }

  /** Words are made of letters, digits, underscores, dollar signs and everything outside ASCII; any other character
      ends one. */
  lemma WordCharacters(w: string, c: char, rest: string)
    requires w != "" && forall d | d in w :: Listed(d)
    ensures !Listed(c) ==> NextToken(w + ([c] + rest)) == (Word(w), [c] + rest)
    ensures Listed(c) ==> NextToken(w + ([c] + rest)).0 != Word(w)
  {
    hide Listed, WordChar;
    forall d ensures WordChar(d) <==> Listed(d) { WordCharIsListed(d); }
    var text := w + ([c] + rest);
    assert w[0] in w && text[0] == w[0];
    WordIsFirst(text);
    if Listed(c) {
      WordLenAtLeast(w + [c], rest);
      assert (w + [c]) + rest == text;
    } else {
      WordLenOf(w, [c] + rest);
      assert text[..|w|] == w && text[|w|..] == [c] + rest;
    }
  }

  lemma WordIsFirst(text: string)
    requires text != "" && WordChar(text[0])
    ensures NextToken(text) == (Word(text[..WordLen(text)]), text[WordLen(text)..])
  {
  }

  lemma {:induction false} WordLenAtLeast(w: string, rest: string)
    requires forall c | c in w :: WordChar(c)
    ensures WordLen(w + rest) >= |w|
  {
    if w != "" {
      assert (w + rest)[1..] == w[1..] + rest && w[0] in w;
      WordLenAtLeast(w[1..], rest);
    }
  }

  /** Case is that of the 26 letters, and of nothing else. */
  lemma UpperIsByAlphabet(c: char)
    ensures if c in LOWER then exists i :: 0 <= i < 26 && c == LOWER[i] && Upper(c) == UPPER[i] else Upper(c) == c
  {
    ListedIn(c, LOWER);
    if c in LOWER {
      var i := c as int - 'a' as int;
      UpperLetter(i);
      hide Upper;
      assert LOWER[i] == c;
    }
  }

  lemma UpperLetter(i: nat)
    requires i < 26
    ensures LOWER[i] as int == 'a' as int + i && UPPER[i] == Upper(LOWER[i])
  {
    assert UPPER[i] as int == 'A' as int + i;
  }

  /** The words that name a table unquoted: all but the keywords, in any case, and the numerals. */
  lemma PlainTables(verb: string, into: string, table: string, values: string, rows: string)
    requires Spells(verb, "INSERT") && Spells(into, "INTO") && (Spells(values, VALUES) || Spells(values, "VALUE"))
    requires table != "" && forall c | c in table :: WordChar(c)
    ensures BeginsInsert(PlainInsert(verb, into, table, values, rows)) <==>
            && (exists c | c in table :: c !in DIGITS)
            && UpperCase(table) !in {"INSERT", "REPLACE", "LOW_PRIORITY", "DELAYED", "HIGH_PRIORITY", "IGNORE", "INTO",
                                     "VALUES", "SET", "SELECT"}
  {
    PlainWords(table);
    hide *;
    PlainNameIs(table);
    if PlainName(table) {
      ReadPlainInsert(verb, into, table, values, rows);
    } else {
      ReadInto(verb, into, table + (" " + (values + (" " + rows))));
      NoTableIsWrong(table);
      ReadWord(BEGIN.(stage := Table), table, values + (" " + rows));
    }
    NoHeadNoInsert(PlainInsert(verb, into, table, values, rows));
    PlainInsertIs(verb, into, table, values, rows);
  }

  lemma PlainInsertIs(verb: string, into: string, table: string, values: string, rows: string)
    ensures PlainInsert(verb, into, table, values, rows) ==
            verb + (" " + (into + (" " + (table + (" " + (values + (" " + rows)))))))
  {
  }

  lemma PlainNameIs(table: string)
    requires table != "" && forall c | c in table :: WordChar(c)
    ensures PlainName(table) <==> Identifier(Word(table))
  {
    hide Identifier, WordChar;
  }

  lemma NoTableIsWrong(table: string)
    requires !Identifier(Word(table))
    ensures Accept(BEGIN.(stage := Table), Word(table)).stage == Wrong
  {
    hide Identifier, UpperCase;
  }

  lemma PlainWords(table: string)
    ensures Identifier(Word(table)) <==>
            && (exists c | c in table :: c !in DIGITS)
            && UpperCase(table) !in {"INSERT", "REPLACE", "LOW_PRIORITY", "DELAYED", "HIGH_PRIORITY", "IGNORE", "INTO",
                                     "VALUES", "SET", "SELECT"}
  {
    hide UpperCase;
    forall c ensures '0' <= c <= '9' <==> c in DIGITS { ListedIn(c, DIGITS); }
  }
}
