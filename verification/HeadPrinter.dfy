/** Printing the head of an INSERT, and that the reader accepts exactly what can be printed. */
module HeadPrinter {
  import opened BulkMerge
  import opened CStrings
  import opened InsertHead
  import opened Sequences

  // ----- Space between tokens ------------------------------------------------------------------

  /** Blanks and comments. */
  datatype Space =
    | Tight
    | Blank(c: char, more: Space)
    | Block(text: string, more: Space)
    | Hash(text: string, more: Space)
    | Dashes(text: string, more: Space)

  function PrintSpace(s: Space): string {
    match s
    case Tight => ""
    case Blank(c, more) => [c] + PrintSpace(more)
    case Block(text, more) => "/*" + (text + ("*/" + PrintSpace(more)))
    case Hash(text, more) => "#" + (text + ("\n" + PrintSpace(more)))
    case Dashes(text, more) => "--" + (text + ("\n" + PrintSpace(more)))
  }

  predicate ValidSpace(s: Space) {
    match s
    case Tight => true
    case Blank(c, more) => c <= ' ' && ValidSpace(more)
    case Block(text, more) => !Contains(text, "*/") && ValidSpace(more)
    case Hash(text, more) => '\n' !in text && ValidSpace(more)
    case Dashes(text, more) => '\n' !in text && (text == "" || text[0] <= ' ') && ValidSpace(more)
  }

  lemma {:induction false} AfterLineOf(text: string, rest: string)
    requires '\n' !in text
    ensures AfterLine(text + ("\n" + rest)) == rest
  {
    var whole := text + ("\n" + rest);
    if text == "" {
      assert whole[1..] == rest;
    } else {
      assert whole[0] == text[0] && text[0] in text && whole[1..] == text[1..] + ("\n" + rest);
      AfterLineOf(text[1..], rest);
    }
  }

  lemma {:induction false} AfterBlockOf(text: string, rest: string)
    requires !Contains(text, "*/")
    ensures AfterBlock(text + ("*/" + rest)) == rest
  {
    var whole := text + ("*/" + rest);
    if text == "" {
      assert whole[2..] == rest;
    } else {
      assert whole[0] == text[0] && whole[1..] == text[1..] + ("*/" + rest);
      if Contains(text[1..], "*/") {
        var k: nat :| k <= |text[1..]| && MatchesAt(text[1..], "*/", k);
        assert text[1..][k..k + 2] == text[k + 1..k + 3];
        assert MatchesAt(text, "*/", k + 1);
      }
      if |text| > 1 {
        assert !MatchesAt(text, "*/", 0);
        assert text[0..2] == [text[0], text[1]];
      }
      assert whole[1] == if |text| > 1 then text[1] else '*';
      AfterBlockOf(text[1..], rest);
    }
  }

  lemma SkipBlock(text: string, after: string)
    requires !Contains(text, "*/")
    ensures NextToken("/*" + (text + ("*/" + after))) == NextToken(after)
  {
    var whole := "/*" + (text + ("*/" + after));
    assert whole[..2] == "/*" && whole[2..] == text + ("*/" + after);
    AfterBlockOf(text, after);
    hide Contains, AfterBlock;
  }

  lemma SkipHash(text: string, after: string)
    requires '\n' !in text
    ensures NextToken("#" + (text + ("\n" + after))) == NextToken(after)
  {
    var whole := "#" + (text + ("\n" + after));
    assert whole[1..] == text + ("\n" + after);
    AfterLineOf(text, after);
    hide AfterLine;
  }

  lemma SkipDashes(text: string, after: string)
    requires '\n' !in text && (text == "" || text[0] <= ' ')
    ensures NextToken("--" + (text + ("\n" + after))) == NextToken(after)
  {
    var whole := "--" + (text + ("\n" + after));
    assert whole[..2] == "--" && whole[2] == if text == "" then '\n' else text[0];
    assert whole[1..] == ("-" + text) + ("\n" + after);
    AfterLineOf("-" + text, after);
    hide AfterLine;
  }

  /** Space is skipped. */
  lemma {:induction false} SkipSpace(s: Space, rest: string)
    requires ValidSpace(s)
    ensures NextToken(PrintSpace(s) + rest) == NextToken(rest)
    decreases s
  {
    hide NextToken, Contains;
    match s
    case Tight =>
      assert PrintSpace(s) + rest == rest;
    case Blank(c, more) =>
      SkipSpace(more, rest);
      Associative([c], PrintSpace(more), rest);
      SkipBlank(c, PrintSpace(more) + rest);
    case Block(text, more) =>
      SkipSpace(more, rest);
      AssociativeFour("/*", text, "*/", PrintSpace(more), rest);
      SkipBlock(text, PrintSpace(more) + rest);
    case Hash(text, more) =>
      SkipSpace(more, rest);
      AssociativeFour("#", text, "\n", PrintSpace(more), rest);
      SkipHash(text, PrintSpace(more) + rest);
    case Dashes(text, more) =>
      SkipSpace(more, rest);
      AssociativeFour("--", text, "\n", PrintSpace(more), rest);
      SkipDashes(text, PrintSpace(more) + rest);
  }

  lemma SkipBlank(c: char, after: string)
    requires c <= ' '
    ensures NextToken([c] + after) == NextToken(after)
  {
    assert ([c] + after)[1..] == after;
  }

  // ----- Tokens --------------------------------------------------------------------------------

  function Doubled(name: string): string {
    if name == "" then "" else (if name[0] == '`' then "``" else [name[0]]) + Doubled(name[1..])
  }

  function TokenText(t: Token): string {
    match t
    case Word(w) => w
    case Name(n) => "`" + (Doubled(n) + "`")
    case Symbol(c) => [c]
    case End => ""
  }

  predicate IsWord(w: string) {
    w != "" && forall c | c in w :: WordChar(c)
  }

  predicate ValidToken(t: Token) {
    match t
    case Word(w) => IsWord(w)
    case Name(_) => true
    case Symbol(c) => c > ' ' && !WordChar(c) && c != '`' && c != '#'
    case End => false
  }

  /** What follows does not run into the token. */
  predicate Stands(t: Token, rest: string) {
    match t
    case Word(_) => rest == "" || !WordChar(rest[0])
    case Name(_) => rest == "" || rest[0] != '`'
    case Symbol(c) => !LineCommentAt([c] + rest) && !BlockCommentAt([c] + rest)
    case End => false
  }

  lemma QuotedStep(c: char, tail: string)
    requires QuotedName(tail).Some?
    ensures var (name, rest) := QuotedName(tail).value;
            QuotedName((if c == '`' then "``" else [c]) + tail) == Some(([c] + name, rest))
  {
    if c == '`' {
      assert ("``" + tail)[2..] == tail;
    } else {
      assert ([c] + tail)[1..] == tail;
    }
  }

  lemma {:induction false} QuotedNameOf(name: string, rest: string)
    requires rest == "" || rest[0] != '`'
    ensures QuotedName(Doubled(name) + ("`" + rest)) == Some((name, rest))
  {
    if name == "" {
      var whole := "`" + rest;
      assert Doubled(name) + whole == whole && whole[1..] == rest;
    } else {
      QuotedNameOf(name[1..], rest);
      hide QuotedName;
      QuotedStep(name[0], Doubled(name[1..]) + ("`" + rest));
      Associative(if name[0] == '`' then "``" else [name[0]], Doubled(name[1..]), "`" + rest);
      assert name == [name[0]] + name[1..];
    }
  }

  lemma ReadWordToken(w: string, rest: string)
    requires IsWord(w) && (rest == "" || !WordChar(rest[0]))
    ensures NextToken(w + rest) == (Word(w), rest)
  {
    var whole := w + rest;
    WordLenOf(w, rest);
    assert whole[0] == w[0] && w[0] in w;
    assert WordChar(whole[0]);
    assert whole[..|w|] == w && whole[|w|..] == rest;
    hide WordLen;
    assert !LineCommentAt(whole) && !BlockCommentAt(whole);
    hide LineCommentAt, BlockCommentAt;
  }

  lemma ReadNameToken(n: string, rest: string)
    requires rest == "" || rest[0] != '`'
    ensures NextToken("`" + (Doubled(n) + ("`" + rest))) == (Name(n), rest)
  {
    var whole := "`" + (Doubled(n) + ("`" + rest));
    assert whole[1..] == Doubled(n) + ("`" + rest);
    QuotedNameOf(n, rest);
    hide QuotedName, Doubled;
    assert whole[0] == '`';
    assert |whole| >= 2 ==> whole[..2][0] == '`';
  }

  lemma ReadToken(t: Token, rest: string)
    requires ValidToken(t) && Stands(t, rest)
    ensures NextToken(TokenText(t) + rest) == (t, rest)
  {
    match t
    case Word(w) =>
      hide NextToken, WordChar, IsWord;
      ReadWordToken(w, rest);
    case Name(n) =>
      hide NextToken;
      Associative(Doubled(n), "`", rest);
      Associative("`", Doubled(n) + "`", rest);
      ReadNameToken(n, rest);
    case Symbol(c) =>
      assert ([c] + rest)[1..] == rest;
  }

  /** A token with the space in front of it. */
  datatype Lexeme = Lexeme(space: Space, token: Token)

  function PrintLexemes(ls: seq<Lexeme>): string {
    if ls == [] then "" else PrintSpace(ls[0].space) + (TokenText(ls[0].token) + PrintLexemes(ls[1..]))
  }

  function Tokens(ls: seq<Lexeme>): (ts: seq<Token>)
    ensures |ts| == |ls|
  {
    if ls == [] then [] else [ls[0].token] + Tokens(ls[1..])
  }

  /** Every token is written so that what follows does not run into it. */
  predicate Printable(ls: seq<Lexeme>, tail: string) {
    ls == [] ||
    (&& ValidSpace(ls[0].space) && ValidToken(ls[0].token)
     && Stands(ls[0].token, PrintLexemes(ls[1..]) + tail)
     && Printable(ls[1..], tail))
  }

  lemma ReadLexeme(space: Space, t: Token, rest: string)
    requires ValidSpace(space) && ValidToken(t) && Stands(t, rest)
    ensures NextToken(PrintSpace(space) + (TokenText(t) + rest)) == (t, rest)
  {
    hide *;
    SkipSpace(space, TokenText(t) + rest);
    ReadToken(t, rest);
  }

  function AcceptAll(h: Head, ts: seq<Token>): Head
    decreases |ts|
  {
    if ts == [] then h else AcceptAll(Accept(h, ts[0]), ts[1..])
  }

  lemma {:induction false} WrongStays(h: Head, ts: seq<Token>)
    requires h.stage == Wrong || (h.stage == Done && ts != [])
    ensures AcceptAll(h, ts).stage == Wrong
    decreases |ts|
  {
    if ts != [] {
      assert Accept(h, ts[0]).stage == Wrong;
      hide Accept;
      WrongStays(Accept(h, ts[0]), ts[1..]);
    }
  }

  /** Printed tokens are read one by one. */
  lemma {:induction false} ReadLexemes(h: Head, ls: seq<Lexeme>, tail: string)
    requires Printable(ls, tail) && AcceptAll(h, Tokens(ls)).stage == Done
    ensures ReadHead(h, PrintLexemes(ls) + tail) == Some((AcceptAll(h, Tokens(ls)).into, tail))
    decreases |ls|
  {
    if ls == [] {
      assert PrintLexemes(ls) + tail == tail;
      hide Accept, NextToken;
    } else {
      var t, rest := ls[0].token, PrintLexemes(ls[1..]) + tail;
      var next := Accept(h, t);
      assert Tokens(ls)[1..] == Tokens(ls[1..]);
      StageStays(h, t, Tokens(ls[1..]));
      ReadLexeme(ls[0].space, t, rest);
      hide Accept, NextToken, PrintSpace, TokenText, Stands, ValidSpace, ValidToken;
      LexemeText(ls, tail);
      ReadLexemes(next, ls[1..], tail);
    }
  }

  lemma StageStays(h: Head, t: Token, ts: seq<Token>)
    ensures AcceptAll(Accept(h, t), ts).stage == Done ==> h.stage != Done && Accept(h, t).stage != Wrong
  {
    if h.stage == Done {
      assert Accept(h, t).stage == Wrong;
    }
    hide Accept;
    if Accept(h, t).stage == Wrong {
      WrongStays(Accept(h, t), ts);
    }
  }

  lemma LexemeText(ls: seq<Lexeme>, tail: string)
    requires ls != []
    ensures PrintLexemes(ls) + tail ==
            PrintSpace(ls[0].space) + (TokenText(ls[0].token) + (PrintLexemes(ls[1..]) + tail))
  {
    hide PrintSpace, TokenText;
    Associative(TokenText(ls[0].token), PrintLexemes(ls[1..]), tail);
    Associative(PrintSpace(ls[0].space), TokenText(ls[0].token) + PrintLexemes(ls[1..]), tail);
  }
  // ----- Every token read was printed ----------------------------------------------------------

  lemma {:induction false} LineBefore(text: string) returns (line: string)
    requires AfterLine(text) != ""
    ensures text == line + ("\n" + AfterLine(text)) && '\n' !in line
  {
    if text[0] == '\n' {
      line := "";
      assert text == "\n" + text[1..];
    } else {
      var more := LineBefore(text[1..]);
      line := [text[0]] + more;
      assert text == [text[0]] + text[1..];
    }
  }

  lemma NoEndInFront(c: char, more: string)
    requires !Contains(more, "*/") && !(c == '*' && more != "" && more[0] == '/')
    ensures !Contains([c] + more, "*/")
  {
    var block := [c] + more;
    if Contains(block, "*/") {
      var k: nat :| k <= |block| && MatchesAt(block, "*/", k);
      assert block[k..k + 2] == [block[k], block[k + 1]];
      if k > 0 {
        assert more[k - 1..k + 1] == [more[k - 1], more[k]];
        assert MatchesAt(more, "*/", k - 1);
      }
    }
  }

  lemma {:induction false} BlockBefore(text: string) returns (block: string)
    requires AfterBlock(text) != ""
    ensures text == block + ("*/" + AfterBlock(text)) && !Contains(block, "*/")
  {
    hide Contains;
    if text[0] == '*' && text[1] == '/' {
      block := "";
      EmptyHasNoEnd();
      assert text == "*/" + text[2..];
    } else {
      var more := BlockBefore(text[1..]);
      block := [text[0]] + more;
      assert text == [text[0]] + text[1..];
      assert more != "" ==> more[0] == text[1];
      NoEndInFront(text[0], more);
    }
  }

  lemma EmptyHasNoEnd()
    ensures !Contains("", "*/")
  {
  }

  lemma {:induction false} NameBefore(text: string)
    requires QuotedName(text).Some?
    ensures var (name, rest) := QuotedName(text).value;
            text == Doubled(name) + ("`" + rest) && (rest == "" || rest[0] != '`')
    decreases |text|
  {
    hide Doubled;
    if text[0] == '`' && |text| >= 2 && text[1] == '`' {
      NameBefore(text[2..]);
      var (more, rest) := QuotedName(text[2..]).value;
      hide QuotedName;
      DoubledInFront('`', more, "`" + rest);
      assert text == "``" + text[2..];
    } else if text[0] == '`' {
      NothingDoubled("`" + text[1..]);
      assert text == "`" + text[1..];
    } else {
      NameBefore(text[1..]);
      var (more, rest) := QuotedName(text[1..]).value;
      hide QuotedName;
      DoubledInFront(text[0], more, "`" + rest);
      assert text == [text[0]] + text[1..];
    }
  }

  lemma DoubledInFront(c: char, name: string, tail: string)
    ensures Doubled([c] + name) + tail == (if c == '`' then "``" else [c]) + (Doubled(name) + tail)
  {
    assert ([c] + name)[1..] == name;
    Associative(if c == '`' then "``" else [c], Doubled(name), tail);
  }

  lemma NothingDoubled(tail: string)
    ensures Doubled("") + tail == tail
  {
  }

  lemma {:induction false} WordBefore(text: string)
    ensures var n := WordLen(text);
            && (forall i | 0 <= i < n :: WordChar(text[i]))
            && (n < |text| ==> !WordChar(text[n]))
  {
    hide WordChar;
    if text != "" && WordChar(text[0]) {
      var n := WordLen(text);
      WordBefore(text[1..]);
      assert forall i | 1 <= i < |text| :: text[i] == text[1..][i - 1];
    }
  }

  predicate IsLexeme(space: Space, t: Token, rest: string, text: string) {
    ValidSpace(space) && ValidToken(t) && Stands(t, rest) && text == PrintSpace(space) + (TokenText(t) + rest)
  }

  lemma TightLexeme(t: Token, rest: string, text: string)
    requires ValidToken(t) && Stands(t, rest) && text == TokenText(t) + rest
    ensures IsLexeme(Tight, t, rest, text)
  {
    hide ValidToken, Stands, TokenText;
    assert "" + (TokenText(t) + rest) == text;
  }

  lemma BareWord(text: string)
    requires text != "" && WordChar(text[0])
    ensures var w, rest := text[..WordLen(text)], text[WordLen(text)..];
            ValidToken(Word(w)) && Stands(Word(w), rest) && text == TokenText(Word(w)) + rest
  {
    WordBefore(text);
    var n := WordLen(text);
    assert n > 0;
    hide WordChar, WordLen;
    var w, rest := text[..n], text[n..];
    assert text == w + rest;
    assert rest != "" ==> rest[0] == text[n];
    forall c | c in w ensures WordChar(c) {
      var i :| 0 <= i < |w| && w[i] == c;
      assert w[i] == text[i];
    }
  }

  lemma BareName(text: string)
    requires text != "" && text[0] == '`' && QuotedName(text[1..]).Some?
    ensures var (n, rest) := QuotedName(text[1..]).value;
            ValidToken(Name(n)) && Stands(Name(n), rest) && text == TokenText(Name(n)) + rest
  {
    NameBefore(text[1..]);
    var (n, rest) := QuotedName(text[1..]).value;
    hide QuotedName, Doubled;
    assert text == "`" + text[1..];
    Associative(Doubled(n), "`", rest);
    Associative("`", Doubled(n) + "`", rest);
  }

  lemma BareSymbol(text: string)
    requires text != "" && text[0] > ' ' && !WordChar(text[0]) && text[0] != '`'
    requires !LineCommentAt(text) && !BlockCommentAt(text)
    ensures ValidToken(Symbol(text[0])) && Stands(Symbol(text[0]), text[1..])
    ensures text == TokenText(Symbol(text[0])) + text[1..]
  {
    assert text == [text[0]] + text[1..];
    assert text[0] != '#';
    hide BlockCommentAt;
  }

  /** What the next token is where neither blank nor comment stands. */
  lemma TokenCases(text: string)
    requires text != "" && text[0] > ' ' && !LineCommentAt(text) && !BlockCommentAt(text)
    ensures WordChar(text[0]) ==> NextToken(text) == (Word(text[..WordLen(text)]), text[WordLen(text)..])
    ensures !WordChar(text[0]) && text[0] == '`' ==>
              var name := QuotedName(text[1..]);
              NextToken(text) == if name.Some? then (Name(name.value.0), name.value.1) else (End, [])
    ensures !WordChar(text[0]) && text[0] != '`' ==> NextToken(text) == (Symbol(text[0]), text[1..])
  {
    hide WordChar, WordLen, QuotedName, LineCommentAt, BlockCommentAt;
  }

  lemma BareToken(text: string)
    requires text != "" && text[0] > ' ' && !LineCommentAt(text) && !BlockCommentAt(text) && NextToken(text).0 != End
    ensures IsLexeme(Tight, NextToken(text).0, NextToken(text).1, text)
  {
    hide *;
    TokenCases(text);
    if WordChar(text[0]) {
      BareWord(text);
    } else if text[0] == '`' {
      BareName(text);
    } else {
      BareSymbol(text);
    }
    TightLexeme(NextToken(text).0, NextToken(text).1, text);
  }

  /** Whatever token is read, the text is that token printed behind some space. */
  lemma {:induction false} TokenWasPrinted(text: string) returns (space: Space)
    requires NextToken(text).0 != End
    ensures IsLexeme(space, NextToken(text).0, NextToken(text).1, text)
    decreases |text|
  {
    var (t, rest) := NextToken(text);
    hide IsLexeme;
    if text[0] <= ' ' {
      var more := TokenWasPrinted(text[1..]);
      space := Blank(text[0], more);
      BlankInFront(text, more, t, rest);
    } else if LineCommentAt(text) {
      var after := AfterLine(text[1..]);
      NonEmptyForToken(after);
      var line := LineBefore(text[1..]);
      var more := TokenWasPrinted(after);
      if text[0] == '#' {
        space := Hash(line, more);
        HashInFront(text, line, after, more, t, rest);
      } else {
        DashesInFront(text, line, after, more, t, rest);
        space := Dashes(line[1..], more);
      }
    } else if BlockCommentAt(text) {
      var after := AfterBlock(text[2..]);
      NonEmptyForToken(after);
      var block := BlockBefore(text[2..]);
      var more := TokenWasPrinted(after);
      space := Block(block, more);
      BlockInFront(text, block, after, more, t, rest);
    } else {
      space := Tight;
      BareToken(text);
    }
  }

  lemma NonEmptyForToken(text: string)
    ensures NextToken(text).0 != End ==> text != ""
  {
  }

  lemma BlankInFront(text: string, more: Space, t: Token, rest: string)
    requires text != "" && text[0] <= ' ' && IsLexeme(more, t, rest, text[1..])
    ensures IsLexeme(Blank(text[0], more), t, rest, text)
  {
    hide TokenText, Stands;
    Associative([text[0]], PrintSpace(more), TokenText(t) + rest);
    assert text == [text[0]] + text[1..];
  }

  lemma HashInFront(text: string, line: string, after: string, more: Space, t: Token, rest: string)
    requires text != "" && text[0] == '#' && '\n' !in line && text[1..] == line + ("\n" + after)
    requires IsLexeme(more, t, rest, after)
    ensures IsLexeme(Hash(line, more), t, rest, text)
  {
    hide TokenText, Stands;
    assert text == "#" + text[1..];
    AssociativeFour("#", line, "\n", PrintSpace(more), TokenText(t) + rest);
  }

  lemma DashesInFront(text: string, line: string, after: string, more: Space, t: Token, rest: string)
    requires LineCommentAt(text) && text[0] == '-' && '\n' !in line && text[1..] == line + ("\n" + after)
    requires IsLexeme(more, t, rest, after)
    ensures line != "" && IsLexeme(Dashes(line[1..], more), t, rest, text)
  {
    hide TokenText, Stands, IsLexeme;
    assert text[..2][1] == '-' && text[1..][0] == '-';
    assert line != "" && line[0] == '-';
    var body := line[1..];
    assert line == "-" + body;
    assert text[1..][1] == if body != "" then body[0] else '\n';
    assert text == "--" + (body + ("\n" + after));
    DashesLexeme(body, after, more, t, rest);
  }

  lemma DashesLexeme(body: string, after: string, more: Space, t: Token, rest: string)
    requires '\n' !in body && (body == "" || body[0] <= ' ') && IsLexeme(more, t, rest, after)
    ensures IsLexeme(Dashes(body, more), t, rest, "--" + (body + ("\n" + after)))
  {
    hide TokenText, Stands;
    AssociativeFour("--", body, "\n", PrintSpace(more), TokenText(t) + rest);
  }

  lemma BlockInFront(text: string, block: string, after: string, more: Space, t: Token, rest: string)
    requires BlockCommentAt(text) && !Contains(block, "*/") && text[2..] == block + ("*/" + after)
    requires IsLexeme(more, t, rest, after)
    ensures IsLexeme(Block(block, more), t, rest, text)
  {
    hide TokenText, Stands, Contains;
    assert text == "/*" + text[2..];
    AssociativeFour("/*", block, "*/", PrintSpace(more), TokenText(t) + rest);
  }

  /** Whatever head is read, the text is that head printed. */
  lemma {:induction false} HeadWasPrinted(h: Head, text: string) returns (ls: seq<Lexeme>)
    requires ReadHead(h, text).Some?
    ensures var (into, rest) := ReadHead(h, text).value;
            && Printable(ls, rest) && text == PrintLexemes(ls) + rest
            && AcceptAll(h, Tokens(ls)) == Head(Done, into)
    decreases |text|
  {
    var (into, rest) := ReadHead(h, text).value;
    if h.stage == Done {
      ls := [];
      assert text == PrintLexemes(ls) + rest;
    } else {
      var (t, after) := NextToken(text);
      var space := TokenWasPrinted(text);
      var more := HeadWasPrinted(Accept(h, t), after);
      ls := [Lexeme(space, t)] + more;
      hide Accept, NextToken, PrintSpace, TokenText, Stands, ValidSpace, ValidToken;
      assert ls[1..] == more;
      LexemeText(ls, rest);
    }
  }

  // ----- The parts of a head -------------------------------------------------------------------

  /** A column, perhaps behind names of its table and database. */
  datatype ColumnName = ColumnName(qualifiers: seq<Token>, name: Token)

  /** "" stands for a word left out. */
  datatype Parts = Parts(verb: string, priority: string, ignore: string, into: string, database: Option<Token>,
                         table: Token, columns: Option<seq<ColumnName>>, keyword: string)

  predicate Replaces(p: Parts) {
    Is(Word(p.verb), "REPLACE")
  }

  predicate ValidColumn(c: ColumnName) {
    if c.qualifiers == [] then Identifier(c.name)
    else Identifier(c.qualifiers[0]) && IdentifierInName(c.name) && forall t | t in c.qualifiers :: IdentifierInName(t)
  }

  predicate ValidColumns(cs: seq<ColumnName>) {
    cs == [] || (ValidColumn(cs[0]) && ValidColumns(cs[1..]))
  }

  predicate ValidParts(p: Parts) {
    && (Is(Word(p.verb), "INSERT") || Replaces(p))
    && (p.priority != "" ==>
          || Is(Word(p.priority), "LOW_PRIORITY") || Is(Word(p.priority), "DELAYED")
          || (Is(Word(p.priority), "HIGH_PRIORITY") && !Replaces(p)))
    && (p.ignore != "" ==> Is(Word(p.ignore), "IGNORE") && !Replaces(p))
    && (p.into != "" ==> Is(Word(p.into), "INTO"))
    && (if p.database.Some? then Identifier(p.database.value) && IdentifierInName(p.table) else Identifier(p.table))
    && (p.columns.Some? ==> ValidColumns(p.columns.value))
    && IsValues(Word(p.keyword))
  }

  /** The destination the parts denote. */
  function DestinationOf(p: Parts): Destination
    requires ValidParts(p)
  {
    Destination(Replaces(p), p.ignore != "",
                (if p.database.Some? then [p.database.value.text] else []) + [p.table.text],
                if p.columns.Some? then ColumnNames(p.columns.value) else [])
  }

  function ColumnNames(cs: seq<ColumnName>): seq<string>
    requires ValidColumns(cs)
  {
    if cs == [] then [] else [UpperCase(cs[0].name.text)] + ColumnNames(cs[1..])
  }

  function Optional(word: string): seq<Token> {
    if word == "" then [] else [Word(word)]
  }

  function Dotted(ts: seq<Token>): seq<Token> {
    if ts == [] then [] else [ts[0], Symbol('.')] + Dotted(ts[1..])
  }

  function ColumnTokens(cs: seq<ColumnName>): seq<Token> {
    if cs == [] then []
    else Dotted(cs[0].qualifiers) + ([cs[0].name] + (if |cs| == 1 then [] else [Symbol(',')] + ColumnTokens(cs[1..])))
  }

  function TableTokens(p: Parts): seq<Token> {
    (if p.database.Some? then [p.database.value, Symbol('.')] else []) + [p.table]
  }

  function ListTokens(p: Parts): seq<Token> {
    if p.columns.Some? then [Symbol('(')] + (ColumnTokens(p.columns.value) + [Symbol(')')]) else []
  }

  function HeadTokens(p: Parts): seq<Token> {
    [Word(p.verb)] + (Optional(p.priority) + (Optional(p.ignore) + (Optional(p.into) +
      (TableTokens(p) + (ListTokens(p) + [Word(p.keyword)])))))
  }
  lemma {:induction false} AcceptConcat(h: Head, a: seq<Token>, b: seq<Token>)
    ensures AcceptAll(h, a + b) == AcceptAll(AcceptAll(h, a), b)
    decreases |a|
  {
    hide Accept;
    if a == [] {
      assert a + b == b;
    } else {
      assert (a + b)[1..] == a[1..] + b;
      AcceptConcat(Accept(h, a[0]), a[1..], b);
    }
  }

  lemma AcceptOne(h: Head, t: Token)
    ensures AcceptAll(h, [t]) == Accept(h, t)
  {
    hide Accept;
    assert AcceptAll(Accept(h, t), [t][1..]) == Accept(h, t);
  }

  /** Where a column name may begin. */
  predicate AtName(h: Head, t: Token) {
    if h.stage == ColumnInTable then IdentifierInName(t)
    else (h.stage == FirstColumn || h.stage == Stage.Column) && Identifier(t)
  }

  function WithColumns(h: Head, names: seq<string>): Head {
    Head(AfterColumn, h.into.(columns := h.into.columns + names))
  }

  lemma AcceptName(h: Head, t: Token)
    requires AtName(h, t)
    ensures Accept(h, t) == WithColumns(h, [UpperCase(t.text)])
    ensures Accept(Accept(h, t), Symbol('.')) == Head(ColumnInTable, h.into)
  {
    hide UpperCase, Numeral, Reserved;
    var names := h.into.columns + [UpperCase(t.text)];
    assert names[..|names| - 1] == h.into.columns;
  }

  lemma {:induction false} AcceptColumn(h: Head, q: seq<Token>, name: Token)
    requires AtName(h, if q == [] then name else q[0])
    requires q != [] ==> IdentifierInName(name) && forall t | t in q :: IdentifierInName(t)
    ensures (name.Word? || name.Name?) && AcceptAll(h, Dotted(q) + [name]) == WithColumns(h, [UpperCase(name.text)])
    decreases |q|
  {
    hide Accept, UpperCase;
    if q == [] {
      assert Dotted(q) + [name] == [name];
      AcceptName(h, name);
      AcceptOne(h, name);
    } else {
      AcceptName(h, q[0]);
      var h' := Head(ColumnInTable, h.into);
      assert q[1..] != [] ==> q[1] in q;
      assert forall t | t in q[1..] :: t in q;
      AcceptColumn(h', q[1..], name);
      var rest := Dotted(q[1..]) + [name];
      assert Dotted(q) + [name] == [q[0]] + ([Symbol('.')] + rest);
      AcceptConcat(h, [q[0]], [Symbol('.')] + rest);
      AcceptConcat(Accept(h, q[0]), [Symbol('.')], rest);
      AcceptOne(h, q[0]);
      AcceptOne(Accept(h, q[0]), Symbol('.'));
    }
  }

  lemma ColumnTokensCons(c: ColumnName, cs: seq<ColumnName>)
    requires cs != []
    ensures ColumnTokens([c] + cs) == Dotted(c.qualifiers) + ([c.name] + ([Symbol(',')] + ColumnTokens(cs)))
  {
    assert ([c] + cs)[1..] == cs;
  }

  lemma {:induction false} AcceptColumns(h: Head, cs: seq<ColumnName>)
    requires cs != [] && ValidColumns(cs) && (h.stage == FirstColumn || h.stage == Stage.Column)
    ensures AcceptAll(h, ColumnTokens(cs)) == WithColumns(h, ColumnNames(cs))
    decreases |cs|
  {
    var c := cs[0];
    var one, name := Dotted(c.qualifiers) + [c.name], UpperCase(c.name.text);
    ColumnBegins(h, c);
    AcceptColumn(h, c.qualifiers, c.name);
    if |cs| == 1 {
      hide Accept, AcceptAll, UpperCase, ValidColumn;
      assert ColumnTokens(cs) == one;
      assert ColumnNames(cs) == [name] + [] == [name];
    } else {
      var h1 := WithColumns(h, [name]);
      var h2 := h1.(stage := Stage.Column);
      var rest := ColumnTokens(cs[1..]);
      assert Accept(h1, Symbol(',')) == h2;
      hide Accept, AcceptAll, UpperCase, ValidColumn, ColumnTokens, Dotted;
      AcceptColumns(h2, cs[1..]);
      ColumnTokensCons(c, cs[1..]);
      assert cs == [c] + cs[1..];
      Associative(Dotted(c.qualifiers), [c.name], [Symbol(',')] + rest);
      AcceptConcat(h, one, [Symbol(',')] + rest);
      AcceptConcat(h1, [Symbol(',')], rest);
      AcceptOne(h1, Symbol(','));
      Associative(h.into.columns, [name], ColumnNames(cs[1..]));
    }
  }

  lemma ColumnBegins(h: Head, c: ColumnName)
    requires ValidColumn(c) && (h.stage == FirstColumn || h.stage == Stage.Column)
    ensures AtName(h, if c.qualifiers == [] then c.name else c.qualifiers[0])
  {
    hide Numeral, Reserved;
  }

  /** The stages in front of the table name. */
  predicate BeforeTable(stage: Stage) {
    stage == Priority || stage == Ignore || stage == Into || stage == Table
  }

  lemma AcceptFirstName(h: Head, t: Token)
    requires BeforeTable(h.stage) && Identifier(t)
    ensures Accept(h, t) == Head(AfterTable, h.into.(table := h.into.table + [t.text]))
  {
    hide UpperCase, Numeral;
  }

  /** The words in front of the table name. */
  lemma AcceptWords(p: Parts)
    requires ValidParts(p)
    ensures var words := [Word(p.verb)] + (Optional(p.priority) + (Optional(p.ignore) + Optional(p.into)));
            var h := AcceptAll(BEGIN, words);
            BeforeTable(h.stage) && h.into == Destination(Replaces(p), p.ignore != "", [], [])
  {
    hide UpperCase, Numeral, Reserved, IsValues, ValidColumns;
    var d := Destination(Replaces(p), false, [], []);
    var h1 := Head(Priority, d);
    assert Accept(BEGIN, Word(p.verb)) == h1;
    var h2 := if p.priority == "" then h1 else Head(Ignore, d);
    assert p.priority != "" ==> Accept(h1, Word(p.priority)) == h2;
    var h3 := if p.ignore == "" then h2 else Head(Into, d.(ignore := true));
    assert p.ignore != "" ==> Accept(h2, Word(p.ignore)) == h3;
    var h4 := if p.into == "" then h3 else h3.(stage := Table);
    assert p.into != "" ==> Accept(h3, Word(p.into)) == h4;
    hide Accept, ValidParts, Replaces, Is;
    AcceptOptional(h1, p.priority);
    AcceptOptional(h2, p.ignore);
    AcceptOptional(h3, p.into);
    AcceptOne(BEGIN, Word(p.verb));
    AcceptConcat(BEGIN, [Word(p.verb)], Optional(p.priority) + (Optional(p.ignore) + Optional(p.into)));
    AcceptConcat(h1, Optional(p.priority), Optional(p.ignore) + Optional(p.into));
    AcceptConcat(h2, Optional(p.ignore), Optional(p.into));
  }

  lemma AcceptOptional(h: Head, word: string)
    ensures AcceptAll(h, Optional(word)) == if word == "" then h else Accept(h, Word(word))
  {
    AcceptOne(h, Word(word));
  }

  predicate AfterTheTable(stage: Stage) {
    stage == AfterTable || stage == AfterName
  }

  lemma AcceptTable2(h: Head, p: Parts)
    requires ValidParts(p) && BeforeTable(h.stage) && h.into.table == []
    ensures var h' := AcceptAll(h, TableTokens(p));
            AfterTheTable(h'.stage) && h'.into == h.into.(table := DestinationOf(p).table)
  {
    hide UpperCase, Numeral, Reserved, IsValues, ValidColumns;
    if p.database.Some? {
      var db := p.database.value;
      AcceptFirstName(h, db);
      var h1 := Accept(h, db);
      var h2 := h1.(stage := TableInDatabase);
      assert Accept(h1, Symbol('.')) == h2;
      assert Accept(h2, p.table) == Head(AfterName, h2.into.(table := h2.into.table + [p.table.text]));
      hide Accept;
      assert TableTokens(p) == [db] + ([Symbol('.')] + [p.table]);
      AcceptConcat(h, [db], [Symbol('.')] + [p.table]);
      AcceptConcat(h1, [Symbol('.')], [p.table]);
      AcceptOne(h, db);
      AcceptOne(h1, Symbol('.'));
      AcceptOne(h2, p.table);
    } else {
      AcceptFirstName(h, p.table);
      assert TableTokens(p) == [p.table];
      AcceptOne(h, p.table);
    }
  }

  predicate BeforeKeyword(stage: Stage) {
    AfterTheTable(stage) || stage == Keyword
  }

  lemma AcceptList(h: Head, p: Parts)
    requires ValidParts(p) && AfterTheTable(h.stage) && h.into.columns == []
    ensures var h' := AcceptAll(h, ListTokens(p));
            BeforeKeyword(h'.stage) && h'.into == h.into.(columns := DestinationOf(p).columns)
  {
    hide UpperCase, Numeral, Reserved, IsValues;
    if p.columns.Some? {
      var cs := p.columns.value;
      var h1 := h.(stage := FirstColumn);
      assert Accept(h, Symbol('(')) == h1;
      var h2 := if cs == [] then h1 else WithColumns(h1, ColumnNames(cs));
      assert Accept(h2, Symbol(')')) == h2.(stage := Keyword);
      if cs != [] {
        AcceptColumns(h1, cs);
      }
      hide Accept, ValidColumns;
      AcceptConcat(h, [Symbol('(')], ColumnTokens(cs) + [Symbol(')')]);
      AcceptConcat(h1, ColumnTokens(cs), [Symbol(')')]);
      AcceptOne(h, Symbol('('));
      AcceptOne(h2, Symbol(')'));
    }
  }

  lemma AcceptTheKeyword(h: Head, word: string)
    requires BeforeKeyword(h.stage) && IsValues(Word(word))
    ensures AcceptAll(h, [Word(word)]) == h.(stage := Done)
  {
    AcceptOne(h, Word(word));
    hide IsValues;
  }

  lemma TokensInThree(p: Parts)
    ensures HeadTokens(p) ==
            ([Word(p.verb)] + (Optional(p.priority) + (Optional(p.ignore) + Optional(p.into)))) +
            (TableTokens(p) + (ListTokens(p) + [Word(p.keyword)]))
  {
    hide Optional, TableTokens, ListTokens;
    var rest := TableTokens(p) + (ListTokens(p) + [Word(p.keyword)]);
    Associative(Optional(p.ignore), Optional(p.into), rest);
    Associative(Optional(p.priority), Optional(p.ignore) + Optional(p.into), rest);
    Associative([Word(p.verb)], Optional(p.priority) + (Optional(p.ignore) + Optional(p.into)), rest);
  }

  /** The tokens of a head lead to the destination its parts denote. */
  lemma AcceptParts(p: Parts)
    requires ValidParts(p)
    ensures AcceptAll(BEGIN, HeadTokens(p)) == Head(Done, DestinationOf(p))
  {
    var words := [Word(p.verb)] + (Optional(p.priority) + (Optional(p.ignore) + Optional(p.into)));
    var last := ListTokens(p) + [Word(p.keyword)];
    TokensInThree(p);
    AcceptWords(p);
    assert IsValues(Word(p.keyword));
    hide Accept, AcceptAll, Optional, TableTokens, ListTokens, HeadTokens, ValidParts, IsValues;
    hide BeforeTable, AfterTheTable, Replaces;
    var h := AcceptAll(BEGIN, words);
    AcceptTable2(h, p);
    var h1 := AcceptAll(h, TableTokens(p));
    AcceptList(h1, p);
    var h2 := AcceptAll(h1, ListTokens(p));
    AcceptTheKeyword(h2, p.keyword);
    AcceptConcat(BEGIN, words, TableTokens(p) + last);
    AcceptConcat(h, TableTokens(p), last);
    AcceptConcat(h1, ListTokens(p), [Word(p.keyword)]);
  }

  /** Reading a printed head gives exactly the destination its parts denote, whatever the case of the words and the
      space between them, and leaves exactly what stands behind the keyword. */
  lemma HeadRoundTrip(p: Parts, ls: seq<Lexeme>, tail: string)
    requires ValidParts(p) && Tokens(ls) == HeadTokens(p) && Printable(ls, tail)
    ensures ReadHead(BEGIN, PrintLexemes(ls) + tail) == Some((DestinationOf(p), tail))
  {
    hide *;
    AcceptParts(p);
    ReadLexemes(BEGIN, ls, tail);
  }
  // ----- Only such heads are read --------------------------------------------------------------

  lemma NextIsAccepted(h: Head, ts: seq<Token>)
    requires AcceptAll(h, ts).stage == Done && h.stage != Done
    ensures ts != [] && Accept(h, ts[0]).stage != Wrong && AcceptAll(Accept(h, ts[0]), ts[1..]).stage == Done
  {
    hide Accept;
    if ts != [] {
      StageStays(h, ts[0], ts[1..]);
    }
  }

  lemma NothingAfterDone(h: Head, ts: seq<Token>)
    requires AcceptAll(h, ts).stage == Done && h.stage == Done
    ensures ts == []
  {
    if ts != [] {
      WrongStays(h, ts);
    }
  }

  lemma HeadAndTail(ts: seq<Token>)
    requires ts != []
    ensures ts == [ts[0]] + ts[1..]
  {
  }

  lemma KeywordOnly(h: Head, ts: seq<Token>) returns (word: string)
    requires h.stage == Keyword && AcceptAll(h, ts).stage == Done
    ensures ts == [Word(word)] && IsValues(Word(word))
  {
    NextIsAccepted(h, ts);
    NothingAfterDone(Accept(h, ts[0]), ts[1..]);
    HeadAndTail(ts);
    hide AcceptAll, UpperCase;
    word := ts[0].text;
  }

  predicate EndsColumn(t: Token) {
    t == Symbol(',') || t == Symbol(')')
  }

  lemma {:induction false} ColumnOf(h: Head, ts: seq<Token>) returns (q: seq<Token>, name: Token, rest: seq<Token>)
    requires AcceptAll(h, ts).stage == Done && ts != [] && AtName(h, ts[0])
    ensures ts == Dotted(q) + ([name] + rest) && |rest| < |ts|
    ensures AtName(h, if q == [] then name else q[0])
    ensures q != [] ==> IdentifierInName(name) && forall t | t in q :: IdentifierInName(t)
    ensures rest != [] && EndsColumn(rest[0]) && (name.Word? || name.Name?)
    ensures AcceptAll(WithColumns(h, [UpperCase(name.text)]), rest).stage == Done
    decreases |ts|
  {
    hide *;
    var t := ts[0];
    HeadAndTail(ts);
    AcceptFirst(h, t, ts[1..]);
    var next, after := ColumnStep(h, t, ts[1..]);
    if next == Symbol('.') {
      var h' := Head(ColumnInTable, h.into);
      var q', name', rest' := ColumnOf(h', after);
      q, name, rest := [t] + q', name', rest';
      DottedInFront(t, q', [name] + rest);
      OnlyInto(h, [UpperCase(name.text)]);
      NameIsWordOrName(h', if q' == [] then name else q'[0]);
    } else {
      q, name, rest := [], t, ts[1..];
      NoDots([name] + rest);
      NameIsWordOrName(h, t);
    }
  }

  lemma AcceptFirst(h: Head, t: Token, rest: seq<Token>)
    ensures AcceptAll(h, [t] + rest) == AcceptAll(Accept(h, t), rest)
  {
    hide Accept;
    assert ([t] + rest)[1..] == rest;
  }

  lemma DottedInFront(t: Token, q: seq<Token>, tail: seq<Token>)
    ensures Dotted([t] + q) + tail == [t] + ([Symbol('.')] + (Dotted(q) + tail))
    ensures [t] + q != [] && ([t] + q)[0] == t
  {
    assert ([t] + q)[1..] == q;
    hide Dotted;
    assert [t, Symbol('.')] + Dotted(q) + tail == [t] + ([Symbol('.')] + (Dotted(q) + tail));
  }

  lemma NoDots(tail: seq<Token>)
    ensures Dotted([]) + tail == tail
  {
  }

  /** A name is followed by a dot and another name, or ends its column. */
  lemma ColumnStep(h: Head, t: Token, rest: seq<Token>) returns (next: Token, after: seq<Token>)
    requires AtName(h, t) && AcceptAll(Accept(h, t), rest).stage == Done
    ensures rest == [next] + after && IdentifierInName(t)
    ensures AcceptAll(WithColumns(h, [UpperCase(t.text)]), rest).stage == Done
    ensures next == Symbol('.') || EndsColumn(next)
    ensures next == Symbol('.') ==> AcceptAll(Head(ColumnInTable, h.into), after).stage == Done
    ensures next == Symbol('.') ==> after != [] && AtName(Head(ColumnInTable, h.into), after[0])
  {
    var h1, h2 := Accept(h, t), Head(ColumnInTable, h.into);
    AcceptName(h, t);
    NameIsWordOrName(h, t);
    hide *;
    OnlyAfterColumn(h, [UpperCase(t.text)]);
    NextIsAccepted(h1, rest);
    HeadAndTail(rest);
    next, after := rest[0], rest[1..];
    AfterAColumn(h1, next);
    if next == Symbol('.') {
      NextIsAccepted(h2, after);
      NameInTable(h2, after[0]);
    }
  }

  lemma OnlyAfterColumn(h: Head, names: seq<string>)
    ensures WithColumns(h, names).stage == AfterColumn
  {
  }

  lemma NameIsWordOrName(h: Head, t: Token)
    requires AtName(h, t)
    ensures IdentifierInName(t) && (t.Word? || t.Name?)
  {
  }

  lemma NameInTable(h: Head, t: Token)
    requires h.stage == ColumnInTable && Accept(h, t).stage != Wrong
    ensures AtName(h, t)
  {
  }

  lemma OnlyInto(h: Head, names: seq<string>)
    ensures WithColumns(Head(ColumnInTable, h.into), names) == WithColumns(h, names)
  {
  }

  lemma AfterAColumn(h: Head, t: Token)
    requires h.stage == AfterColumn && Accept(h, t).stage != Wrong
    ensures t == Symbol('.') || EndsColumn(t)
  {
  }

  lemma ColumnIsValid(h: Head, q: seq<Token>, name: Token)
    requires AtName(h, if q == [] then name else q[0]) && h.stage != ColumnInTable
    requires q != [] ==> IdentifierInName(name) && forall t | t in q :: IdentifierInName(t)
    ensures ValidColumn(ColumnName(q, name))
  {
  }

  lemma {:induction false} ColumnsOf(h: Head, ts: seq<Token>) returns (cs: seq<ColumnName>, word: string)
    requires AcceptAll(h, ts).stage == Done && ts != [] && AtName(h, ts[0]) && h.stage != ColumnInTable
    ensures cs != [] && ValidColumns(cs) && IsValues(Word(word))
    ensures ts == ColumnTokens(cs) + ([Symbol(')')] + [Word(word)])
    decreases |ts|
  {
    var q, name, rest := ColumnOf(h, ts);
    var c := ColumnName(q, name);
    ColumnIsValid(h, q, name);
    var h1 := WithColumns(h, [UpperCase(name.text)]);
    NextIsAccepted(h1, rest);
    HeadAndTail(rest);
    if rest[0] == Symbol(',') {
      var h2 := h1.(stage := Stage.Column);
      assert Accept(h1, rest[0]) == h2;
      NextIsAccepted(h2, rest[1..]);
      assert AtName(h2, rest[1..][0]);
      hide Accept, AcceptAll, UpperCase, IsValues, ValidColumn;
      var cs', word' := ColumnsOf(h2, rest[1..]);
      cs, word := [c] + cs', word';
      assert cs[1..] == cs';
      ColumnsInFront(c, cs', [Symbol(')')] + [Word(word)]);
    } else {
      var h2 := h1.(stage := Keyword);
      assert Accept(h1, rest[0]) == h2;
      word := KeywordOnly(h2, rest[1..]);
      cs := [c];
      hide Accept, AcceptAll, UpperCase, IsValues, ValidColumn;
      Associative(Dotted(q), [name], rest);
      assert ColumnTokens(cs) == Dotted(q) + ([name] + []) == Dotted(q) + [name];
    }
  }

  lemma ColumnsInFront(c: ColumnName, cs: seq<ColumnName>, tail: seq<Token>)
    requires cs != []
    ensures ColumnTokens([c] + cs) + tail ==
            Dotted(c.qualifiers) + ([c.name] + ([Symbol(',')] + (ColumnTokens(cs) + tail)))
  {
    assert ([c] + cs)[1..] == cs;
    hide Dotted, ColumnTokens;
    assert ColumnTokens([c] + cs) == Dotted(c.qualifiers) + ([c.name] + ([Symbol(',')] + ColumnTokens(cs))) by {
      ColumnTokensCons(c, cs);
    }
    AssociativeFour(Dotted(c.qualifiers), [c.name], [Symbol(',')], ColumnTokens(cs), tail);
  }

  /** What stands between the table and the end of the head. */
  lemma ListOf(h: Head, ts: seq<Token>) returns (columns: Option<seq<ColumnName>>, word: string)
    requires AcceptAll(h, ts).stage == Done && AfterTheTable(h.stage)
    requires h.stage == AfterTable && ts != [] ==> ts[0] != Symbol('.')
    ensures columns.Some? ==> ValidColumns(columns.value)
    ensures IsValues(Word(word))
    ensures ts == (if columns.Some? then [Symbol('(')] + (ColumnTokens(columns.value) + [Symbol(')')]) else [])
                  + [Word(word)]
  {
    NextIsAccepted(h, ts);
    HeadAndTail(ts);
    if ts[0] == Symbol('(') {
      var h1 := h.(stage := FirstColumn);
      var rest := ts[1..];
      assert Accept(h, ts[0]) == h1;
      NextIsAccepted(h1, rest);
      HeadAndTail(rest);
      if rest[0] == Symbol(')') {
        assert Accept(h1, rest[0]) == h1.(stage := Keyword);
        word := KeywordOnly(h1.(stage := Keyword), rest[1..]);
        columns := Some([]);
        hide Accept, AcceptAll, IsValues;
        assert ColumnTokens([]) == [];
      } else {
        assert AtName(h1, rest[0]);
        hide Accept, AcceptAll, IsValues;
        var cs, w := ColumnsOf(h1, rest);
        columns, word := Some(cs), w;
        Associative(ColumnTokens(cs), [Symbol(')')], [Word(w)]);
        Associative([Symbol('(')], ColumnTokens(cs) + [Symbol(')')], [Word(w)]);
      }
    } else {
      assert Accept(h, ts[0]) == h.(stage := Done);
      NothingAfterDone(h.(stage := Done), ts[1..]);
      columns, word := None, ts[0].text;
    }
  }

  /** The table, and what stands behind it. */
  lemma TableOf(h: Head, ts: seq<Token>) returns (database: Option<Token>, table: Token, h': Head, rest: seq<Token>)
    requires AcceptAll(h, ts).stage == Done && BeforeTable(h.stage) && ts != [] && Identifier(ts[0])
    ensures if database.Some? then Identifier(database.value) && IdentifierInName(table) else Identifier(table)
    ensures ts == (if database.Some? then [database.value, Symbol('.')] else []) + [table] + rest
    ensures AcceptAll(h', rest).stage == Done && AfterTheTable(h'.stage)
    ensures h'.stage == AfterTable && rest != [] ==> rest[0] != Symbol('.')
  {
    var t := ts[0];
    AcceptFirstName(h, t);
    var h1 := Head(AfterTable, h.into.(table := h.into.table + [t.text]));
    NextIsAccepted(h, ts);
    NextIsAccepted(h1, ts[1..]);
    HeadAndTail(ts);
    HeadAndTail(ts[1..]);
    if ts[1] == Symbol('.') {
      var h2 := h1.(stage := TableInDatabase);
      var after := ts[1..][1..];
      assert Accept(h1, ts[1]) == h2;
      NextIsAccepted(h2, after);
      HeadAndTail(after);
      database, table, h', rest := Some(t), after[0], Accept(h2, after[0]), after[1..];
      hide AcceptAll, UpperCase, Numeral, Reserved;
    } else {
      database, table, h', rest := None, t, h1, ts[1..];
    }
  }

  predicate PriorityWord(t: Token, replace: bool) {
    Is(t, "LOW_PRIORITY") || Is(t, "DELAYED") || (Is(t, "HIGH_PRIORITY") && !replace)
  }

  predicate IgnoreWord(t: Token, replace: bool) {
    Is(t, "IGNORE") && !replace
  }

  lemma PriorityOf(h: Head, ts: seq<Token>) returns (word: string, h': Head, rest: seq<Token>)
    requires AcceptAll(h, ts).stage == Done && h.stage == Priority
    ensures ts == Optional(word) + rest && (word != "" ==> PriorityWord(Word(word), h.into.replace))
    ensures AcceptAll(h', rest).stage == Done && rest != [] && h'.into == h.into
    ensures h'.stage == Ignore || (h'.stage == Priority && !PriorityWord(rest[0], h.into.replace))
  {
    NextIsAccepted(h, ts);
    HeadAndTail(ts);
    if PriorityWord(ts[0], h.into.replace) {
      word, h', rest := ts[0].text, h.(stage := Ignore), ts[1..];
      assert word != "" by {
        assert |UpperCase(word)| >= 7;
      }
      hide UpperCase;
      assert Accept(h, ts[0]) == h';
      NextIsAccepted(h', rest);
    } else {
      word, h', rest := "", h, ts;
      assert [] + ts == ts;
    }
  }

  lemma IgnoreOf(h: Head, ts: seq<Token>) returns (word: string, h': Head, rest: seq<Token>)
    requires AcceptAll(h, ts).stage == Done && ts != []
    requires h.stage == Ignore || (h.stage == Priority && !PriorityWord(ts[0], h.into.replace))
    ensures ts == Optional(word) + rest && (word != "" ==> IgnoreWord(Word(word), h.into.replace))
    ensures AcceptAll(h', rest).stage == Done && rest != [] && h'.into.replace == h.into.replace
    ensures h'.stage == Into ||
            (h' == h && rest == ts && !IgnoreWord(rest[0], h.into.replace))
  {
    NextIsAccepted(h, ts);
    HeadAndTail(ts);
    if IgnoreWord(ts[0], h.into.replace) {
      word, h', rest := ts[0].text, Head(Into, h.into.(ignore := true)), ts[1..];
      assert word != "" by {
        assert |UpperCase(word)| == 6;
      }
      hide UpperCase;
      assert Accept(h, ts[0]) == h';
      NextIsAccepted(h', rest);
    } else {
      word, h', rest := "", h, ts;
      assert [] + ts == ts;
    }
  }

  lemma IntoOf(h: Head, ts: seq<Token>) returns (word: string, h': Head, rest: seq<Token>)
    requires AcceptAll(h, ts).stage == Done && ts != []
    requires h.stage == Into || ((h.stage == Ignore || (h.stage == Priority && !PriorityWord(ts[0], h.into.replace)))
                                 && !IgnoreWord(ts[0], h.into.replace))
    ensures ts == Optional(word) + rest && (word != "" ==> Is(Word(word), "INTO"))
    ensures AcceptAll(h', rest).stage == Done && rest != []
    ensures BeforeTable(h'.stage) && Identifier(rest[0])
  {
    NextIsAccepted(h, ts);
    HeadAndTail(ts);
    if Is(ts[0], "INTO") {
      word, h', rest := ts[0].text, h.(stage := Table), ts[1..];
      assert word != "" by {
        assert |UpperCase(word)| == 4;
      }
      hide UpperCase, Numeral, Reserved;
      assert Accept(h, ts[0]) == h';
      NextIsAccepted(h', rest);
    } else {
      word, h', rest := "", h, ts;
      assert [] + ts == ts;
      hide UpperCase, Numeral, Reserved;
    }
  }

  lemma VerbOf(ts: seq<Token>) returns (h: Head)
    requires AcceptAll(BEGIN, ts).stage == Done
    ensures ts != [] && ts[0].Word? && (Is(ts[0], "INSERT") || Is(ts[0], "REPLACE"))
    ensures h == Head(Priority, Destination(Is(ts[0], "REPLACE"), false, [], []))
    ensures AcceptAll(h, ts[1..]).stage == Done
  {
    NextIsAccepted(BEGIN, ts);
    hide UpperCase;
    h := Accept(BEGIN, ts[0]);
  }

  /** Tokens that lead to the end of a head are those of some parts. */
  lemma PartsOf(ts: seq<Token>) returns (p: Parts)
    requires AcceptAll(BEGIN, ts).stage == Done
    ensures ValidParts(p) && HeadTokens(p) == ts
  {
    hide AcceptAll, Accept, Is, ValidColumns, Identifier, IdentifierInName, IsValues, Optional;
    var h1 := VerbOf(ts);
    var priority, h2, t2 := PriorityOf(h1, ts[1..]);
    var ignore, h3, t3 := IgnoreOf(h2, t2);
    var into, h4, t4 := IntoOf(h3, t3);
    var database, table, h5, t5 := TableOf(h4, t4);
    var columns, keyword := ListOf(h5, t5);
    p := Parts(ts[0].text, priority, ignore, into, database, table, columns, keyword);
    HeadAndTail(ts);
    assert TableTokens(p) + (ListTokens(p) + [Word(keyword)]) == t4;
  }

  /** A text begins like an INSERT of rows exactly when it is a printed head followed by its rest. */
  lemma ReadsPrintedHeadsOnly(text: string)
    ensures BeginsInsert(text) <==>
            exists p, ls, tail :: ValidParts(p) && Tokens(ls) == HeadTokens(p) && Printable(ls, tail) &&
                                  text == PrintLexemes(ls) + tail
  {
    hide *;
    BeginsInsertIs(text);
    if BeginsInsert(text) {
      var ls := HeadWasPrinted(BEGIN, text);
      var p := PartsOf(Tokens(ls));
      var tail := ReadHead(BEGIN, text).value.1;
      assert ValidParts(p) && Tokens(ls) == HeadTokens(p) && Printable(ls, tail) && text == PrintLexemes(ls) + tail;
    }
    if p, ls, tail :| ValidParts(p) && Tokens(ls) == HeadTokens(p) && Printable(ls, tail) &&
                      text == PrintLexemes(ls) + tail {
      HeadRoundTrip(p, ls, tail);
    }
  }

  lemma BeginsInsertIs(text: string)
    ensures BeginsInsert(text) <==> ReadHead(BEGIN, text).Some?
  {
  }
}
