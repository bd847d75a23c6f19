/** Printing row lists, and that the reader takes exactly the printed rows from them. */
module RowPrinter {
  import opened CStrings
  import opened HeadPrinter
  import opened InsertEffects
  import opened InsertHead
  import opened Sequences

  // ----- Values --------------------------------------------------------------------------------

  /** A character inside quotes: as it is, behind a backslash, or the quote itself, doubled. */
  datatype StringPart = Plainly(c: char) | Escape(c: char) | Twice

  /** What stands inside the parentheses of a row: text without quotes, parentheses and comments, strings in quotes,
      nested parentheses, and space. */
  datatype Values =
    | Nothing
    | Text(text: string, more: Values)
    | String(q: char, parts: seq<StringPart>, more: Values)
    | Nested(inner: Values, more: Values)
    | Gap(space: Space, more: Values)

  function PrintPart(q: char, p: StringPart): string {
    match p
    case Plainly(c) => [c]
    case Escape(c) => ['\\', c]
    case Twice => [q, q]
  }

  function PrintParts(q: char, ps: seq<StringPart>): string {
    if ps == [] then "" else PrintPart(q, ps[0]) + PrintParts(q, ps[1..])
  }

  function PrintValues(v: Values): string {
    match v
    case Nothing => ""
    case Text(text, more) => text + PrintValues(more)
    case String(q, parts, more) => [q] + (PrintParts(q, parts) + ([q] + PrintValues(more)))
    case Nested(inner, more) => "(" + (PrintValues(inner) + (")" + PrintValues(more)))
    case Gap(space, more) => PrintSpace(space) + PrintValues(more)
  }

  predicate IsQuote(c: char) {
    c == '\'' || c == '"' || c == '`'
  }

  predicate ValidPart(q: char, p: StringPart) {
    match p
    case Plainly(c) => c != q && (c != '\\' || q == '`')
    case Escape(_) => q != '`'
    case Twice => true
  }

  predicate ValidStringParts(q: char, ps: seq<StringPart>) {
    ps == [] || (ValidPart(q, ps[0]) && ValidStringParts(q, ps[1..]))
  }

  predicate Ordinary(c: char) {
    !IsQuote(c) && c != '(' && c != ')' && c != '#' && c != '-' && c != '/'
  }

  /** Numbers, words and operators; '-' and '/' where they begin no comment. */
  predicate PlainText(t: string) {
    || t == ""
    || (Ordinary(t[0]) && PlainText(t[1..]))
    || (|t| >= 2 && t[0] == '-' && Ordinary(t[1]) && PlainText(t[2..]))
    || (|t| >= 2 && t[0] == '/' && Ordinary(t[1]) && t[1] != '*' && PlainText(t[2..]))
    || (|t| >= 3 && t[0] == '-' && t[1] == '-' && Ordinary(t[2]) && t[2] > ' ' && PlainText(t[3..]))
  }

  predicate ValidValues(v: Values) {
    match v
    case Nothing => true
    case Text(text, more) => PlainText(text) && ValidValues(more)
    case String(q, parts, more) => IsQuote(q) && ValidStringParts(q, parts) && ValidValues(more)
    case Nested(inner, more) => ValidValues(inner) && ValidValues(more)
    case Gap(space, more) => ValidSpace(space) && ValidValues(more)
  }

  // ----- Reading values ------------------------------------------------------------------------

  /** The reader with `t` added to the text it belongs to. */
  function Added(s: Reader, t: string): Reader {
    match s.place
    case Inside(_) => s.(row := s.row + t)
    case After | Clause | Ended => s.(after := s.after + t)
    case _ => s
  }

  lemma AddedTwice(s: Reader, a: string, b: string)
    ensures Added(Added(s, a), b) == Added(s, a + b)
    ensures Added(s, "") == s
  {
    Associative(s.row, a, b);
    Associative(s.after, a, b);
  }

  lemma RunOne(s: Reader, c: char)
    ensures Run(s, [c]) == Feed(s, c)
  {
    hide Feed;
    assert [c][1..] == [];
  }

  lemma RunCons(s: Reader, c: char, t: string)
    ensures Run(s, [c] + t) == Run(Feed(s, c), t)
  {
    assert ([c] + t)[1..] == t;
  }

  lemma RunTwo(s: Reader, c: char, d: char)
    ensures Run(s, [c, d]) == Feed(Feed(s, c), d)
  {
    assert [c, d] == [c] + [d];
    RunCons(s, c, [d]);
    RunOne(Feed(s, c), d);
  }

  predicate InRow(s: Reader) {
    s.place.Inside? && s.place.depth > 0 && s.lex == Plain
  }

  lemma {:induction false} RunText(s: Reader, t: string)
    requires InRow(s) && PlainText(t)
    ensures Run(s, t) == Added(s, t)
    decreases |t|
  {
    if t != "" {
      if Ordinary(t[0]) && PlainText(t[1..]) {
        RunStretch(s, t, 1);
      } else if t[0] == '/' || t[1] != '-' {
        RunStretch(s, t, 2);
      } else {
        RunStretch(s, t, 3);
      }
    } else {
      AddedTwice(s, "", "");
    }
  }

  lemma RunStretch(s: Reader, t: string, n: nat)
    requires InRow(s) && 1 <= n <= |t| && PlainText(t[n..])
    requires n == 1 ==> Ordinary(t[0])
    requires n == 2 ==> (t[0] == '-' || (t[0] == '/' && t[1] != '*')) && Ordinary(t[1])
    requires n == 3 ==> t[0] == '-' && t[1] == '-' && Ordinary(t[2]) && t[2] > ' '
    requires n <= 3
    ensures Run(s, t) == Added(s, t)
    decreases |t|, 0
  {
    assert t == t[..n] + t[n..];
    ShortStretch(s, t[..n]);
    RunAppend(s, t[..n], t[n..]);
    var s' := Added(s, t[..n]);
    assert InRow(s');
    hide Feed, PlainText;
    RunText(s', t[n..]);
    AddedTwice(s, t[..n], t[n..]);
  }

  lemma ShortStretch(s: Reader, t: string)
    requires InRow(s) && 1 <= |t| <= 3
    requires |t| == 1 ==> Ordinary(t[0])
    requires |t| == 2 ==> (t[0] == '-' || (t[0] == '/' && t[1] != '*')) && Ordinary(t[1])
    requires |t| == 3 ==> t[0] == '-' && t[1] == '-' && Ordinary(t[2]) && t[2] > ' '
    ensures Run(s, t) == Added(s, t)
  {
    if |t| == 1 {
      assert t == [t[0]];
      RunOne(s, t[0]);
    } else if |t| == 2 {
      assert t == [t[0], t[1]];
      RunTwo(s, t[0], t[1]);
      assert (s.row + [t[0]]) + [t[1]] == s.row + t;
    } else {
      assert t == [t[0]] + [t[1], t[2]];
      RunCons(s, t[0], [t[1], t[2]]);
      RunTwo(Feed(s, t[0]), t[1], t[2]);
      assert ((s.row + [t[0]]) + [t[1]]) + [t[2]] == s.row + t;
    }
  }

  lemma RunPart(s: Reader, q: char, p: StringPart)
    requires s.place.Inside? && s.lex == Quoted(q) && IsQuote(q) && ValidPart(q, p)
    ensures Run(s, PrintPart(q, p)) == Added(s, PrintPart(q, p))
  {
    match p
    case Plainly(c) =>
      RunOne(s, c);
    case Escape(c) =>
      RunTwo(s, '\\', c);
      assert (s.row + ['\\']) + [c] == s.row + ['\\', c];
    case Twice =>
      RunTwo(s, q, q);
      assert (s.row + [q]) + [q] == s.row + [q, q];
  }

  lemma {:induction false} RunParts(s: Reader, q: char, ps: seq<StringPart>)
    requires s.place.Inside? && s.lex == Quoted(q) && IsQuote(q) && ValidStringParts(q, ps)
    ensures Run(s, PrintParts(q, ps)) == Added(s, PrintParts(q, ps))
    decreases |ps|
  {
    if ps == [] {
      AddedTwice(s, "", "");
    } else {
      var a, b := PrintPart(q, ps[0]), PrintParts(q, ps[1..]);
      hide Feed;
      RunPart(s, q, ps[0]);
      RunParts(Added(s, a), q, ps[1..]);
      RunAppend(s, a, b);
      AddedTwice(s, a, b);
    }
  }

  // ----- Reading space -------------------------------------------------------------------------

  predicate Lists(s: Reader) {
    s.lex == Plain && (s.place == Before || s.place.Inside? || s.place == After || s.place == Ended)
  }

  /** Text without a line feed in a comment to the end of the line. */
  lemma {:induction false} RunLine(s: Reader, t: string)
    requires s.lex == LineComment && s.place != Clause && s.place != Broken && '\n' !in t
    ensures Run(s, t) == Added(s, t)
    decreases |t|
  {
    AddedTwice(s, "", "");
    if t != "" {
      assert Feed(s, t[0]) == Added(s, [t[0]]);
      assert t == [t[0]] + t[1..];
      hide Feed;
      RunLine(Added(s, [t[0]]), t[1..]);
      AddedTwice(s, [t[0]], t[1..]);
    }
  }

  /** Text of a block comment; the state at its end says whether it ended in a star. */
  lemma {:induction false} RunBlock(s: Reader, t: string)
    requires (s.lex == Lex.Block || s.lex == BlockStar) && s.place != Clause && s.place != Broken
    requires !Contains(t, "*/") && !(s.lex == BlockStar && t != "" && t[0] == '/')
    ensures var lex := if t == "" then s.lex else if t[|t| - 1] == '*' then BlockStar else Lex.Block;
            Run(s, t) == Added(s, t).(lex := lex)
    decreases |t|
  {
    AddedTwice(s, "", "");
    if t != "" {
      var lex := if t[0] == '*' then BlockStar else Lex.Block;
      var s' := Added(s, [t[0]]).(lex := lex);
      assert Feed(s, t[0]) == s';
      assert t == [t[0]] + t[1..];
      TailHasNoEnd(t);
      hide Feed, Contains;
      RunBlock(s', t[1..]);
      AddedTwice(s, [t[0]], t[1..]);
    }
  }

  lemma TailHasNoEnd(t: string)
    requires t != "" && !Contains(t, "*/")
    ensures !Contains(t[1..], "*/") && !(|t| >= 2 && t[0] == '*' && t[1] == '/')
  {
    if Contains(t[1..], "*/") {
      var k: nat :| k <= |t[1..]| && MatchesAt(t[1..], "*/", k);
      assert t[1..][k..k + 2] == t[k + 1..k + 3];
      assert MatchesAt(t, "*/", k + 1);
    }
    if |t| >= 2 {
      assert !MatchesAt(t, "*/", 0);
      assert t[0..2] == [t[0], t[1]];
    }
  }

  lemma RunBlockComment(s: Reader, t: string)
    requires Lists(s) && !Contains(t, "*/")
    ensures Run(s, "/*" + (t + "*/")) == Added(s, "/*" + (t + "*/"))
  {
    var s1 := Added(s, "/*").(lex := Lex.Block);
    RunTwo(s, '/', '*');
    AddedTwice(s, "/", "*");
    assert Feed(Feed(s, '/'), '*') == s1;
    RunBlock(s1, t);
    var s2 := Run(s1, t);
    RunTwo(s2, '*', '/');
    AddedTwice(s2, "*", "/");
    assert Feed(Feed(s2, '*'), '/') == Added(s2, "*/").(lex := Plain);
    hide Feed;
    RunAppend(s, "/*", t + "*/");
    RunAppend(s1, t, "*/");
    AddedTwice(s, "/*", t);
    AddedTwice(s, "/*" + t, "*/");
    Associative("/*", t, "*/");
  }

  lemma RunLineComment(s: Reader, opener: string, t: string)
    requires Lists(s) && '\n' !in t && (opener == "#" || (opener == "--" && (t == "" || t[0] <= ' ')))
    ensures Run(s, opener + (t + "\n")) == Added(s, opener + (t + "\n"))
  {
    if opener == "#" {
      var s1 := Added(s, "#").(lex := LineComment);
      RunOne(s, '#');
      assert Feed(s, '#') == s1;
      LineToItsEnd(s1, t);
      hide Feed;
      RunAppend(s, opener, t + "\n");
      AddedTwice(s, opener, t + "\n");
    } else {
      var s1 := Added(s, "--").(lex := TwoDashes);
      RunTwo(s, '-', '-');
      AddedTwice(s, "-", "-");
      assert Feed(Feed(s, '-'), '-') == s1;
      if t == "" {
        assert t + "\n" == "\n";
        RunOne(s1, '\n');
        assert Feed(s1, '\n') == Added(s, "--" + "\n") by {
          AddedTwice(s, "--", "\n");
        }
      } else {
        var s2 := Added(s1, [t[0]]).(lex := LineComment);
        assert Feed(s1, t[0]) == s2;
        LineToItsEnd(s2, t[1..]);
        assert t + "\n" == [t[0]] + (t[1..] + "\n");
        RunCons(s1, t[0], t[1..] + "\n");
        AddedTwice(s1, [t[0]], t[1..] + "\n");
        AddedTwice(s, "--", t + "\n");
      }
      hide Feed;
      RunAppend(s, opener, t + "\n");
    }
  }

  lemma LineToItsEnd(s: Reader, t: string)
    requires s.lex == LineComment && s.place != Clause && s.place != Broken && '\n' !in t
    ensures Run(s, t + "\n") == Added(s, t + "\n").(lex := Plain)
  {
    RunLine(s, t);
    var s1 := Added(s, t);
    RunOne(s1, '\n');
    assert Feed(s1, '\n') == Added(s1, "\n").(lex := Plain);
    hide Feed;
    RunAppend(s, t, "\n");
    AddedTwice(s, t, "\n");
  }

  /** Space is kept and changes nothing else. */
  lemma {:induction false} RunSpace(s: Reader, space: Space)
    requires Lists(s) && ValidSpace(space)
    ensures Run(s, PrintSpace(space)) == Added(s, PrintSpace(space))
    decreases space, 0
  {
    match space
    case Tight =>
      AddedTwice(s, "", "");
    case Blank(c, more) =>
      RunOne(s, c);
      assert Feed(s, c) == Added(s, [c]);
      hide Feed;
      RunThenSpace(s, [c], more);
    case Block(text, more) =>
      RunBlockComment(s, text);
      hide Feed, Contains;
      AssociativeFour("/*", text, "*/", "", PrintSpace(more));
      assert "*/" + "" == "*/" && "" + PrintSpace(more) == PrintSpace(more);
      RunThenSpace(s, "/*" + (text + "*/"), more);
    case Hash(text, more) =>
      RunLineComment(s, "#", text);
      hide Feed;
      AssociativeFour("#", text, "\n", "", PrintSpace(more));
      assert "\n" + "" == "\n" && "" + PrintSpace(more) == PrintSpace(more);
      RunThenSpace(s, "#" + (text + "\n"), more);
    case Dashes(text, more) =>
      RunLineComment(s, "--", text);
      hide Feed;
      AssociativeFour("--", text, "\n", "", PrintSpace(more));
      assert "\n" + "" == "\n" && "" + PrintSpace(more) == PrintSpace(more);
      RunThenSpace(s, "--" + (text + "\n"), more);
  }

  lemma RunThenSpace(s: Reader, t: string, more: Space)
    requires Lists(s) && ValidSpace(more) && Run(s, t) == Added(s, t)
    ensures Run(s, t + PrintSpace(more)) == Added(s, t + PrintSpace(more))
    decreases more, 1
  {
    hide Feed;
    RunSpace(Added(s, t), more);
    RunAppend(s, t, PrintSpace(more));
    AddedTwice(s, t, PrintSpace(more));
  }
  // ----- Reading rows --------------------------------------------------------------------------

  lemma RunString(s: Reader, q: char, parts: seq<StringPart>)
    requires InRow(s) && IsQuote(q) && ValidStringParts(q, parts)
    ensures Run(s, [q] + (PrintParts(q, parts) + [q])) == Added(s, [q] + (PrintParts(q, parts) + [q]))
  {
    var text := PrintParts(q, parts);
    var s1 := Added(s, [q]).(lex := Quoted(q));
    assert Feed(s, q) == s1;
    RunParts(s1, q, parts);
    var s2 := Added(s1, text);
    assert Feed(s2, q) == Added(s2, [q]).(lex := Plain);
    RunOne(s2, q);
    hide Feed;
    RunCons(s, q, text + [q]);
    RunAppend(s1, text, [q]);
    AddedTwice(s1, text, [q]);
    AddedTwice(s, [q], text + [q]);
  }

  /** Values are kept as they are printed. */
  lemma {:induction false} RunValues(s: Reader, v: Values)
    requires InRow(s) && ValidValues(v)
    ensures Run(s, PrintValues(v)) == Added(s, PrintValues(v))
    decreases v, 0
  {
    match v
    case Nothing =>
      AddedTwice(s, "", "");
    case Text(text, more) =>
      RunText(s, text);
      RunValues(Added(s, text), more);
      RunBoth(s, text, PrintValues(more));
    case String(q, parts, more) =>
      var text := [q] + (PrintParts(q, parts) + [q]);
      RunString(s, q, parts);
      RunValues(Added(s, text), more);
      RunBoth(s, text, PrintValues(more));
      Associative(PrintParts(q, parts), [q], PrintValues(more));
      Associative([q], PrintParts(q, parts) + [q], PrintValues(more));
    case Nested(inner, more) =>
      var text := "(" + (PrintValues(inner) + ")");
      RunNested(s, inner);
      RunValues(Added(s, text), more);
      RunBoth(s, text, PrintValues(more));
      Associative(PrintValues(inner), ")", PrintValues(more));
      Associative("(", PrintValues(inner) + ")", PrintValues(more));
    case Gap(space, more) =>
      RunSpace(s, space);
      RunValues(Added(s, PrintSpace(space)), more);
      RunBoth(s, PrintSpace(space), PrintValues(more));
  }

  lemma RunBoth(s: Reader, a: string, b: string)
    requires Run(s, a) == Added(s, a) && Run(Added(s, a), b) == Added(Added(s, a), b)
    ensures Run(s, a + b) == Added(s, a + b)
  {
    hide Feed;
    RunAppend(s, a, b);
    AddedTwice(s, a, b);
  }

  lemma RunNested(s: Reader, inner: Values)
    requires InRow(s) && ValidValues(inner)
    ensures Run(s, "(" + (PrintValues(inner) + ")")) == Added(s, "(" + (PrintValues(inner) + ")"))
    decreases inner, 1
  {
    var text := PrintValues(inner);
    var s1 := Added(s, "(").(place := Inside(s.place.depth + 1));
    assert Feed(s, '(') == s1;
    RunValues(s1, inner);
    var s2 := Added(s1, text);
    assert Feed(s2, ')') == Added(s2, ")").(place := s.place);
    RunOne(s2, ')');
    hide Feed;
    RunCons(s, '(', text + ")");
    RunAppend(s1, text, ")");
    AddedTwice(s1, text, ")");
    AddedTwice(s, "(", text + ")");
  }

  function PrintRow(v: Values): string {
    "(" + (PrintValues(v) + ")")
  }

  lemma RunRow(s: Reader, v: Values)
    requires s.place == Before && s.lex == Plain && s.row == "" && ValidValues(v)
    ensures Run(s, PrintRow(v)) == Reader(After, Plain, s.rows + [PrintRow(v)], "", "")
  {
    var text := PrintValues(v);
    var s1 := s.(place := Inside(1), row := "(");
    assert Feed(s, '(') == s1 by {
      assert "" + ['('] == "(";
    }
    RunValues(s1, v);
    var s2 := s1.(row := "(" + text);
    assert Feed(s2, ')') == Reader(After, Plain, s.rows + [("(" + text) + [')']], "", "");
    RunOne(s2, ')');
    hide Feed;
    RunCons(s, '(', text + ")");
    RunAppend(s1, text, ")");
    Associative("(", text, ")");
  }

  /** A row with the space around it. */
  datatype Item = Item(front: Space, values: Values, behind: Space)

  predicate ValidItems(items: seq<Item>) {
    items == [] ||
    (&& ValidSpace(items[0].front) && ValidValues(items[0].values) && ValidSpace(items[0].behind)
     && ValidItems(items[1..]))
  }

  function PrintItem(item: Item): string {
    PrintSpace(item.front) + (PrintRow(item.values) + PrintSpace(item.behind))
  }

  function PrintItems(items: seq<Item>): string {
    if items == [] then "" else if |items| == 1 then PrintItem(items[0])
    else PrintItem(items[0]) + ("," + PrintItems(items[1..]))
  }

  /** The rows of a printed list. */
  function RowsOf(items: seq<Item>): seq<string> {
    if items == [] then [] else [PrintRow(items[0].values)] + RowsOf(items[1..])
  }

  lemma RunItem(s: Reader, item: Item)
    requires s.place == Before && s.lex == Plain && s.row == "" && ValidItems([item])
    ensures Run(s, PrintItem(item)) ==
            Reader(After, Plain, s.rows + [PrintRow(item.values)], "", PrintSpace(item.behind))
  {
    var row, behind := PrintRow(item.values), PrintSpace(item.behind);
    assert ValidItems([item][1..]);
    hide Feed, PrintRow;
    RunSpace(s, item.front);
    RunRow(s, item.values);
    var s1 := Reader(After, Plain, s.rows + [row], "", "");
    RunSpace(s1, item.behind);
    RunAppend(s, PrintSpace(item.front), row + behind);
    RunAppend(s, row, behind);
    assert "" + behind == behind;
  }

  lemma OneItem(item: Item)
    ensures ValidItems([item]) <==> ValidSpace(item.front) && ValidValues(item.values) && ValidSpace(item.behind)
  {
    hide ValidSpace, ValidValues;
    assert [item][1..] == [];
  }

  lemma ItemsInFront(items: seq<Item>)
    requires items != []
    ensures ValidItems(items) <==> ValidItems([items[0]]) && ValidItems(items[1..])
    ensures |items| == 1 ==> PrintItems(items) == PrintItem(items[0]) && RowsOf(items) == [PrintRow(items[0].values)]
    ensures |items| > 1 ==> PrintItems(items) == PrintItem(items[0]) + ("," + PrintItems(items[1..]))
    ensures RowsOf(items) == [PrintRow(items[0].values)] + RowsOf(items[1..])
  {
    OneItem(items[0]);
    hide ValidSpace, ValidValues, PrintItem, PrintRow;
  }

  /** Behind a row a comma, a ';' and what they lead to. */
  lemma FeedAfter(s: Reader)
    requires s.place == After && s.lex == Plain
    ensures Feed(s, ',') == s.(place := Before, after := "")
    ensures Feed(s, ';') == s.(place := Ended, after := s.after + ";")
  {
  }

  lemma {:induction false} RunItems(s: Reader, items: seq<Item>)
    requires items != [] && ValidItems(items)
    requires s.place == Before && s.lex == Plain && s.row == "" && s.after == ""
    ensures Run(s, PrintItems(items)) ==
            Reader(After, Plain, s.rows + RowsOf(items), "", PrintSpace(items[|items| - 1].behind))
    decreases |items|
  {
    hide *;
    var item := items[0];
    ItemsInFront(items);
    RunItem(s, item);
    if |items| > 1 {
      var rows := s.rows + [PrintRow(item.values)];
      var s1, s2 := Reader(After, Plain, rows, "", PrintSpace(item.behind)), Reader(Before, Plain, rows, "", "");
      var rest := PrintItems(items[1..]);
      FeedAfter(s1);
      RunItems(s2, items[1..]);
      RunAppend(s, PrintItem(item), "," + rest);
      RunCons(s1, ',', rest);
      Associative(s.rows, [PrintRow(item.values)], RowsOf(items[1..]));
    }
  }

  // ----- Round trips ---------------------------------------------------------------------------

  /** The reader takes exactly the printed rows from a printed list, and the list ends cleanly. */
  lemma RowsRoundTrip(items: seq<Item>)
    requires items != [] && ValidItems(items)
    ensures ReadRows(PrintItems(items)) == Some(RowList(RowsOf(items), "")) && EndsCleanly(PrintItems(items))
  {
    hide Feed, ValidItems, PrintRow;
    RunItems(START, items);
    assert [] + RowsOf(items) == RowsOf(items);
  }

  /** What begins a clause behind the rows: neither blank nor comment, nor ',' or ';'. */
  predicate StartsClause(t: string) {
    t != "" && t[0] > ' ' && t[0] != ',' && t[0] != ';' && !LineCommentAt(t) && !BlockCommentAt(t)
  }

  lemma {:induction false} RunClause(s: Reader, t: string)
    requires s.place == Clause && s.lex == Plain
    ensures Run(s, t) == Added(s, t)
    decreases |t|
  {
    AddedTwice(s, "", "");
    if t != "" {
      assert t == [t[0]] + t[1..];
      assert Feed(s, t[0]) == Added(s, [t[0]]);
      hide Feed;
      RunClause(Added(s, [t[0]]), t[1..]);
      AddedTwice(s, [t[0]], t[1..]);
    }
  }

  /** The first one to three characters of a clause say that it is one, or the text ends first. */
  lemma RunClauseStart(s: Reader, t: string)
    requires s.place == After && s.lex == Plain && StartsClause(t)
    ensures Finish(Run(s, t)) == Some(RowList(s.rows, s.after + t))
  {
    if t[0] != '-' && t[0] != '/' {
      ClauseFrom(s, t, 1);
    } else if |t| == 1 {
      assert t == [t[0]];
      RunOne(s, t[0]);
    } else if !(t[0] == '-' && t[1] == '-') {
      assert BlockCommentAt(t) <==> t[0] == '/' && t[1] == '*' by {
        assert t[..2] == [t[0], t[1]];
      }
      ClauseFrom(s, t, 2);
    } else {
      assert t[..2] == "--";
      ClauseFrom(s, t, 3);
    }
  }

  lemma ClauseFrom(s: Reader, t: string, n: nat)
    requires s.place == After && s.lex == Plain && 1 <= n <= 3 && n <= |t|
    requires n == 1 ==> t[0] > ' ' && t[0] != ',' && t[0] != ';' && t[0] != '-' && t[0] != '/' && t[0] != '#'
    requires n == 2 ==> (t[0] == '-' && t[1] != '-') || (t[0] == '/' && t[1] != '*')
    requires n == 3 ==> t[0] == '-' && t[1] == '-' && t[2] > ' '
    ensures Finish(Run(s, t)) == Some(RowList(s.rows, s.after + t))
  {
    var s1 := s.(place := Clause, after := s.after + t[..n]);
    assert Run(s, t[..n]) == s1 by {
      if n == 1 {
        assert t[..1] == [t[0]];
        RunOne(s, t[0]);
      } else if n == 2 {
        assert t[..2] == [t[0], t[1]];
        RunTwo(s, t[0], t[1]);
        assert (s.after + [t[0]]) + [t[1]] == s.after + t[..2];
      } else {
        assert t[..3] == [t[0]] + [t[1], t[2]];
        RunCons(s, t[0], [t[1], t[2]]);
        RunTwo(Feed(s, t[0]), t[1], t[2]);
        assert ((s.after + [t[0]]) + [t[1]]) + [t[2]] == s.after + t[..3];
      }
    }
    hide Feed;
    RunClause(s1, t[n..]);
    assert t == t[..n] + t[n..];
    RunAppend(s, t[..n], t[n..]);
    Associative(s.after, t[..n], t[n..]);
  }

  /** Rows and a clause: the clause is everything behind the last row, and the end is not clean. */
  lemma ClauseRoundTrip(items: seq<Item>, clause: string)
    requires items != [] && ValidItems(items) && StartsClause(clause)
    ensures ReadRows(PrintItems(items) + clause) ==
            Some(RowList(RowsOf(items), PrintSpace(items[|items| - 1].behind) + clause))
  {
    hide Feed, ValidItems, PrintRow, StartsClause, PrintItems;
    RunItems(START, items);
    assert [] + RowsOf(items) == RowsOf(items);
    RunAppend(START, PrintItems(items), clause);
    RunClauseStart(Run(START, PrintItems(items)), clause);
  }
  // ----- Texts that are no lists, and other ends -----------------------------------------------

  lemma {:induction false} BrokenStays(s: Reader, t: string)
    requires s.place == Broken
    ensures Run(s, t).place == Broken
    decreases |t|
  {
    if t != "" {
      assert Feed(s, t[0]).place == Broken;
      hide Feed;
      BrokenStays(Feed(s, t[0]), t[1..]);
    }
  }

  /** Neither blank nor the beginning of a comment. */
  predicate Solid(t: string) {
    t != "" && t[0] > ' ' && !LineCommentAt(t) && !BlockCommentAt(t)
  }

  /** Anything but space and a row in front of a row, and anything but space behind a ';', breaks the list. */
  lemma SolidBreaks(s: Reader, t: string)
    requires s.lex == Plain && Solid(t)
    requires (s.place == Before && t[0] != '(') || s.place == Ended
    ensures Finish(Run(s, t)).None?
  {
    if t[0] != '-' && t[0] != '/' {
      BreaksAfter(s, t, 1);
    } else if |t| == 1 {
      assert t == [t[0]];
      RunOne(s, t[0]);
    } else if !(t[0] == '-' && t[1] == '-') {
      assert t[..2] == [t[0], t[1]];
      BreaksAfter(s, t, 2);
    } else {
      assert t[..2] == "--";
      BreaksAfter(s, t, 3);
    }
  }

  lemma BreaksAfter(s: Reader, t: string, n: nat)
    requires s.lex == Plain && (s.place == Before || s.place == Ended) && 1 <= n <= 3 && n <= |t|
    requires n == 1 ==> t[0] > ' ' && t[0] != '-' && t[0] != '/' && t[0] != '#' && (s.place == Before ==> t[0] != '(')
    requires n == 2 ==> (t[0] == '-' && t[1] != '-') || (t[0] == '/' && t[1] != '*')
    requires n == 3 ==> t[0] == '-' && t[1] == '-' && t[2] > ' '
    ensures Finish(Run(s, t)).None?
  {
    assert Run(s, t[..n]).place == Broken by {
      if n == 1 {
        assert t[..1] == [t[0]];
        RunOne(s, t[0]);
      } else if n == 2 {
        assert t[..2] == [t[0], t[1]];
        RunTwo(s, t[0], t[1]);
      } else {
        assert t[..3] == [t[0]] + [t[1], t[2]];
        RunCons(s, t[0], [t[1], t[2]]);
        RunTwo(Feed(s, t[0]), t[1], t[2]);
      }
    }
    hide Feed;
    assert t == t[..n] + t[n..];
    RunAppend(s, t[..n], t[n..]);
    BrokenStays(Run(s, t[..n]), t[n..]);
  }

  /** Where a list has come to: behind its rows, or about to read another one. */
  lemma AfterItems(items: seq<Item>, rest: string)
    requires items != [] && ValidItems(items)
    ensures var s := Reader(After, Plain, RowsOf(items), "", PrintSpace(items[|items| - 1].behind));
            && Run(START, PrintItems(items) + rest) == Run(s, rest)
            && Run(START, PrintItems(items) + ("," + rest)) == Run(Reader(Before, Plain, RowsOf(items), "", ""), rest)
            && Run(START, PrintItems(items) + (";" + rest)) == Run(s.(place := Ended, after := s.after + ";"), rest)
  {
    var s := Reader(After, Plain, RowsOf(items), "", PrintSpace(items[|items| - 1].behind));
    hide *;
    FeedAfter(s);
    RunItems(START, items);
    NoneInFront(items);
    RunAppend(START, PrintItems(items), rest);
    RunAppend(START, PrintItems(items), "," + rest);
    RunAppend(START, PrintItems(items), ";" + rest);
    RunCons(s, ',', rest);
    RunCons(s, ';', rest);
  }

  lemma NoneInFront(items: seq<Item>)
    ensures START.rows + RowsOf(items) == RowsOf(items)
  {
  }

  /** Texts that are no list of rows: something else than a row in its place, nothing behind a comma, something behind
      a ';', a comment, a row or a string that does not end. */
  lemma NoRowLists(items: seq<Item>, space: Space, v: Values, t: string)
    requires items != [] && ValidItems(items) && ValidSpace(space) && ValidValues(v)
    ensures Solid(t) && t[0] != '(' ==> ReadRows(PrintSpace(space) + t).None?
    ensures Solid(t) && t[0] != '(' ==> ReadRows(PrintItems(items) + ("," + (PrintSpace(space) + t))).None?
    ensures Solid(t) ==> ReadRows(PrintItems(items) + (";" + (PrintSpace(space) + t))).None?
    ensures ReadRows(PrintSpace(space)).None? && ReadRows(PrintItems(items) + ("," + PrintSpace(space))).None?
    ensures !Contains(t, "*/") ==> ReadRows(PrintItems(items) + ("/*" + t)).None?
    ensures ReadRows(PrintSpace(space) + ("(" + PrintValues(v))).None?
    ensures ReadRows(PrintItems(items) + ("," + (PrintSpace(space) + ("(" + PrintValues(v))))).None?
  {
    NothingInPlaceOfRow(START, space, t);
    var before := Reader(Before, Plain, RowsOf(items), "", "");
    NothingInPlaceOfRow(before, space, t);
    OpenRow(START, space, v);
    OpenRow(before, space, v);
    OpenComment(items, t);
    AfterItems(items, PrintSpace(space) + t);
    AfterItems(items, PrintSpace(space));
    AfterItems(items, PrintSpace(space) + ("(" + PrintValues(v)));
    var ended := Reader(Ended, Plain, RowsOf(items), "", PrintSpace(items[|items| - 1].behind) + ";");
    hide Feed, Contains, ValidItems, PrintItems, PrintValues;
    RunSpace(ended, space);
    RunAppend(ended, PrintSpace(space), t);
    if Solid(t) {
      SolidBreaks(Added(ended, PrintSpace(space)), t);
    }
  }

  lemma NothingInPlaceOfRow(s: Reader, space: Space, t: string)
    requires s.place == Before && s.lex == Plain && ValidSpace(space)
    ensures Finish(Run(s, PrintSpace(space))).None?
    ensures Solid(t) && t[0] != '(' ==> Finish(Run(s, PrintSpace(space) + t)).None?
  {
    hide Feed;
    RunSpace(s, space);
    RunAppend(s, PrintSpace(space), t);
    if Solid(t) && t[0] != '(' {
      SolidBreaks(s, t);
    }
  }

  lemma OpenRow(s: Reader, space: Space, v: Values)
    requires s.place == Before && s.lex == Plain && s.row == "" && ValidSpace(space) && ValidValues(v)
    ensures Finish(Run(s, PrintSpace(space) + ("(" + PrintValues(v)))).None?
  {
    var s1 := s.(place := Inside(1), row := "(");
    assert Feed(s, '(') == s1 by {
      assert "" + ['('] == "(";
    }
    hide Feed;
    RunSpace(s, space);
    RunAppend(s, PrintSpace(space), "(" + PrintValues(v));
    RunCons(s, '(', PrintValues(v));
    RunValues(s1, v);
  }

  lemma OpenComment(items: seq<Item>, t: string)
    requires items != [] && ValidItems(items)
    ensures !Contains(t, "*/") ==> ReadRows(PrintItems(items) + ("/*" + t)).None?
  {
    hide *;
    if !Contains(t, "*/") {
      AfterItems(items, "/*" + t);
      OpenBlock(Reader(After, Plain, RowsOf(items), "", PrintSpace(items[|items| - 1].behind)), t);
      ReadRowsIs(PrintItems(items) + ("/*" + t));
    }
  }

  lemma ReadRowsIs(t: string)
    ensures ReadRows(t) == Finish(Run(START, t))
  {
  }

  lemma OpenBlock(s: Reader, t: string)
    requires s.place == After && s.lex == Plain && !Contains(t, "*/")
    ensures Finish(Run(s, "/*" + t)).None?
  {
    var s1 := Added(s, "/*").(lex := Lex.Block);
    RunTwo(s, '/', '*');
    AddedTwice(s, "/", "*");
    assert Feed(Feed(s, '/'), '*') == s1;
    hide Feed, Contains;
    RunAppend(s, "/*", t);
    RunBlock(s1, t);
  }

  /** A string that does not end, anywhere in a row, leaves no list. */
  lemma OpenString(items: seq<Item>, space: Space, v: Values, q: char, parts: seq<StringPart>)
    requires items == [] || ValidItems(items)
    requires ValidSpace(space) && ValidValues(v) && IsQuote(q) && ValidStringParts(q, parts)
    ensures var row := PrintSpace(space) + ("(" + (PrintValues(v) + ([q] + PrintParts(q, parts))));
            ReadRows(if items == [] then row else PrintItems(items) + ("," + row)).None?
  {
    var s := if items == [] then START else Reader(Before, Plain, RowsOf(items), "", "");
    OpenStringFrom(s, space, v, q, parts);
    if items != [] {
      AfterItems(items, PrintSpace(space) + ("(" + (PrintValues(v) + ([q] + PrintParts(q, parts)))));
    }
    hide Run, Finish, PrintItems, PrintValues, PrintParts, PrintSpace, ValidItems;
  }

  lemma OpenStringFrom(s: Reader, space: Space, v: Values, q: char, parts: seq<StringPart>)
    requires s.place == Before && s.lex == Plain && s.row == ""
    requires ValidSpace(space) && ValidValues(v) && IsQuote(q) && ValidStringParts(q, parts)
    ensures Finish(Run(s, PrintSpace(space) + ("(" + (PrintValues(v) + ([q] + PrintParts(q, parts)))))).None?
  {
    var s1 := s.(place := Inside(1), row := "(");
    assert Feed(s, '(') == s1 by {
      assert "" + ['('] == "(";
    }
    var s2 := Added(s1, PrintValues(v));
    var s3 := Added(s2, [q]).(lex := Quoted(q));
    assert Feed(s2, q) == s3;
    hide Feed, PrintValues, PrintParts, PrintSpace, ValidStringParts, ValidSpace, ValidValues;
    RunSpace(s, space);
    RunAppend(s, PrintSpace(space), "(" + (PrintValues(v) + ([q] + PrintParts(q, parts))));
    RunCons(s, '(', PrintValues(v) + ([q] + PrintParts(q, parts)));
    RunValues(s1, v);
    RunAppend(s1, PrintValues(v), [q] + PrintParts(q, parts));
    RunCons(s2, q, PrintParts(q, parts));
    RunParts(s3, q, parts);
  }

  /** A comment to the end of the text, and a ';' with space and perhaps such a comment behind it, leave the rows
      without a clause, but the end is not clean. */
  lemma OtherEnds(items: seq<Item>, space: Space, t: string)
    requires items != [] && ValidItems(items) && ValidSpace(space)
    requires t == "" || (LineCommentAt(t) && '\n' !in t)
    ensures var ended := PrintItems(items) + (";" + (PrintSpace(space) + t));
            ReadRows(ended) == Some(RowList(RowsOf(items), "")) && !EndsCleanly(ended)
    ensures var commented := PrintItems(items) + t;
            ReadRows(commented) == Some(RowList(RowsOf(items), "")) && (t == "" <==> EndsCleanly(commented))
  {
    hide *;
    AfterItems(items, PrintSpace(space) + t);
    AfterItems(items, t);
    var s := Reader(After, Plain, RowsOf(items), "", PrintSpace(items[|items| - 1].behind));
    NothingInFront(t);
    TailEnds(s, Tight, t, PrintItems(items) + t);
    TailEnds(s.(place := Ended, after := s.after + ";"), space, t, PrintItems(items) + (";" + (PrintSpace(space) + t)));
  }

  lemma NothingInFront(t: string)
    ensures PrintSpace(Tight) + t == t && ValidSpace(Tight)
  {
  }

  /** Behind the rows or a ';' stand space and perhaps a comment to the end of the text. */
  lemma TailEnds(s: Reader, space: Space, t: string, text: string)
    requires (s.place == After || s.place == Ended) && s.lex == Plain && ValidSpace(space)
    requires t == "" || (LineCommentAt(t) && '\n' !in t)
    requires Run(START, text) == Run(s, PrintSpace(space) + t)
    ensures ReadRows(text) == Some(RowList(s.rows, ""))
    ensures EndsCleanly(text) <==> s.place == After && t == ""
  {
    hide Feed, Run, PrintSpace, ValidSpace, LineCommentAt;
    RunSpace(s, space);
    RunAppend(s, PrintSpace(space), t);
    RunNothing(Added(s, PrintSpace(space)));
    if t != "" {
      CommentAtEnd(Added(s, PrintSpace(space)), t);
    }
  }

  lemma RunNothing(s: Reader)
    ensures Run(s, "") == s
  {
  }

  lemma CommentAtEnd(s: Reader, t: string)
    requires (s.place == After || s.place == Ended) && s.lex == Plain && LineCommentAt(t) && '\n' !in t
    ensures var r := Run(s, t);
            r.place == s.place && (r.lex == LineComment || r.lex == TwoDashes) && r.rows == s.rows
  {
    if t[0] == '#' {
      var s1 := Added(s, "#").(lex := LineComment);
      assert t == ['#'] + t[1..];
      assert Feed(s, '#') == s1;
      RunCons(s, '#', t[1..]);
      hide Feed;
      RunLine(s1, t[1..]);
    } else {
      assert t[..2] == "--" && t == "--" + t[2..];
      var s1 := Added(s, "--").(lex := TwoDashes);
      RunTwo(s, '-', '-');
      AddedTwice(s, "-", "-");
      assert Feed(Feed(s, '-'), '-') == s1;
      RunAppend(s, "--", t[2..]);
      if |t| > 2 {
        var s2 := Added(s1, [t[2]]).(lex := LineComment);
        assert t[2] in t;
        assert Feed(s1, t[2]) == s2;
        assert t[2..] == [t[2]] + t[3..];
        RunCons(s1, t[2], t[3..]);
        hide Feed;
        RunLine(s2, t[3..]);
      } else {
        assert t[2..] == "";
      }
    }
  }
  // ----- Whole statements ----------------------------------------------------------------------

  /** A printed INSERT is read as the destination of its head and the rows of its list. */
  lemma InsertRoundTrip(p: Parts, ls: seq<Lexeme>, items: seq<Item>)
    requires ValidParts(p) && Tokens(ls) == HeadTokens(p) && Printable(ls, PrintItems(items))
    requires items != [] && ValidItems(items)
    ensures ReadInsert(PrintLexemes(ls) + PrintItems(items)) ==
            Some(Inserted(DestinationOf(p), RowList(RowsOf(items), "")))
  {
    HeadRoundTrip(p, ls, PrintItems(items));
    RowsRoundTrip(items);
    hide ReadHead, ReadRows, PrintItems, PrintLexemes, DestinationOf, RowsOf;
  }

  /** Statements that name different destinations are never replayed faithfully: another column list in any column, in
      upper case, another table, REPLACE for INSERT, IGNORE in one of them. */
  lemma DifferentHeadsSpoil(p1: Parts, ls1: seq<Lexeme>, t1: string, p2: Parts, ls2: seq<Lexeme>, t2: string)
    requires ValidParts(p1) && Tokens(ls1) == HeadTokens(p1) && Printable(ls1, t1)
    requires ValidParts(p2) && Tokens(ls2) == HeadTokens(p2) && Printable(ls2, t2)
    requires DestinationOf(p1) != DestinationOf(p2)
    ensures var list := [PrintLexemes(ls1) + t1, PrintLexemes(ls2) + t2];
            Replayed(list) != AllEffects(list)
  {
    HeadRoundTrip(p1, ls1, t1);
    HeadRoundTrip(p2, ls2, t2);
    var s1, s2 := PrintLexemes(ls1) + t1, PrintLexemes(ls2) + t2;
    hide ReadHead, PrintLexemes, DestinationOf, Replayed, AllEffects, ValidParts, HeadTokens, Printable;
    DifferentDestinationsSpoil(s1, s2);
  }

  lemma DifferentColumnsSpoil(p1: Parts, ls1: seq<Lexeme>, t1: string, p2: Parts, ls2: seq<Lexeme>, t2: string)
    requires ValidParts(p1) && Tokens(ls1) == HeadTokens(p1) && Printable(ls1, t1) && p1.columns.Some?
    requires ValidParts(p2) && Tokens(ls2) == HeadTokens(p2) && Printable(ls2, t2) && p2.columns.Some?
    requires ColumnNames(p1.columns.value) != ColumnNames(p2.columns.value)
    ensures var list := [PrintLexemes(ls1) + t1, PrintLexemes(ls2) + t2];
            Replayed(list) != AllEffects(list)
  {
    assert DestinationOf(p1).columns != DestinationOf(p2).columns;
    hide *;
    DifferentHeadsSpoil(p1, ls1, t1, p2, ls2, t2);
  }
}
