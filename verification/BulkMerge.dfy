/** Replaying the captured statements, one by one or fused into one INSERT (MySQLLogExecute/MySQLLogExecute.cpp). */
module BulkMerge {
  import opened CStrings
  import GeneralLog
  import opened Sequences

  const VALUES: string := "VALUES"

  // ----- The second loop of main ---------------------------------------------------------------

  /** The statement under construction after the remaining list, or None for the early return. */
  function Fuse(sql: string, list: seq<string>): Option<string>
    decreases |list|
  {
    if list == [] then Some(sql)
    else if sql == "" then Fuse(list[0], list[1..])
    else
      match StrStr(list[0], VALUES)
      case None => None
      case Some(k) => Fuse(sql + "," + list[0][k + 6..], list[1..])
  }

  /** `executed` is the trace of the statements handed to the database. */
  method Replay(list: seq<string>, bulk: bool) returns (executed: seq<string>, completed: bool)
    ensures !bulk ==> completed && executed == list
    ensures bulk ==> completed == Fuse("", list).Some?
    ensures bulk ==> executed == if completed then [Fuse("", list).value] else []
    ensures bulk && list == [] ==> completed && executed == [""]
  {
    executed := [];
    var sql := "";
    for i := 0 to |list|
      invariant !bulk ==> executed == list[..i]
      invariant bulk ==> executed == [] && Fuse(sql, list[i..]) == Fuse("", list)
    {
      if bulk {
        if sql == "" {
          sql := list[i];
        } else {
          var found := StrStr(list[i], VALUES);
          if found.None? {
            return executed, false;
          }
          sql := sql + "," + list[i][found.value + 6..];
        }
      } else {
        executed := executed + [list[i]];
      }
    }
    if bulk {
      executed := executed + [sql];
    }
    completed := true;
  }

  /** The whole program: cut the log, then replay it. */
  method Execute(log: string, bulk: bool) returns (executed: seq<string>, completed: bool)
    ensures !bulk ==> completed && executed == GeneralLog.Statements(log)
    ensures bulk ==> completed == Fuse("", GeneralLog.Statements(log)).Some?
    ensures bulk ==> executed == if completed then [Fuse("", GeneralLog.Statements(log)).value] else []
    ensures bulk && GeneralLog.HeaderCount(GeneralLog.Items(log, GeneralLog.ROOM)) == 0 ==>
              completed && executed == [""]
  {
    GeneralLog.OneStatementPerHeader(GeneralLog.Items(log, GeneralLog.ROOM));
    var list := GeneralLog.SplitLog(log);
    executed, completed := Replay(list, bulk);
  }

  // ----- Where strstr finds the keyword --------------------------------------------------------

  /** No proper prefix of "VALUES" is also a suffix, so a match cannot straddle the end of the text before it. */
  lemma NoBorder(k: nat)
    requires 0 < k < 6
    ensures VALUES[..k] != VALUES[6 - k..]
  {
    assert VALUES[..k][0] == 'V';
    assert VALUES[6 - k..][0] == VALUES[6 - k] != 'V';
  }

  lemma MatchBeforeKeywordIsInside(p: string, rows: string, k: nat)
    requires k < |p| && MatchesAt(p + VALUES + rows, VALUES, k)
    ensures MatchesAt(p, VALUES, k)
  {
    var text := p + VALUES + rows;
    if k + 6 > |p| {
      var b := k + 6 - |p|;
      assert text[|p|..|p| + b] == VALUES[..b];
      assert text[k..k + 6][6 - b..] == text[|p|..|p| + b];
      NoBorder(b);
    } else {
      assert text[k..k + 6] == p[k..k + 6];
    }
  }

  /** `strstr` finds the keyword written after `p` exactly when `p` does not contain the keyword itself. */
  lemma KeywordPosition(p: string, rows: string)
    ensures StrStr(p + VALUES + rows, VALUES).Some?
    ensures StrStr(p + VALUES + rows, VALUES).value <= |p|
    ensures StrStr(p + VALUES + rows, VALUES).value == |p| <==> !Contains(p, VALUES)
  {
    var text := p + VALUES + rows;
    assert MatchesAt(text, VALUES, |p|);
    var k := StrStr(text, VALUES).value;
    if k < |p| {
      MatchBeforeKeywordIsInside(p, rows, k);
    } else if Contains(p, VALUES) {
      var j: nat :| j <= |p| && MatchesAt(p, VALUES, j);
      assert text[j..j + 6] == p[j..j + 6];
      assert MatchesAt(text, VALUES, j);
    }
  }

  /** The text before and after the first keyword of a statement that has one. */
  function Target(sql: string): (p: string)
    requires Contains(sql, VALUES)
    ensures p <= sql && !Contains(p, VALUES)
    ensures sql == p + VALUES + Rows(sql)
  {
    var k := StrStr(sql, VALUES).value;
    var p := sql[..k];
    assert forall j: nat | MatchesAt(p, VALUES, j) ::
        j < k && p[j..j + 6] == sql[j..j + 6] && MatchesAt(sql, VALUES, j);
    p
  }

  function Rows(sql: string): string
    requires Contains(sql, VALUES)
  {
    sql[StrStr(sql, VALUES).value + 6..]
  }

  /** A statement cut at its first keyword. */
  datatype Insert = Insert(target: string, rows: string)

  function Parse(sql: string): (i: Insert)
    requires Contains(sql, VALUES)
    ensures i == Insert(Target(sql), Rows(sql))
  {
    Insert(Target(sql), Rows(sql))
  }

  // ----- What the fused statement is -----------------------------------------------------------

  predicate AllContain(list: seq<string>) {
    forall s | s in list :: Contains(s, VALUES)
  }

  function Join(texts: seq<string>): string {
    if texts == [] then "" else if |texts| == 1 then texts[0] else texts[0] + "," + Join(texts[1..])
  }

  function ParseAll(list: seq<string>): (parts: seq<Insert>)
    requires AllContain(list)
    ensures |parts| == |list|
  {
    if list == [] then [] else [Parse(list[0])] + ParseAll(list[1..])
  }

  function RowTexts(parts: seq<Insert>): seq<string> {
    if parts == [] then [] else [parts[0].rows] + RowTexts(parts[1..])
  }

  lemma JoinStep(list: seq<string>)
    requires list != [] && AllContain(list)
    ensures Join(RowTexts(ParseAll(list))) ==
            if |list| == 1 then Rows(list[0]) else Rows(list[0]) + "," + Join(RowTexts(ParseAll(list[1..])))
  {
    assert RowTexts(ParseAll(list)) == [Rows(list[0])] + RowTexts(ParseAll(list[1..]));
    RowTextsLength(ParseAll(list[1..]));
  }

  lemma RowTextsLength(parts: seq<Insert>)
    ensures |RowTexts(parts)| == |parts|
  {
  }

  lemma Reassociate(a: string, b: string, c: string)
    ensures a + b + "," + c == a + (b + "," + c)
  {
    Associative(a, b, ",");
    Associative(a, b + ",", c);
  }

  lemma {:induction false} FuseAppends(sql: string, list: seq<string>)
    requires sql != ""
    ensures Fuse(sql, list).Some? <==> AllContain(list)
    ensures AllContain(list) ==>
              Fuse(sql, list) == Some(if list == [] then sql else sql + "," + Join(RowTexts(ParseAll(list))))
    decreases |list|
  {
    if list != [] {
      assert AllContain(list) <==> Contains(list[0], VALUES) && AllContain(list[1..]);
      if Contains(list[0], VALUES) {
        var next := sql + "," + Rows(list[0]);
        FuseAppends(next, list[1..]);
        if AllContain(list) {
          JoinStep(list);
          Reassociate(sql + ",", Rows(list[0]), Join(RowTexts(ParseAll(list[1..]))));
        }
      }
    }
  }

  /** Nothing is executed unless every statement after the first has the keyword. */
  lemma BulkIsAllOrNothing(list: seq<string>)
    requires "" !in list
    ensures Fuse("", list).Some? <==> (list != [] ==> AllContain(list[1..]))
  {
    if list != [] {
      assert list[0] in list;
      FuseAppends(list[0], list[1..]);
    }
  }

  /** The first statement is taken as it is, keyword or not; only the row texts of the later ones follow it. */
  lemma FirstIsNotChecked(list: seq<string>)
    requires "" !in list && list != []
    ensures Fuse("", list).Some? <==> AllContain(list[1..])
    ensures AllContain(list[1..]) ==>
              Fuse("", list).value ==
              if |list| == 1 then list[0] else list[0] + "," + Join(RowTexts(ParseAll(list[1..])))
  {
    assert list[0] in list;
    FuseAppends(list[0], list[1..]);
  }

  /** So a log that begins with another statement executes no INSERT at all. */
  lemma FirstStatementExample()
    ensures var list := ["SET NAMES utf8", "INSERT INTO t " + VALUES + " (1)"];
            !Contains(list[0], VALUES) && Fuse("", list) == Some("SET NAMES utf8" + "," + " (1)")
  {
    var first, p, row := "SET NAMES utf8", "INSERT INTO t ", " (1)";
    assert NoV(first) && NoV(p);
    NoKeyword(first);
    NoKeyword(p);
    RowsOfInsert(p, row);
    hide Contains, Rows, NoV;
    FuseSteps(first, p + VALUES + row);
  }

  lemma FuseSteps(first: string, second: string)
    requires first != "" && Contains(second, VALUES)
    ensures Fuse("", [first, second]) == Some(first + "," + Rows(second))
  {
    assert [first, second][1..] == [second];
    FuseStep(first, second, []);
    assert [second] + [] == [second];
  }

  predicate NoV(s: string) {
    'V' !in s
  }

  lemma NoKeyword(s: string)
    requires NoV(s)
    ensures !Contains(s, VALUES)
  {
    forall i: nat | i <= |s| ensures !MatchesAt(s, VALUES, i) {
      if i + 6 <= |s| {
        assert s[i..i + 6][0] == s[i] != VALUES[0];
      }
    }
  }

  /** The fused statement is the first one's target followed by all row texts, in order. */
  lemma FusedStatement(list: seq<string>)
    requires list != [] && AllContain(list)
    ensures Fuse("", list) == Some(Target(list[0]) + VALUES + Join(RowTexts(ParseAll(list))))
  {
    var p, rows, rest := Target(list[0]), Rows(list[0]), list[1..];
    assert Contains(list[0], VALUES) && list[0] == p + VALUES + rows;
    FuseAppends(list[0], rest);
    JoinStep(list);
    if rest != [] {
      Reassociate(p + VALUES, rows, Join(RowTexts(ParseAll(rest))));
    }
  }

  function Inserts(p: string, rows: seq<string>): seq<string> {
    if rows == [] then [] else [p + VALUES + rows[0]] + Inserts(p, rows[1..])
  }

  lemma FuseStep(sql: string, s: string, rest: seq<string>)
    requires sql != "" && Contains(s, VALUES)
    ensures Fuse(sql, [s] + rest) == Fuse(sql + "," + Rows(s), rest)
  {
  }

  lemma RowsOfInsert(p: string, row: string)
    ensures Contains(p + VALUES + row, VALUES)
    ensures |Rows(p + VALUES + row)| >= |row|
    ensures Contains(p, VALUES) ==> |Rows(p + VALUES + row)| > |row|
    ensures !Contains(p, VALUES) ==> Rows(p + VALUES + row) == row
  {
    KeywordPosition(p, row);
    assert (p + VALUES + row)[|p| + 6..] == row;
  }

  lemma {:induction false} FuseInserts(sql: string, p: string, rows: seq<string>)
    requires sql != ""
    ensures var fused := Fuse(sql, Inserts(p, rows));
            var wanted := if rows == [] then sql else sql + "," + Join(rows);
            && fused.Some?
            && |fused.value| >= |wanted|
            && (rows != [] ==> (fused.value == wanted <==> !Contains(p, VALUES)))
    decreases |rows|
  {
    if rows != [] {
      var s := p + VALUES + rows[0];
      RowsOfInsert(p, rows[0]);
      FuseStep(sql, s, Inserts(p, rows[1..]));
      FuseInserts(sql + "," + Rows(s), p, rows[1..]);
      hide Rows, Fuse, Contains, Inserts;
      if |rows| > 1 {
        Reassociate(sql + ",", rows[0], Join(rows[1..]));
      }
    }
  }

  /** Statements on one target are fused as intended exactly when the text before the keyword does not contain it. */
  lemma CommonPrefixMerge(p: string, rows: seq<string>)
    requires |rows| >= 2
    ensures Fuse("", Inserts(p, rows)) == Some(p + VALUES + Join(rows)) <==> !Contains(p, VALUES)
  {
    var first, more := p + VALUES + rows[0], Join(rows[1..]);
    FuseInserts(first, p, rows[1..]);
    assert Fuse("", Inserts(p, rows)) == Fuse(first, Inserts(p, rows[1..]));
    hide Fuse, Inserts, Contains;
    Reassociate(p + VALUES, rows[0], more);
    assert Join(rows) == rows[0] + "," + more;
  }
}
