/** Cutting a MySQL general log into statements (MySQLLogExecute/MySQLLogExecute.cpp). */
module GeneralLog {
  import opened CStrings

  /** `char szBuf[8192]`: `fgets` delivers at most BUF_SIZE - 1 bytes at a time. */
  const BUF_SIZE: nat := 8192

  // ----- What one read delivers ----------------------------------------------------------------

  /** Length of the first line of `input`, line feed included. */
  function LineLen(input: string): (n: nat)
    ensures n <= |input|
    ensures input != [] ==> 0 < n
    ensures forall k | 0 <= k < n - 1 :: input[k] != '\n'
    ensures n < |input| ==> 0 < n && input[n - 1] == '\n'
  {
    if input == [] then 0
    else if input[0] == '\n' then 1
    else 1 + LineLen(input[1..])
  }

  /** How many bytes one read may deliver; the header tests need 34 of them. */
  type Room = n: nat | 34 <= n witness 34

  /** The room `fgets` has in `szBuf`. */
  const ROOM: Room := BUF_SIZE - 1

  /** How much of `input` the next read delivers. */
  function Cut(input: string, room: Room): (n: nat)
    ensures n <= LineLen(input) && n <= room && (input != [] ==> 0 < n)
    ensures n < LineLen(input) ==> n == room
  {
    if LineLen(input) <= room then LineLen(input) else room
  }

  // ----- The functional specification ----------------------------------------------------------

  /** What one buffer contributes: a new statement, or text for the statement already open. */
  datatype Item = Header(text: string) | Continuation(text: string)

  /** The line terminator removal of the loop, on the string held in the buffer. */
  function Strip(text: string): string {
    if |text| >= 2 && text[|text| - 2] == '\r' then text[..|text| - 2]
    else if |text| >= 1 && text[|text| - 1] == '\n' then text[..|text| - 1]
    else text
  }

  predicate ShortHeader(text: string) {
    |text| >= 20 && text[9..14] == "Query"
  }

  predicate LongHeader(text: string) {
    |text| >= 34 && text[23..28] == "Query"
  }

  predicate IsHeader(text: string) {
    ShortHeader(text) || LongHeader(text)
  }

  function Classify(text: string): Item {
    if ShortHeader(text) then Header(Strip(text)[15..])
    else if LongHeader(text) then Header(Strip(text)[29..])
    else Continuation(Strip(text))
  }

  function Items(input: string, room: Room): seq<Item>
    decreases |input|
  {
    if input == [] then []
    else [Classify(CStr(input[..Cut(input, room)]))] + Items(input[Cut(input, room)..], room)
  }

  /** The text added to an open statement before the next header. */
  function Body(items: seq<Item>): string {
    if items == [] || items[0].Header? then "" else items[0].text + Body(items[1..])
  }

  /** One statement per header: its text followed by the continuations up to the next header. */
  function Group(items: seq<Item>): seq<string> {
    if items == [] then []
    else if items[0].Header? then [items[0].text + Body(items[1..])] + Group(items[1..])
    else Group(items[1..])
  }

  function Statements(log: string): seq<string> {
    Group(Items(log, ROOM))
  }

  function HeaderCount(items: seq<Item>): nat {
    if items == [] then 0 else (if items[0].Header? then 1 else 0) + HeaderCount(items[1..])
  }

  // ----- Facts about the specification ---------------------------------------------------------

  /** The thresholds 20 and 34 leave at least three bytes of statement whatever is stripped. */
  lemma CapturedIsNonEmpty(text: string)
    ensures Classify(text).Header? <==> IsHeader(text)
    ensures IsHeader(text) ==> |Classify(text).text| >= 3
  {
  }

  lemma {:induction false} OneStatementPerHeader(items: seq<Item>)
    ensures |Group(items)| == HeaderCount(items)
  {
    if items != [] {
      OneStatementPerHeader(items[1..]);
    }
  }

  /** The list and the open statement `sql`, completed by the items still to come. */
  function Pending(sql: string, items: seq<Item>): seq<string> {
    if sql == "" then Group(items) else [sql + Body(items)] + Group(items)
  }

  /** A line without its terminator. */
  function Unterminated(text: string): string {
    if |text| >= 2 && text[|text| - 2..] == "\r\n" then text[..|text| - 2]
    else if |text| >= 1 && text[|text| - 1] == '\n' then text[..|text| - 1]
    else text
  }

  /** `Strip` removes exactly the line terminator unless a '\r' stands one byte before a last byte that is not a
      line feed; then that last byte is lost too. */
  lemma StripIsExact(text: string)
    ensures Strip(text) == Unterminated(text) <==>
            !(|text| >= 2 && text[|text| - 2] == '\r' && text[|text| - 1] != '\n')
  {
    assert |text| >= 2 ==> text[|text| - 2..] == [text[|text| - 2], text[|text| - 1]];
  }

  // ----- The imperative loop -------------------------------------------------------------------

  /** libc `fgets`: up to buf.Length - 1 bytes through the first line feed, then a NUL. */
  method FGets(buf: array<char>, file: string) returns (ok: bool, rest: string)
    requires buf.Length == BUF_SIZE
    modifies buf
    ensures ok <==> file != []
    ensures !ok ==> rest == file && buf[..] == old(buf[..])
    ensures ok ==> rest == file[Cut(file, ROOM)..]
    ensures ok ==> forall k | 0 <= k < Cut(file, ROOM) :: buf[k] == file[k]
    ensures ok ==> buf[Cut(file, ROOM)] == '\0'
    ensures ok ==> forall k | Cut(file, ROOM) < k < BUF_SIZE :: buf[k] == old(buf[k])
  {
    if file == [] {
      return false, file;
    }
    var n := 0;
    var sawLineFeed := false;
    while n < buf.Length - 1 && n < |file| && !sawLineFeed
      invariant n <= LineLen(file) && n <= buf.Length - 1
      invariant forall k | 0 <= k < n :: buf[k] == file[k]
      invariant forall k | n <= k < buf.Length :: buf[k] == old(buf[k])
      invariant if sawLineFeed then n == LineLen(file) else forall k | 0 <= k < n :: file[k] != '\n'
    {
      buf[n] := file[n];
      sawLineFeed := file[n] == '\n';
      n := n + 1;
    }
    buf[n] := '\0';
    return true, file[n..];
  }

  /** `memset( szBuf, 0, sizeof(szBuf) )` */
  method Clear(buf: array<char>)
    modifies buf
    ensures forall k | 0 <= k < buf.Length :: buf[k] == '\0'
  {
    forall k | 0 <= k < buf.Length {
      buf[k] := '\0';
    }
  }

  /** Removes the line terminator in place; `len` is the `strlen` taken before it. */
  method StripInPlace(buf: array<char>, ghost text: string) returns (len: nat)
    requires text == CStr(buf[..]) && |text| < buf.Length
    modifies buf
    ensures len == |text|
    ensures CStr(buf[..]) == Strip(text)
    ensures forall k | 0 <= k < |Strip(text)| :: buf[k] == text[k]
  {
    len := |CStr(buf[..])|;
    if len >= 2 && buf[len - 2] == '\r' {
      buf[len - 2] := '\0';
    } else if len >= 1 && buf[len - 1] == '\n' {
      buf[len - 1] := '\0';
    }
    ghost var stripped := Strip(text);
    assert buf[..][..|stripped|] == stripped;
    CStrUnique(buf[..], |stripped|);
  }

  lemma CStrFrom(b: seq<char>, off: nat)
    requires off <= |CStr(b)|
    ensures CStr(b[off..]) == CStr(b)[off..]
  {
    assert b[off..][..|CStr(b)| - off] == CStr(b)[off..];
    CStrUnique(b[off..], |CStr(b)| - off);
  }

  lemma SliceOfPrefix(s: string, m: nat, i: nat, j: nat)
    requires i <= j <= m <= |s|
    ensures s[..m][i..j] == s[i..j]
  {
  }

  lemma StripIsPrefix(text: string)
    ensures Strip(text) <= text && |Strip(text)| + 2 >= |text|
  {
  }

  /** A header test at `at` and the capture six bytes later read the same in the stripped buffer. */
  lemma StrippedBuffer(b: seq<char>, text: string, at: nat)
    requires CStr(b) == Strip(text) && |text| >= at + 8
    ensures |Strip(text)| >= at + 6 && |b| >= at + 6
    ensures b[at..at + 5] == text[at..at + 5]
    ensures CStr(b[at + 6..]) == Strip(text)[at + 6..]
  {
    hide *;
    StripIsPrefix(text);
    var m := |CStr(b)|;
    assert b[..m] == text[..m];
    SamePrefix(b, text, m, at, at + 5);
    CStrFrom(b, at + 6);
  }

  lemma SamePrefix(b: string, text: string, m: nat, i: nat, j: nat)
    requires i <= j <= m <= |b| && m <= |text| && b[..m] == text[..m]
    ensures b[i..j] == text[i..j]
  {
    SliceOfPrefix(b, m, i, j);
    SliceOfPrefix(text, m, i, j);
  }

  /** The effect of one buffer on the finished statements and the open one. */
  function Advance(list: seq<string>, sql: string, item: Item): (seq<string>, string) {
    if item.Header? then (if sql != "" then list + [sql] else list, item.text)
    else if sql != "" then (list, sql + item.text)
    else (list, sql)
  }

  lemma AdvanceKeepsStatements(list: seq<string>, sql: string, items: seq<Item>)
    requires items != []
    requires items[0].Header? ==> items[0].text != ""
    ensures var (list', sql') := Advance(list, sql, items[0]);
            list' + Pending(sql', items[1..]) == list + Pending(sql, items)
  {
    var rest := items[1..];
    if items[0].Header? {
      assert sql + "" == sql;
      var next := [items[0].text + Body(rest)] + Group(rest);
      assert (list + [sql]) + next == list + ([sql] + next);
    } else {
      assert (sql + items[0].text) + Body(rest) == sql + (items[0].text + Body(rest));
    }
  }

  /** The accumulators after a number of buffers, starting from none. */
  function AfterItems(items: seq<Item>): (seq<string>, string) {
    if items == [] then ([], "")
    else
      var (list, sql) := AfterItems(items[..|items| - 1]);
      Advance(list, sql, items[|items| - 1])
  }

  lemma {:induction false} HeaderCountAppend(a: seq<Item>, b: seq<Item>)
    ensures HeaderCount(a + b) == HeaderCount(a) + HeaderCount(b)
  {
    if a == [] {
      assert a + b == b;
    } else {
      assert (a + b)[1..] == a[1..] + b;
      HeaderCountAppend(a[1..], b);
    }
  }

  predicate HeadersHaveText(items: seq<Item>) {
    forall i | 0 <= i < |items| && items[i].Header? :: items[i].text != ""
  }

  lemma {:induction false} AccumulatorsCountHeaders(items: seq<Item>)
    requires HeadersHaveText(items)
    ensures var (list, sql) := AfterItems(items);
            && (sql == "" <==> HeaderCount(items) == 0)
            && |list| + (if sql == "" then 0 else 1) == HeaderCount(items)
    decreases |items|
  {
    if items != [] {
      var n := |items| - 1;
      AccumulatorsCountHeaders(items[..n]);
      HeaderCountAppend(items[..n], [items[n]]);
      assert items == items[..n] + [items[n]];
    }
  }

  lemma {:induction false} CapturesAreNonEmpty(input: string)
    ensures HeadersHaveText(Items(input, ROOM))
    decreases |input|
  {
    if input != [] {
      CapturedIsNonEmpty(CStr(input[..Cut(input, ROOM)]));
      CapturesAreNonEmpty(input[Cut(input, ROOM)..]);
      hide Classify, Cut, CStr, IsHeader;
    }
  }

  /** After any number of reads of any log, `strSQL.empty()` holds exactly when no header has been seen, and the
      finished statements with the open one are as many as the headers. */
  lemma EmptyUntilFirstHeader(log: string, n: nat)
    requires n <= |Items(log, ROOM)|
    ensures var seen := Items(log, ROOM)[..n];
            var (list, sql) := AfterItems(seen);
            && (sql == "" <==> HeaderCount(seen) == 0)
            && |list| + (if sql == "" then 0 else 1) == HeaderCount(seen)
  {
    CapturesAreNonEmpty(log);
    AccumulatorsCountHeaders(Items(log, ROOM)[..n]);
  }

  /** The loop body of the first loop of `main`, after the read. */
  method ProcessBuffer(buf: array<char>, ghost text: string, list: seq<string>, sql: string)
    returns (list': seq<string>, sql': string)
    requires buf.Length == BUF_SIZE && CStr(buf[..]) == text && |text| < BUF_SIZE
    modifies buf
    ensures (list', sql') == Advance(list, sql, Classify(text))
    ensures forall k | 0 <= k < buf.Length :: buf[k] == '\0'
  {
    list', sql' := list, sql;
    var len := StripInPlace(buf, text);
    if len >= 20 {
      StrippedBuffer(buf[..], text, 9);
    }
    if len >= 34 {
      StrippedBuffer(buf[..], text, 23);
    }
    assert buf[9..14] == buf[..][9..14] && buf[23..28] == buf[..][23..28];
    assert buf[15..] == buf[..][15..] && buf[29..] == buf[..][29..];
    if len >= 20 && buf[9..14] == "Query" {
      if sql' != "" {
        list' := list' + [sql'];
      }
      sql' := CStr(buf[15..]);
    } else if len >= 34 && buf[23..28] == "Query" {
      if sql' != "" {
        list' := list' + [sql'];
      }
      sql' := CStr(buf[29..]);
    } else if sql' != "" {
      sql' := sql' + CStr(buf[..]);
    }
    Clear(buf);
  }

  lemma BufferText(b: seq<char>, chunk: string)
    requires |chunk| < |b| && b[..|chunk|] == chunk && b[|chunk|] == '\0'
    ensures CStr(b) == CStr(chunk)
  {
    var n := |CStr(chunk)|;
    assert b[..n] == CStr(chunk);
    CStrUnique(b, n);
  }

  /** The first loop of `main`, with the flush after it. */
  method SplitLog(log: string) returns (list: seq<string>)
    ensures list == Statements(log)
  {
    var buf := new char[BUF_SIZE];
    var sql := "";
    list := [];
    Clear(buf);
    var file := log;
    var ok, rest := FGets(buf, file);
    while ok
      invariant ok <==> file != []
      invariant ok ==> rest == file[Cut(file, ROOM)..]
      invariant ok ==> forall k | 0 <= k < Cut(file, ROOM) :: buf[k] == file[k]
      invariant ok ==> buf[Cut(file, ROOM)] == '\0'
      invariant Statements(log) == list + Pending(sql, Items(file, ROOM))
      decreases |file|
    {
      ghost var chunk := file[..Cut(file, ROOM)];
      BufferText(buf[..], chunk);
      CapturedIsNonEmpty(CStr(chunk));
      AdvanceKeepsStatements(list, sql, Items(file, ROOM));
      list, sql := ProcessBuffer(buf, CStr(chunk), list, sql);
      file := rest;
      ok, rest := FGets(buf, file);
    }
    assert sql + "" == sql && [sql] + [] == [sql];
    if sql != "" {
      list := list + [sql];
    }
  }
}
