/** Running the paginated queries of pkg/db/query.go against a database, and walking through the pages. */
module Queries {
  import opened Text
  import opened Keywords
  import opened Itoa
  import opened Rewrite
  import opened Paging
  import opened StreamResults

  // ---- The driver's answer ---------------------------------------------------------------------

  /** The rows a query yields; a fault, if any, ends the iteration behind them. */
  datatype Reply = Refused(message: string) | Rows(columns: seq<string>, rows: seq<Row>, fault: Option<string>)

  type Slice = seq<Option<string>>

  datatype QueryResult = QueryResult(
    columns: seq<string>, rows: seq<Slice>, rowCount: nat, warning: string, hasMore: bool)

  function ToSlice(columns: seq<string>, row: Row): Slice {
    seq(|columns|, i requires 0 <= i < |columns| => if columns[i] in row then Some(row[columns[i]]) else None)
  }

  function ToSlices(columns: seq<string>, rows: seq<Row>): (r: seq<Slice>)
    ensures |r| == |rows|
  {
    seq(|rows|, i requires 0 <= i < |rows| => ToSlice(columns, rows[i]))
  }

  function Answer(plan: Plan, reply: Reply): Result<QueryResult, QueryError> {
    match reply
    case Refused(message) => Err(DriverFailed(message))
    case Rows(columns, rows, fault) =>
      if fault.Some? then Err(DriverFailed(fault.value))
      else
        var hasMore := plan.limit > 0 && |rows| >= plan.limit;
        Ok(QueryResult(columns, ToSlices(columns, rows), |rows|, plan.warning, hasMore))
  }

  /** Row `k` and column `i` of `cells` hold what row `from + k` has under that column; None where the row lacks it. */
  predicate ShowsRows(cells: seq<Slice>, columns: seq<string>, rows: seq<Row>, from: nat) {
    forall k, i | 0 <= k < |cells| && 0 <= i < |columns| ::
      && from + k < |rows| && |cells[k]| == |columns|
      && cells[k][i] == (if columns[i] in rows[from + k] then Some(rows[from + k][columns[i]]) else None)
  }

  /**
   What a caller gets for the driver's reply: its refusal, the fault behind its rows, or all rows with their values in
   place.
   */
  predicate Shows(plan: Plan, reply: Reply, r: Result<QueryResult, QueryError>) {
    match reply
    case Refused(message) => r == Err(DriverFailed(message))
    case Rows(columns, rows, fault) =>
      if fault.Some? then r == Err(DriverFailed(fault.value))
      else
        && r.Ok? && r.value.columns == columns && r.value.warning == plan.warning
        && |r.value.rows| == r.value.rowCount == |rows| && ShowsRows(r.value.rows, columns, rows, 0)
        && (r.value.hasMore <==> plan.limit > 0 && |rows| >= plan.limit)
  }

  /**
   A query path answers a panic with a panic, a refused plan with its error, and otherwise with the driver's reply to
   the plan's text.
   */
  predicate Serves(plan: Go<Result<Plan, QueryError>>, db: string -> Reply, r: Go<Result<QueryResult, QueryError>>) {
    match plan
    case Panicked => r == Panicked
    case Returned(Err(e)) => r == Returned(Err(e))
    case Returned(Ok(p)) => r.Returned? && Shows(p, db(p.sql), r.value)
  }

  function RunPlan(plan: Go<Result<Plan, QueryError>>, db: string -> Reply): Go<Result<QueryResult, QueryError>> {
    var p :- plan;
    match p
    case Err(e) => Returned(Err(e))
    case Ok(plan) => Returned(Answer(plan, db(plan.sql)))
  }

  /** The row loop that every query path ends in. */
  method ReadRows(reply: Reply, warning: string, limit: Int64) returns (r: Result<QueryResult, QueryError>)
    ensures r == Answer(Plan("", warning, limit), reply)
  {
    match reply
    case Refused(message) => r := Err(DriverFailed(message));
    case Rows(columns, rows, fault) =>
      var resultRows: seq<Slice> := [];
      for k := 0 to |rows|
        invariant |resultRows| == k
        invariant forall j | 0 <= j < k :: resultRows[j] == ToSlice(columns, rows[j])
      {
        var rowSlice: Slice := [];
        for i := 0 to |columns|
          invariant rowSlice == ToSlice(columns, rows[k])[..i]
        {
          rowSlice := rowSlice + [if columns[i] in rows[k] then Some(rows[k][columns[i]]) else None];
        }
        resultRows := resultRows + [rowSlice];
      }
      assert resultRows == ToSlices(columns, rows);
      if fault.Some? {
        return Err(DriverFailed(fault.value));
      }
      var hasMore := limit > 0 && |resultRows| >= limit;
      r := Ok(QueryResult(columns, resultRows, |resultRows|, warning, hasMore));
  }

  lemma AnswerShows(plan: Plan, reply: Reply)
    ensures Shows(plan, reply, Answer(plan, reply))
  {}

  lemma RunPlanServes(plan: Go<Result<Plan, QueryError>>, db: string -> Reply)
    ensures Serves(plan, db, RunPlan(plan, db))
  {
    if plan.Returned? && plan.value.Ok? {
      AnswerShows(plan.value.value, db(plan.value.value.sql));
    }
  }

  method QueryWithLimit(cfg: Config, db: string -> Reply, sql: string, limit: Int64)
    returns (r: Go<Result<QueryResult, QueryError>>)
    ensures r == RunPlan(LimitPlan(cfg, sql, limit), db)
    ensures Serves(LimitPlan(cfg, sql, limit), db, r)
  {
    RunPlanServes(LimitPlan(cfg, sql, limit), db);
    var op := Operation(sql);
    if !IsSelect(op) {
      return Returned(Err(NotSelect(op)));
    }
    var sqlStr, appliedLimit: Int64, warning := sql, 0, "";
    var hasExistingLimit := HasKeyword(sqlStr, "LIMIT");
    if !hasExistingLimit {
      appliedLimit := limit;
      if appliedLimit <= 0 {
        appliedLimit := cfg.defaultLimit;
      }
      if appliedLimit > cfg.maxLimit {
        appliedLimit := cfg.maxLimit;
      }
      var text := AppendLimit(sqlStr, appliedLimit);
      if text.Panicked? {
        return Panicked;
      }
      sqlStr := text.value;
      warning := Warning(cfg, limit, appliedLimit);
    }
    var answer := ReadRows(db(sqlStr), warning, appliedLimit);
    r := Returned(answer);
  }

  method QueryWithOffset(cfg: Config, db: string -> Reply, sql: string, limit: Int64, offset: Int64)
    returns (r: Go<Result<QueryResult, QueryError>>)
    ensures r == RunPlan(OffsetPlan(cfg, sql, limit, offset), db)
    ensures Serves(OffsetPlan(cfg, sql, limit, offset), db, r)
  {
    RunPlanServes(OffsetPlan(cfg, sql, limit, offset), db);
    var op := Operation(sql);
    if !IsSelect(op) {
      return Returned(Err(NotSelect(op)));
    }
    var sqlStr, appliedLimit: Int64 := sql, 0;
    var hasExistingLimit := HasKeyword(sqlStr, "LIMIT");
    if !hasExistingLimit {
      appliedLimit := limit;
      if appliedLimit <= 0 {
        appliedLimit := cfg.defaultLimit;
      }
      if appliedLimit > cfg.maxLimit {
        appliedLimit := cfg.maxLimit;
      }
      var text := AppendLimit(sqlStr, appliedLimit);
      if text.Panicked? {
        return Panicked;
      }
      sqlStr := text.value;
    }
    var hasExistingOffset := HasKeyword(sqlStr, "OFFSET");
    if !hasExistingOffset && offset > 0 {
      var text := AppendOffset(sqlStr, offset);
      if text.Panicked? {
        return Panicked;
      }
      sqlStr := text.value;
    }
    var warning := "";
    if !hasExistingLimit {
      warning := Warning(cfg, limit, appliedLimit);
    }
    var answer := ReadRows(db(sqlStr), warning, appliedLimit);
    r := Returned(answer);
  }

  method QueryWithOptions(cfg: Config, db: string -> Reply, sql: string, limit: Int64, offset: Int64)
    returns (r: Go<Result<QueryResult, QueryError>>)
    ensures r == RunPlan(OptionsPlan(cfg, sql, limit, offset), db)
    ensures Serves(OptionsPlan(cfg, sql, limit, offset), db, r)
  {
    RunPlanServes(OptionsPlan(cfg, sql, limit, offset), db);
    var op := Operation(sql);
    if !IsSelect(op) {
      return Returned(Err(NotSelect(op)));
    }
    var hasExistingLimit := HasKeyword(sql, "LIMIT");
    var hasExistingOffset := HasKeyword(sql, "OFFSET");
    if !hasExistingLimit {
      var applied := limit;
      if applied <= 0 {
        applied := cfg.defaultLimit;
      }
      if applied > cfg.maxLimit {
        applied := cfg.maxLimit;
      }
      var warning := Warning(cfg, limit, applied);
      var text := ApplyCursor(sql, applied, offset, cfg.maxLimit);
      if text.Err? {
        return Returned(Err(BadCursor(text.error)));
      }
      var answer := ReadRows(db(text.value), warning, applied);
      return Returned(answer);
    }
    var sqlStr := sql;
    if !hasExistingOffset && offset > 0 {
      var text := AppendOffset(sqlStr, offset);
      if text.Panicked? {
        return Panicked;
      }
      sqlStr := text.value;
    }
    var answer := ReadRows(db(sqlStr), "", 0);
    r := Returned(answer);
  }

  // ---- Page walk -------------------------------------------------------------------------------

  /** The text of one page of a LIMIT-free, OFFSET-free query. */
  function PageText(sql: string, n: Int64, m: Int64): string {
    CursorText(sql, n, m)
  }

  predicate PageNumbers(n: Int64, m: Int64) {
    0 < n && Fits(n) && 0 <= m && Fits(m)
  }

  function Page<T>(rows: seq<T>, n: nat, m: nat): (r: seq<T>)
    ensures |r| <= n
  {
    if m >= |rows| then [] else if m + n >= |rows| then rows[m..] else rows[m..m + n]
  }

  /** The database holds `rows` still and understands LIMIT and OFFSET. */
  ghost predicate Honours(db: string -> Reply, sql: string, columns: seq<string>, rows: seq<Row>) {
    forall n: Int64, m: Int64 | PageNumbers(n, m) :: db(PageText(sql, n, m)) == Rows(columns, Page(rows, n, m), None)
  }

  /** The query can be paged at all: a SELECT without LIMIT and OFFSET, and a page size in range. */
  predicate Pageable(cfg: Config, sql: string, limit: Int64) {
    && IsSelect(Operation(sql)) && !HasClause(sql, "LIMIT") && !HasClause(Core(sql), "OFFSET")
    && PageNumbers(Clamp(cfg, limit), 0)
  }

  type Pager = Int64 -> Go<Result<QueryResult, QueryError>>

  /** queryWithOffset as a function of the offset alone. */
  function OffsetPager(cfg: Config, db: string -> Reply, sql: string, limit: Int64): Pager {
    (offset: Int64) => RunPlan(OffsetPlan(cfg, sql, limit, offset), db)
  }

  /** QueryWithOptions as a function of the offset alone. */
  function OptionsPager(cfg: Config, db: string -> Reply, sql: string, limit: Int64): Pager {
    (offset: Int64) => RunPlan(OptionsPlan(cfg, sql, limit, offset), db)
  }

  /** The results of asking again with the offset moved on by RowCount, until HasMore is false. */
  ghost predicate IsWalk(ask: Pager, offset: Int64, pages: seq<QueryResult>)
    decreases pages
  {
    && pages != []
    && ask(offset) == Returned(Ok(pages[0]))
    && (pages[0].hasMore <==> |pages| > 1)
    && (|pages| > 1 ==>
          && offset + pages[0].rowCount < TEN_TO_12
          && IsWalk(ask, offset + pages[0].rowCount, pages[1..]))
  }

  function AllRows(pages: seq<QueryResult>): seq<Slice> {
    if pages == [] then [] else pages[0].rows + AllRows(pages[1..])
  }

  /** The page that starts at row `offset`. */
  function PageResult(columns: seq<string>, rows: seq<Row>, warning: string, n: nat, offset: nat): QueryResult {
    var page := Page(rows, n, offset);
    QueryResult(columns, ToSlices(columns, page), |page|, warning, |page| >= n)
  }

  /** On a table that holds still, both pagination paths deliver the page at their offset. */
  lemma OnePage(
    cfg: Config, db: string -> Reply, sql: string, limit: Int64, columns: seq<string>, rows: seq<Row>, offset: Int64)
    requires Pageable(cfg, sql, limit) && Honours(db, sql, columns, rows) && 0 <= offset && Fits(offset)
    ensures
      var n := Clamp(cfg, limit);
      var page := Returned(Ok(PageResult(columns, rows, Warning(cfg, limit, n), n, offset)));
      OffsetPager(cfg, db, sql, limit)(offset) == page && OptionsPager(cfg, db, sql, limit)(offset) == page
  {
    LimitFreePlansAgree(cfg, sql, limit, offset);
    var n := Clamp(cfg, limit);
    assert PageNumbers(n, offset);
    assert CursorLimit(n, cfg.maxLimit) == n;
  }

  /**
   queryWithLimit on such a table delivers its first page: at most the maximum, and HasMore exactly when the page is
   full.
   */
  lemma FirstPage(cfg: Config, db: string -> Reply, sql: string, limit: Int64, columns: seq<string>, rows: seq<Row>)
    requires Pageable(cfg, sql, limit) && Honours(db, sql, columns, rows)
    ensures
      var n := Clamp(cfg, limit);
      RunPlan(LimitPlan(cfg, sql, limit), db) == Returned(Ok(PageResult(columns, rows, Warning(cfg, limit, n), n, 0)))
    ensures
      var n := Clamp(cfg, limit);
      var result := RunPlan(LimitPlan(cfg, sql, limit), db).value.value;
      && result.columns == columns
      && |result.rows| == result.rowCount == (if n <= |rows| then n else |rows|)
      && ShowsRows(result.rows, columns, rows, 0)
      && (result.hasMore <==> n <= |rows|)
  {
    OnePage(cfg, db, sql, limit, columns, rows, 0);
  }

  /** The rows from `offset` on; none behind the last one. */
  function From<T>(rows: seq<T>, offset: nat): seq<T> {
    if offset < |rows| then rows[offset..] else []
  }

  lemma PageSplits(columns: seq<string>, rows: seq<Row>, n: nat, m: nat)
    requires 0 < n
    ensures
      var page := Page(rows, n, m);
      ToSlices(columns, page) + ToSlices(columns, From(rows, m + |page|)) == ToSlices(columns, From(rows, m))
  {
    var page := Page(rows, n, m);
    assert page + From(rows, m + |page|) == From(rows, m);
  }

  /** Full pages up to a last one that is shorter. */
  predicate FullPages(pages: seq<QueryResult>, n: nat) {
    forall k | 0 <= k < |pages| ::
      && pages[k].rowCount == |pages[k].rows|
      && (if k == |pages| - 1 then pages[k].rowCount < n else pages[k].rowCount == n)
  }

  /** The pager answers at every offset that prints with the page at that offset. */
  ghost predicate Delivers(ask: Pager, columns: seq<string>, rows: seq<Row>, warning: string, n: nat) {
    forall o: Int64 | 0 <= o < TEN_TO_12 :: ask(o) == Returned(Ok(PageResult(columns, rows, warning, n, o)))
  }

  lemma {:induction false} WalkPages(
    ask: Pager, columns: seq<string>, rows: seq<Row>, warning: string, n: nat, offset: Int64)
    returns (pages: seq<QueryResult>)
    requires 0 < n && 0 <= offset < TEN_TO_12 && |rows| < TEN_TO_12
    requires Delivers(ask, columns, rows, warning, n)
    ensures IsWalk(ask, offset, pages)
    ensures AllRows(pages) == ToSlices(columns, From(rows, offset))
    ensures FullPages(pages, n)
    decreases |From(rows, offset)|
  {
    var first := PageResult(columns, rows, warning, n, offset);
    PageSplits(columns, rows, n, offset);
    if first.hasMore {
      var rest := WalkPages(ask, columns, rows, warning, n, offset + n);
      pages := [first] + rest;
      assert pages[1..] == rest;
    } else {
      pages := [first];
      assert From(rows, offset + first.rowCount) == [];
      assert AllRows(pages) == first.rows + [];
    }
  }

  /** Two pagers that give the same answers are walked alike. */
  lemma {:induction false} WalkTransfers(
    ask: Pager, ask': Pager, columns: seq<string>, rows: seq<Row>, warning: string, n: nat,
    offset: Int64, pages: seq<QueryResult>)
    requires Delivers(ask, columns, rows, warning, n) && Delivers(ask', columns, rows, warning, n)
    requires 0 <= offset < TEN_TO_12 && IsWalk(ask, offset, pages)
    ensures IsWalk(ask', offset, pages)
    decreases pages
  {
    if |pages| <= 1 {
    } else {
      WalkTransfers(ask, ask', columns, rows, warning, n, offset + pages[0].rowCount, pages[1..]);
    }
  }

  /**
   Walking the pages, on either path and from any offset that prints, ends, visits every remaining row once and in
   order, in full pages up to a shorter last one, none above the maximum.
   */
  lemma PageWalk(
    cfg: Config, db: string -> Reply, sql: string, limit: Int64, columns: seq<string>, rows: seq<Row>, offset: Int64)
    returns (pages: seq<QueryResult>)
    requires Pageable(cfg, sql, limit) && Honours(db, sql, columns, rows)
    requires 0 <= offset < TEN_TO_12 && |rows| < TEN_TO_12
    ensures IsWalk(OffsetPager(cfg, db, sql, limit), offset, pages)
    ensures IsWalk(OptionsPager(cfg, db, sql, limit), offset, pages)
    ensures AllRows(pages) == ToSlices(columns, From(rows, offset))
    ensures |AllRows(pages)| == (if offset < |rows| then |rows| - offset else 0)
    ensures ShowsRows(AllRows(pages), columns, rows, offset)
    ensures FullPages(pages, Clamp(cfg, limit)) && forall k | 0 <= k < |pages| :: pages[k].rowCount <= cfg.maxLimit
  {
    var n := Clamp(cfg, limit);
    var warning := Warning(cfg, limit, n);
    var ask, ask' := OffsetPager(cfg, db, sql, limit), OptionsPager(cfg, db, sql, limit);
    forall o: Int64 | 0 <= o < TEN_TO_12
      ensures ask(o) == Returned(Ok(PageResult(columns, rows, warning, n, o))) == ask'(o)
    {
      OnePage(cfg, db, sql, limit, columns, rows, o);
    }
    pages := WalkPages(ask, columns, rows, warning, n, offset);
    WalkTransfers(ask, ask', columns, rows, warning, n, offset, pages);
  }

  /** There is only one walk from a given offset. */
  lemma {:induction false} WalksAreUnique(ask: Pager, offset: Int64, p: seq<QueryResult>, q: seq<QueryResult>)
    requires IsWalk(ask, offset, p) && IsWalk(ask, offset, q)
    ensures p == q
    decreases p
  {
    if |p| <= 1 {
    } else {
      WalksAreUnique(ask, offset + p[0].rowCount, p[1..], q[1..]);
      assert p == [p[0]] + p[1..] && q == [q[0]] + q[1..];
    }
  }

  // ---- The page text determines the page -------------------------------------------------------

  lemma {:induction false} DigitsEnd(a: string, b: string, x: string, y: string)
    requires AllDigits(a) && AllDigits(b) && a + x == b + y
    requires (x == "" || x[0] == ' ') && (y == "" || y[0] == ' ')
    ensures a == b && x == y
    decreases a
  {
    var s := a + x;
    assert a == "" ==> s == x;
    assert b == "" ==> s == y;
    assert a != "" ==> s[0] == a[0];
    assert b != "" ==> s[0] == b[0];
    assert a == "" && x != "" ==> s[0] == ' ';
    assert b == "" && y != "" ==> s[0] == ' ';
    if a == "" || b == "" {
    } else {
      assert a[1..] + x == s[1..] == b[1..] + y;
      DigitsEnd(a[1..], b[1..], x, y);
      assert a == [a[0]] + a[1..] && b == [b[0]] + b[1..];
    }
  }

  function OffsetPart(m: Int64): string {
    if m > 0 then " OFFSET " + Decimal(m) else ""
  }

  lemma Middle(a: string, b: string, c: string)
    ensures (a + b + c)[|a|..|a + b + c| - |c|] == b
  {}

  lemma Regroup(a: string, b: string, c: string, d: string, e: string)
    ensures a + (b + c) + d + e == (a + b) + (c + d) + e
  {}

  lemma PageTextParts(sql: string, n: Int64, m: Int64)
    requires n >= 0
    ensures
      var text, k := PageText(sql, n, m), |Core(sql)| + 7;
      k <= |text| - |Suffix(sql)| && text[k..|text| - |Suffix(sql)|] == Decimal(n) + OffsetPart(m)
  {
    var front := Core(sql) + " LIMIT ";
    var numbers := Decimal(n) + OffsetPart(m);
    assert |front| == |Core(sql)| + 7;
    Regroup(Core(sql), " LIMIT ", Decimal(n), OffsetPart(m), Suffix(sql));
    Middle(front, numbers, Suffix(sql));
  }

  lemma DecimalInjective(n: nat, n': nat)
    requires Decimal(n) == Decimal(n')
    ensures n == n'
  {
    DigitsParse(n);
    DigitsParse(n');
  }

  /** No two pages share a text: the numbers can be read back from it. */
  lemma PageTextIsInjective(sql: string, n: Int64, m: Int64, n': Int64, m': Int64)
    requires PageNumbers(n, m) && PageNumbers(n', m') && PageText(sql, n, m) == PageText(sql, n', m')
    ensures n == n' && m == m'
  {
    var x, y := OffsetPart(m), OffsetPart(m');
    PageTextParts(sql, n, m);
    PageTextParts(sql, n', m');
    assert Decimal(n) + x == Decimal(n') + y;
    DigitsParse(n);
    DigitsParse(n');
    DigitsEnd(Decimal(n), Decimal(n'), x, y);
    DecimalInjective(n, n');
    if m > 0 && m' > 0 {
      assert x[8..] == Decimal(m) && y[8..] == Decimal(m');
      DecimalInjective(m, m');
    }
  }

  ghost function Lookup(sql: string, columns: seq<string>, rows: seq<Row>, text: string): Reply {
    if exists n: Int64, m: Int64 :: PageNumbers(n, m) && PageText(sql, n, m) == text then
      var n: Int64, m: Int64 :| PageNumbers(n, m) && PageText(sql, n, m) == text;
      Rows(columns, Page(rows, n, m), None)
    else Refused("")
  }

  /** Any fixed table can be served to a page walk. */
  lemma HonouringDatabaseExists(sql: string, columns: seq<string>, rows: seq<Row>)
    ensures exists db: string -> Reply :: Honours(db, sql, columns, rows)
  {
    ghost var db: string -> Reply := text => Lookup(sql, columns, rows, text);
    forall n: Int64, m: Int64 | PageNumbers(n, m)
      ensures db(PageText(sql, n, m)) == Rows(columns, Page(rows, n, m), None)
    {
      var text := PageText(sql, n, m);
      var n': Int64, m': Int64 :| PageNumbers(n', m') && PageText(sql, n', m') == text
        && Lookup(sql, columns, rows, text) == Rows(columns, Page(rows, n', m'), None);
      PageTextIsInjective(sql, n, m, n', m');
    }
    assert Honours(db, sql, columns, rows);
  }
}
