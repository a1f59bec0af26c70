/** The query paths of pkg/db/query.go and ApplyCursor of internal/sqlnorm/pagination.go. */
module Paging {
  import opened Text
  import opened Keywords
  import opened Lexer
  import opened Itoa
  import opened Rewrite

  datatype Result<+T, +E> = Ok(value: T) | Err(error: E)

  // ---- Operation -------------------------------------------------------------------------------

  predicate EndsWord(c: char) {
    c == ' ' || c == '\t' || c == '\n' || c == '\r' || c == '('
  }

  /** The first word of `s`: everything before a blank or an opening parenthesis. */
  function FirstWord(s: string): string {
    if s == "" || EndsWord(s[0]) then ""
    else [s[0]] + FirstWord(s[1..])
  }

  function Operation(sql: string): string {
    Upper(FirstWord(Trim(sql)))
  }

  predicate IsSelect(op: string) {
    op == "SELECT" || op == "WITH"
  }

  lemma {:induction false} FirstWordIs(s: string, n: nat)
    requires n <= |s| && forall i | 0 <= i < n :: !EndsWord(s[i])
    requires n == |s| || EndsWord(s[n])
    ensures FirstWord(s) == s[..n]
    decreases s
  {
    if n == 0 {
    } else {
      assert s[1..][n - 1..] == s[n..];
      FirstWordIs(s[1..], n - 1);
    }
  }

  lemma {:induction false} FirstWordStops(s: string)
    ensures |FirstWord(s)| <= |s| && FirstWord(s) == s[..|FirstWord(s)|]
    ensures forall i | 0 <= i < |FirstWord(s)| :: !EndsWord(s[i])
    ensures |FirstWord(s)| < |s| ==> EndsWord(s[|FirstWord(s)|])
    decreases s
  {
    if s == "" || EndsWord(s[0]) {
    } else {
      FirstWordStops(s[1..]);
    }
  }

  lemma SelectHasCore(sql: string)
    requires IsSelect(Operation(sql))
    ensures Core(sql) != ""
  {
    FirstWordStops(Trim(sql));
    assert |Operation(sql)| >= 4;
  }

  // ---- ApplyCursor -----------------------------------------------------------------------------

  datatype CursorError = NegativeLimit(limit: Int64) | NegativeOffset(offset: Int64)

  /** ApplyCursor's own default and cap; for a limit that is already clamped it changes nothing. */
  function CursorLimit(limit: Int64, maxLimit: Int64): Int64 {
    var applied := if limit <= 0 then 100 else limit;
    if maxLimit > 0 && applied > maxLimit then maxLimit else applied
  }

  function ApplyCursor(sql: string, limit: Int64, offset: Int64, maxLimit: Int64): Result<string, CursorError> {
    if limit < 0 then Err(NegativeLimit(limit))
    else if offset < 0 then Err(NegativeOffset(offset))
    else Ok(CursorText(sql, CursorLimit(limit, maxLimit), offset))
  }

  function CursorText(sql: string, limit: Int64, offset: Int64): string {
    Core(sql) + (" LIMIT " + Decimal(limit)) + (if offset > 0 then " OFFSET " + Decimal(offset) else "") + Suffix(sql)
  }

  /** Appending a LIMIT, then an OFFSET where one is asked for. */
  function AppendBoth(sql: string, limit: Int64, offset: Int64): Go<string> {
    var limited :- AppendLimit(sql, limit);
    if offset > 0 then AppendOffset(limited, offset) else Returned(limited)
  }

  /** ApplyCursor is AppendOFFSET after AppendLIMIT, wherever the latter two print their numbers. */
  lemma CursorIsBothAppends(sql: string, limit: Int64, offset: Int64)
    requires Core(sql) != "" && Fits(limit) && (offset <= 0 || Fits(offset))
    ensures AppendBoth(sql, limit, offset) == Returned(CursorText(sql, limit, offset))
  {
    ClauseWords();
    AppendedTextIsTrimmed(sql, "LIMIT", limit);
    var limited := AppendLimit(sql, limit).value;
    ClauseText("LIMIT", limit);
    ClauseText("OFFSET", offset);
    assert Core(sql) + (" LIMIT " + Decimal(limit)) + "" == Core(sql) + (" LIMIT " + Decimal(limit));
  }

  lemma ClauseText(word: string, n: Int64)
    ensures " " + word + " " + Decimal(n) == (" " + word + " ") + Decimal(n)
    ensures " " + "LIMIT" + " " == " LIMIT " && " " + "OFFSET" + " " == " OFFSET "
  {}

  // ---- Query plans -----------------------------------------------------------------------------

  datatype Config = Config(defaultLimit: Int64, maxLimit: Int64)

  datatype QueryError = NotSelect(op: string) | BadCursor(cursor: CursorError) | DriverFailed(message: string)

  /** The text handed to the driver, the warning, and the limit that HasMore compares with. */
  datatype Plan = Plan(sql: string, warning: string, limit: Int64)

  /**
   The applied limit: the caller's where it is positive and allowed, the default where it is not positive, never above
   the maximum.
   */
  function Clamp(cfg: Config, limit: Int64): (r: Int64)
    ensures r <= cfg.maxLimit
    ensures 0 < limit <= cfg.maxLimit ==> r == limit
    ensures r < cfg.maxLimit ==> r == (if limit > 0 then limit else cfg.defaultLimit)
    ensures r == cfg.maxLimit ==> r <= (if limit > 0 then limit else cfg.defaultLimit)
  {
    var wanted := if limit <= 0 then cfg.defaultLimit else limit;
    if wanted > cfg.maxLimit then cfg.maxLimit else wanted
  }

  function Warning(cfg: Config, asked: Int64, applied: Int64): string {
    if asked > cfg.maxLimit then "LIMIT capped to " + Decimal(applied) + " (max allowed)"
    else "LIMIT " + Decimal(applied) + " applied automatically"
  }

  function LimitPlan(cfg: Config, sql: string, limit: Int64): Go<Result<Plan, QueryError>> {
    if !IsSelect(Operation(sql)) then Returned(Err(NotSelect(Operation(sql))))
    else
      var text :- EnforceLimit(sql, Clamp(cfg, limit));
      if HasClause(sql, "LIMIT") then Returned(Ok(Plan(text, "", 0)))
      else Returned(Ok(Plan(text, Warning(cfg, limit, Clamp(cfg, limit)), Clamp(cfg, limit))))
  }

  /** queryWithOffset is the LIMIT path with an OFFSET put on its text unless that already has one. */
  function OffsetPlan(cfg: Config, sql: string, limit: Int64, offset: Int64): Go<Result<Plan, QueryError>> {
    var limited :- LimitPlan(cfg, sql, limit);
    match limited
    case Err(_) => Returned(limited)
    case Ok(plan) =>
      if HasClause(plan.sql, "OFFSET") || offset <= 0 then Returned(limited)
      else
        var text :- AppendOffset(plan.sql, offset);
        Returned(Ok(plan.(sql := text)))
  }

  function OptionsPlan(cfg: Config, sql: string, limit: Int64, offset: Int64): Go<Result<Plan, QueryError>> {
    if !IsSelect(Operation(sql)) then Returned(Err(NotSelect(Operation(sql))))
    else if !HasClause(sql, "LIMIT") then
      match ApplyCursor(sql, Clamp(cfg, limit), offset, cfg.maxLimit)
      case Err(e) => Returned(Err(BadCursor(e)))
      case Ok(text) => Returned(Ok(Plan(text, Warning(cfg, limit, Clamp(cfg, limit)), Clamp(cfg, limit))))
    else if HasClause(sql, "OFFSET") || offset <= 0 then Returned(Ok(Plan(sql, "", 0)))
    else
      var text :- AppendOffset(sql, offset);
      Returned(Ok(Plan(text, "", 0)))
  }

  // ---- What the LIMIT path guarantees ----------------------------------------------------------

  /** The first word does not depend on what follows it, as long as a blank ends it. */
  lemma FirstWordKept(core: string, end: string, tail: string)
    requires |FirstWord(core + end)| <= |core| && tail != "" && tail[0] == ' '
    ensures FirstWord(core + tail) == FirstWord(core + end)
  {
    var s, r, k := core + end, core + tail, |FirstWord(core + end)|;
    FirstWordStops(s);
    assert forall i | 0 <= i < |core| :: r[i] == core[i] == s[i];
    assert r[..k] == s[..k];
    FirstWordIs(r, k);
  }

  lemma SelectWordIsInCore(sql: string)
    requires IsSelect(Operation(sql))
    ensures |FirstWord(Trim(sql))| <= |Core(sql)|
  {
    var s, op := Trim(sql), Operation(sql);
    FirstWordStops(s);
    assert op != "" && op[|op| - 1] != ';';
    assert op[|op| - 1] == UpperChar(s[|op| - 1]);
  }

  /** Appending a clause to a SELECT leaves it a SELECT. */
  lemma OperationStays(sql: string, word: string, n: Int64)
    requires IsSelect(Operation(sql)) && IsWord(word) && AppendClause(sql, word, n).Returned?
    ensures Operation(AppendClause(sql, word, n).value) == Operation(sql)
  {
    SelectHasCore(sql);
    SelectWordIsInCore(sql);
    CoreStart(sql);
    AppendedTextIsTrimmed(sql, word, n);
    var tail := AppendedText(sql, word, n);
    TailByte(tail, word, Printed(n).value, 0);
    FirstWordKept(Core(sql), Suffix(sql), tail);
  }

  /**
   LIMIT enforcement on a query path: the text is still the same kind of statement, the search sees a LIMIT in it and
   lets it pass unchanged from then on exactly when `LimitStays`, and an appended limit is at most the maximum. The text
   has a LIMIT that is read as SQL exactly when the one that was seen is, or, with an appended one, when the text ends
   outside quotes and comments or has another.
   */
  lemma LimitIsEnforced(cfg: Config, sql: string, limit: Int64, cfg': Config, again: Int64)
    requires LimitPlan(cfg, sql, limit).Returned? && LimitPlan(cfg, sql, limit).value.Ok?
    ensures
      var plan := LimitPlan(cfg, sql, limit).value.value;
      && Operation(plan.sql) == Operation(sql)
      && (HasClause(plan.sql, "LIMIT") <==> LimitStays(sql))
      && (LimitPlan(cfg', plan.sql, again) == Returned(Ok(Plan(plan.sql, "", 0))) <==> LimitStays(sql))
      && (if HasClause(sql, "LIMIT") then plan == Plan(sql, "", 0) else plan.sql != sql && plan.limit <= cfg.maxLimit)
      && (ReadsClause(plan.sql, "LIMIT") <==>
            if HasClause(sql, "LIMIT") then ReadsClause(sql, "LIMIT")
            else EndMode(Normal, Core(sql)) == Normal || ReadsClause(Core(sql), "LIMIT"))
  {
    ClauseWords();
    var text := LimitPlan(cfg, sql, limit).value.value.sql;
    EnforcementIsIdempotent(sql, Clamp(cfg, limit), Clamp(cfg', again));
    if !HasClause(sql, "LIMIT") {
      OperationStays(sql, "LIMIT", Clamp(cfg, limit));
      AppendingChanges(sql, "LIMIT", Clamp(cfg, limit));
      AppendedClauseReads(sql, "LIMIT", Clamp(cfg, limit));
    }
  }

  // ---- When the paths panic --------------------------------------------------------------------

  /** itoa returns for the least integer too, with a bare sign. */
  predicate Prints(n: Int64) {
    Fits(n) || n == MIN_INT64
  }

  /** The paths that append an OFFSET do so here, and the number does not fit. */
  predicate OffsetOverflows(text: string, offset: Int64) {
    offset >= TEN_TO_12 && !HasClause(text, "OFFSET")
  }

  /**
   A number too wide for itoa takes the offset path down wherever it is appended, the options path only behind a LIMIT.
   */
  lemma PlansPanicExactly(cfg: Config, sql: string, limit: Int64, offset: Int64)
    ensures LimitPlan(cfg, sql, limit).Panicked? <==>
      IsSelect(Operation(sql)) && !HasClause(sql, "LIMIT") && !Prints(Clamp(cfg, limit))
    ensures OffsetPlan(cfg, sql, limit, offset).Panicked? <==>
      && IsSelect(Operation(sql))
      && (if HasClause(sql, "LIMIT") then OffsetOverflows(sql, offset)
          else !Prints(Clamp(cfg, limit)) || OffsetOverflows(Core(sql), offset))
    ensures OptionsPlan(cfg, sql, limit, offset).Panicked? <==>
      IsSelect(Operation(sql)) && HasClause(sql, "LIMIT") && OffsetOverflows(sql, offset)
  {
    if Prints(Clamp(cfg, limit)) {
      AppendedLimitKeepsOffset(sql, Clamp(cfg, limit));
    }
  }

  lemma PlainSelectOperation(sql: string)
    requires sql == "SELECT 1"
    ensures Operation(sql) == "SELECT"
  {
    TrimIsIdentity(sql);
    FirstWordIs(sql, 6);
    assert sql[..6] == "SELECT";
    assert Upper("SELECT") == "SELECT";
  }

  lemma PlainSelectClauses(sql: string)
    requires sql == "SELECT 1"
    ensures Core(sql) == sql && !HasClause(sql, "LIMIT") && !HasClause(sql, "OFFSET")
  {
    TrimIsIdentity(sql);
    ClauseWords();
    NoClauseWithoutLetter(sql, "LIMIT", 2);
    NoClauseWithoutLetter(sql, "OFFSET", 0);
  }

  /** On a plain SELECT an offset of 10^12 takes the offset path down, and the options path prints it. */
  lemma LongOffsetPanics(cfg: Config)
    ensures OffsetPlan(cfg, "SELECT 1", 0, TEN_TO_12).Panicked? && OptionsPlan(cfg, "SELECT 1", 0, TEN_TO_12).Returned?
  {
    PlainSelectOperation("SELECT 1");
    PlainSelectClauses("SELECT 1");
    PlansPanicExactly(cfg, "SELECT 1", 0, TEN_TO_12);
  }

  // ---- The two paths ---------------------------------------------------------------------------

  /** Where the LIMIT-free paths part company: a limit or offset out of range, or an OFFSET standing alone. */
  predicate SameForLimitFree(cfg: Config, sql: string, limit: Int64, offset: Int64) {
    && 1 <= Clamp(cfg, limit) && Fits(Clamp(cfg, limit))
    && (offset == 0 || (0 < offset && Fits(offset) && !HasClause(Core(sql), "OFFSET")))
  }

  /** Past the core, " LIMIT " and the limit's first digit. */
  lemma LimitDigit(core: string, n: nat, rest: string)
    ensures
      var text := core + (" LIMIT " + Decimal(n)) + rest;
      |text| > |core| + 7 && (text[|core| + 7] == '0' <==> n == 0)
  {
    DigitsParse(n);
    assert |" LIMIT "| == 7;
    var text := core + (" LIMIT " + Decimal(n)) + rest;
    assert text[|core| + 7] == Decimal(n)[0];
    assert n == 0 ==> Decimal(n) == "0";
  }

  lemma CursorTextSplits(sql: string, n: Int64, m: Int64) returns (rest: string)
    ensures CursorText(sql, n, m) == Core(sql) + (" LIMIT " + Decimal(n)) + rest
  {
    var clause := if m > 0 then " OFFSET " + Decimal(m) else "";
    rest := clause + Suffix(sql);
    Associate(Core(sql) + (" LIMIT " + Decimal(n)), clause, Suffix(sql));
  }

  lemma LimitIsVisible(sql: string, n: nat, m: Int64, n': nat, m': Int64)
    requires n < TEN_TO_12 && n' < TEN_TO_12 && n == 0 < n'
    ensures CursorText(sql, n, m) != CursorText(sql, n', m')
  {
    var x := CursorTextSplits(sql, n, m);
    var y := CursorTextSplits(sql, n', m');
    LimitDigit(Core(sql), n, x);
    LimitDigit(Core(sql), n', y);
  }

  /** The text of the offset path, where its numbers print: the cursor's text with or without the OFFSET. */
  lemma OffsetPlanText(cfg: Config, sql: string, limit: Int64, offset: Int64)
    requires IsSelect(Operation(sql)) && !HasClause(sql, "LIMIT")
    requires Fits(Clamp(cfg, limit)) && OffsetPlan(cfg, sql, limit, offset).Returned?
    ensures
      var m: Int64 := if offset > 0 && !HasClause(Core(sql), "OFFSET") then offset else 0;
      OffsetPlan(cfg, sql, limit, offset).value ==
        Ok(Plan(CursorText(sql, Clamp(cfg, limit), m), Warning(cfg, limit, Clamp(cfg, limit)), Clamp(cfg, limit)))
  {
    var n := Clamp(cfg, limit);
    SelectHasCore(sql);
    AppendedLimitKeepsOffset(sql, n);
    CursorIsBothAppends(sql, n, 0);
    if offset > 0 && !HasClause(Core(sql), "OFFSET") {
      CursorIsBothAppends(sql, n, offset);
    }
  }

  lemma LimitFreePlansAgree(cfg: Config, sql: string, limit: Int64, offset: Int64)
    requires IsSelect(Operation(sql)) && !HasClause(sql, "LIMIT")
    requires SameForLimitFree(cfg, sql, limit, offset)
    ensures OffsetPlan(cfg, sql, limit, offset) == OptionsPlan(cfg, sql, limit, offset)
  {
    PlansPanicExactly(cfg, sql, limit, offset);
    OffsetPlanText(cfg, sql, limit, offset);
    assert CursorLimit(Clamp(cfg, limit), cfg.maxLimit) == Clamp(cfg, limit);
  }

  /** A zero limit goes through as LIMIT 0 on one path and becomes a default on the other. */
  lemma ZeroLimitPlansDiffer(cfg: Config, sql: string, limit: Int64, offset: Int64)
    requires IsSelect(Operation(sql)) && !HasClause(sql, "LIMIT")
    requires Clamp(cfg, limit) == 0 && offset >= 0 && OffsetPlan(cfg, sql, limit, offset).Returned?
    ensures OffsetPlan(cfg, sql, limit, offset) != OptionsPlan(cfg, sql, limit, offset)
  {
    OffsetPlanText(cfg, sql, limit, offset);
    var n := CursorLimit(0, cfg.maxLimit);
    var m: Int64 := if offset > 0 && !HasClause(Core(sql), "OFFSET") then offset else 0;
    LimitIsVisible(sql, 0, m, n, offset);
  }

  /** With a standing OFFSET one path adds nothing and the other adds a second OFFSET. */
  lemma StandingOffsetPlansDiffer(cfg: Config, sql: string, limit: Int64, offset: Int64)
    requires IsSelect(Operation(sql)) && !HasClause(sql, "LIMIT")
    requires 1 <= Clamp(cfg, limit) && Fits(Clamp(cfg, limit)) && offset > 0 && HasClause(Core(sql), "OFFSET")
    ensures OffsetPlan(cfg, sql, limit, offset) != OptionsPlan(cfg, sql, limit, offset)
  {
    var n := Clamp(cfg, limit);
    PlansPanicExactly(cfg, sql, limit, offset);
    OffsetPlanText(cfg, sql, limit, offset);
    assert CursorLimit(n, cfg.maxLimit) == n;
    assert |CursorText(sql, n, 0)| < |CursorText(sql, n, offset)|;
  }

  lemma LimitFreePlansDiffer(cfg: Config, sql: string, limit: Int64, offset: Int64)
    requires IsSelect(Operation(sql)) && !HasClause(sql, "LIMIT")
    requires !SameForLimitFree(cfg, sql, limit, offset)
    ensures OffsetPlan(cfg, sql, limit, offset) != OptionsPlan(cfg, sql, limit, offset)
  {
    var n := Clamp(cfg, limit);
    if n < 0 || offset < 0 {
      assert OptionsPlan(cfg, sql, limit, offset).value.Err?;
    } else if n == 0 {
      if OffsetPlan(cfg, sql, limit, offset).Returned? {
        ZeroLimitPlansDiffer(cfg, sql, limit, offset);
      }
    } else if Fits(n) {
      if HasClause(Core(sql), "OFFSET") {
        StandingOffsetPlansDiffer(cfg, sql, limit, offset);
      } else {
        PlansPanicExactly(cfg, sql, limit, offset);
      }
    }
  }

  /**
   The two pagination paths build the same plan exactly when the text has a LIMIT already or the numbers and clauses
   allow it.
   */
  lemma PathsAgreeExactly(cfg: Config, sql: string, limit: Int64, offset: Int64)
    requires IsSelect(Operation(sql))
    ensures OffsetPlan(cfg, sql, limit, offset) == OptionsPlan(cfg, sql, limit, offset) <==>
      HasClause(sql, "LIMIT") || SameForLimitFree(cfg, sql, limit, offset)
  {
    if !HasClause(sql, "LIMIT") {
      if SameForLimitFree(cfg, sql, limit, offset) {
        LimitFreePlansAgree(cfg, sql, limit, offset);
      } else {
        LimitFreePlansDiffer(cfg, sql, limit, offset);
      }
    }
  }
}
