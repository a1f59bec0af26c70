/** The exact texts, warnings and refusals of the query paths, stated on the text that is handed in. */
module QueryTexts {
  import opened Text
  import opened Keywords
  import opened Itoa
  import opened Rewrite
  import opened Paging

  // ---- The statement in its text ---------------------------------------------------------------

  /** White space around the statement goes; so does one semicolon behind it, which comes back at the end. */
  lemma CoreOfText(before: string, x: string, after: string)
    requires AllSpace(before) && AllSpace(after) && x != "" && !IsSpace(x[0])
    ensures !IsSpace(x[|x| - 1]) && x[|x| - 1] != ';' ==>
      Core(before + (x + after)) == x && Suffix(before + (x + after)) == ""
    ensures Core(before + ((x + ";") + after)) == x && Suffix(before + ((x + ";") + after)) == ";"
  {
    if !IsSpace(x[|x| - 1]) {
      TrimSandwich(before, x, after);
    }
    TrimSandwich(before, x + ";", after);
    assert (x + ";")[..|x|] == x;
  }

  /** AppendLIMIT and AppendOFFSET on such a text. */
  lemma AppendedClauseText(before: string, x: string, after: string, n: Int64)
    requires AllSpace(before) && AllSpace(after) && x != "" && !IsSpace(x[0]) && Fits(n)
    ensures !IsSpace(x[|x| - 1]) && x[|x| - 1] != ';' ==>
      && AppendLimit(before + (x + after), n) == Returned(x + (" LIMIT " + Decimal(n)))
      && AppendOffset(before + (x + after), n) == Returned(x + (" OFFSET " + Decimal(n)))
    ensures AppendLimit(before + ((x + ";") + after), n) == Returned(x + (" LIMIT " + Decimal(n)) + ";")
    ensures AppendOffset(before + ((x + ";") + after), n) == Returned(x + (" OFFSET " + Decimal(n)) + ";")
  {
    CoreOfText(before, x, after);
    ClauseText("LIMIT", n);
    ClauseText("OFFSET", n);
    assert x + (" LIMIT " + Decimal(n)) + "" == x + (" LIMIT " + Decimal(n));
    assert x + (" OFFSET " + Decimal(n)) + "" == x + (" OFFSET " + Decimal(n));
  }

  lemma NumeralInstances()
    ensures Decimal(0) == "0" && Decimal(907) == "907" && Decimal(-120) == "-120"
  {
    assert Digits(90) == "90" && Digits(12) == "12";
  }

  // ---- The operation ---------------------------------------------------------------------------

  const WORD_ENDS := " \t\n\r("

  lemma WordEndSet(c: char)
    ensures EndsWord(c) <==> c in WORD_ENDS
  {
    var d := WORD_ENDS;
    assert |d| == 5 && d[0] == ' ' && d[1] == '\t' && d[2] == '\n' && d[3] == '\r' && d[4] == '(';
  }

  lemma {:induction false} TrimRightStops(w: string, rest: string)
    requires w != "" && !IsSpace(w[|w| - 1])
    ensures |w| <= |TrimRight(w + rest)| <= |w + rest|
    ensures TrimRight(w + rest) == (w + rest)[..|TrimRight(w + rest)|]
    decreases rest
  {
    if rest == "" || !IsSpace(rest[|rest| - 1]) {
      assert rest == "" ==> w + rest == w;
    } else {
      assert (w + rest)[..|w + rest| - 1] == w + rest[..|rest| - 1];
      TrimRightStops(w, rest[..|rest| - 1]);
    }
  }

  /** The operation is the first word in capitals: up to a blank, a tab, a line break or an opening parenthesis. */
  lemma OperationOfText(before: string, w: string, rest: string)
    requires AllSpace(before) && w != "" && forall i | 0 <= i < |w| :: !IsSpace(w[i]) && w[i] != '('
    requires rest != "" ==> rest[0] in WORD_ENDS
    ensures Operation(before + (w + rest)) == Upper(w)
  {
    var s := TrimRight(w + rest);
    assert TrimLeft(w + rest) == w + rest;
    TrimLeftSkips(before, w + rest);
    TrimRightStops(w, rest);
    assert s[..|w|] == w;
    assert |s| > |w| ==> s[|w|] == rest[0];
    if rest != "" {
      WordEndSet(rest[0]);
    }
    forall i | 0 <= i < |w|
      ensures !EndsWord(s[i])
    {
      assert s[i] == w[i];
    }
    FirstWordIs(s, |w|);
  }

  /** No other byte ends the first word. */
  lemma OperationGoesOn(c: char)
    requires c !in WORD_ENDS
    ensures Operation("SELECT" + [c] + "x") != "SELECT"
  {
    var s := "SELECT" + [c] + "x";
    WordEndSet(c);
    assert s[0] == 'S' && s[|s| - 1] == 'x';
    TrimIsIdentity(s);
    FirstWordIs(s, 8);
    assert |Operation(s)| == 8;
  }

  // ---- The plans -------------------------------------------------------------------------------

  /** Which statements a query path lets through. */
  predicate IsQuery(sql: string) {
    Operation(sql) == "SELECT" || Operation(sql) == "WITH"
  }

  /** The plan for a text without a LIMIT tells the caller which limit was appended, and whether it was cut down. */
  predicate TellsLimit(plan: Plan, cfg: Config, asked: Int64) {
    plan.warning ==
      if asked > cfg.maxLimit then "LIMIT capped to " + Decimal(plan.limit) + " (max allowed)"
      else "LIMIT " + Decimal(plan.limit) + " applied automatically"
  }

  function OffsetClause(asked: bool, m: Int64): string {
    if asked then " OFFSET " + Decimal(m) else ""
  }

  /**
   queryWithLimit: other statements are refused, a LIMIT passes through, and otherwise the clamped limit is appended.
   */
  lemma LimitPathPlan(cfg: Config, sql: string, limit: Int64)
    ensures !IsQuery(sql) <==> LimitPlan(cfg, sql, limit) == Returned(Err(NotSelect(Operation(sql))))
    ensures IsQuery(sql) && HasClause(sql, "LIMIT") ==> LimitPlan(cfg, sql, limit) == Returned(Ok(Plan(sql, "", 0)))
    ensures
      var n := Clamp(cfg, limit);
      IsQuery(sql) && !HasClause(sql, "LIMIT") && Fits(n) ==>
        LimitPlan(cfg, sql, limit) ==
          Returned(Ok(Plan(Core(sql) + (" LIMIT " + Decimal(n)) + Suffix(sql), Warning(cfg, limit, n), n)))
  {
    ClauseText("LIMIT", Clamp(cfg, limit));
  }

  /** Whatever limit is appended, each path reports it. */
  lemma WarningsAreRight(cfg: Config, sql: string, limit: Int64, offset: Int64)
    requires !HasClause(sql, "LIMIT")
    ensures
      var plan := LimitPlan(cfg, sql, limit);
      plan.Returned? && plan.value.Ok? ==> TellsLimit(plan.value.value, cfg, limit)
    ensures
      var plan := OffsetPlan(cfg, sql, limit, offset);
      plan.Returned? && plan.value.Ok? ==> TellsLimit(plan.value.value, cfg, limit)
    ensures
      var plan := OptionsPlan(cfg, sql, limit, offset);
      plan.Returned? && plan.value.Ok? ==> TellsLimit(plan.value.value, cfg, limit)
  {}

  /**
   Behind a LIMIT both pagination paths put an OFFSET that is asked for and not there; the text is not changed
   otherwise.
   */
  lemma PlansBehindLimit(cfg: Config, sql: string, limit: Int64, offset: Int64)
    requires IsQuery(sql) && HasClause(sql, "LIMIT") && Fits(offset)
    ensures
      var text :=
        if offset > 0 && !HasClause(sql, "OFFSET") then Core(sql) + (" OFFSET " + Decimal(offset)) + Suffix(sql)
        else sql;
      && OffsetPlan(cfg, sql, limit, offset) == Returned(Ok(Plan(text, "", 0)))
      && OptionsPlan(cfg, sql, limit, offset) == Returned(Ok(Plan(text, "", 0)))
  {
    ClauseText("OFFSET", offset);
  }

  /** Without a LIMIT the offset path appends the clamped limit, and the OFFSET unless one is seen. */
  lemma OffsetPathPlan(cfg: Config, sql: string, limit: Int64, offset: Int64)
    requires IsQuery(sql) && !HasClause(sql, "LIMIT") && Fits(Clamp(cfg, limit)) && Fits(offset)
    ensures
      var n := Clamp(cfg, limit);
      var clause := OffsetClause(offset > 0 && !HasClause(Core(sql), "OFFSET"), offset);
      OffsetPlan(cfg, sql, limit, offset) ==
        Returned(Ok(Plan(Core(sql) + (" LIMIT " + Decimal(n)) + clause + Suffix(sql), Warning(cfg, limit, n), n)))
  {
    PlansPanicExactly(cfg, sql, limit, offset);
    OffsetPlanText(cfg, sql, limit, offset);
  }

  /** Without a LIMIT the options path refuses negative numbers, reads 0 as 100, and always appends the OFFSET. */
  lemma OptionsPathPlan(cfg: Config, sql: string, limit: Int64, offset: Int64)
    requires IsQuery(sql) && !HasClause(sql, "LIMIT")
    ensures
      var n := Clamp(cfg, limit);
      var k := if n > 0 then n else if 0 < cfg.maxLimit < 100 then cfg.maxLimit else 100;
      OptionsPlan(cfg, sql, limit, offset) == Returned(
        if n < 0 then Err(BadCursor(NegativeLimit(n)))
        else if offset < 0 then Err(BadCursor(NegativeOffset(offset)))
        else Ok(Plan(
          Core(sql) + (" LIMIT " + Decimal(k)) + OffsetClause(offset > 0, offset) + Suffix(sql),
          Warning(cfg, limit, n), n)))
  {}

  /** All three paths refuse the same statements, and only those, as not being queries. */
  lemma OnlyQueriesPass(cfg: Config, sql: string, limit: Int64, offset: Int64)
    ensures !IsQuery(sql) ==>
      && OffsetPlan(cfg, sql, limit, offset) == Returned(Err(NotSelect(Operation(sql))))
      && OptionsPlan(cfg, sql, limit, offset) == Returned(Err(NotSelect(Operation(sql))))
    ensures IsQuery(sql) ==>
      && OffsetPlan(cfg, sql, limit, offset) != Returned(Err(NotSelect(Operation(sql))))
      && OptionsPlan(cfg, sql, limit, offset) != Returned(Err(NotSelect(Operation(sql))))
  {}
}
