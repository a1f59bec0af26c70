/** pkg/guard/guard.go and the checks that Exec makes before a statement reaches the database. */
module Guard {
  import opened Text
  import opened Lexer
  import opened Keywords
  import opened Rewrite
  import opened Paging

  datatype Policy = Block | Warn | Allow | Prompt

  datatype GuardError = DangerousOp | DangerousOpPrompt | UnconditionalModify

  /** `sql` starts with the word `op` in any case, and the word ends there. */
  predicate StartsWithOp(sql: string, op: string) {
    && |op| <= |sql| && Upper(sql[..|op|]) == op
    && (|op| == |sql| || sql[|op|] == ' ' || sql[|op|] == '\t' || sql[|op|] == '(' || sql[|op|] == '\n')
  }

  method MatchesOp(sql: string, op: string) returns (r: bool)
    ensures r == StartsWithOp(sql, op)
  {
    if |sql| < |op| {
      return false;
    }
    for i := 0 to |op|
      invariant forall k | 0 <= k < i :: UpperChar(sql[k]) == op[k]
    {
      var c := sql[i];
      if 'a' <= c <= 'z' {
        c := (c as int - 32) as char;
      }
      if c != op[i] {
        assert Upper(sql[..|op|])[i] == c;
        return false;
      }
    }
    assert Upper(sql[..|op|]) == op;
    if |sql| > |op| {
      var next := sql[|op|];
      return next == ' ' || next == '\t' || next == '(' || next == '\n';
    }
    r := true;
  }

  const DANGEROUS_OPS := ["DROP", "TRUNCATE"]

  predicate IsDangerous(sql: string) {
    exists op | op in DANGEROUS_OPS :: StartsWithOp(sql, op)
  }

  method IsDangerousOp(sql: string) returns (r: bool)
    ensures r == IsDangerous(sql)
  {
    for i := 0 to |DANGEROUS_OPS|
      invariant forall k | 0 <= k < i :: !StartsWithOp(sql, DANGEROUS_OPS[k])
    {
      var matched := MatchesOp(sql, DANGEROUS_OPS[i]);
      if matched {
        return true;
      }
    }
    r := false;
  }

  function Check(policy: Policy, sql: string): Option<GuardError> {
    if policy == Allow || !IsDangerous(sql) then None
    else match policy
      case Block => Some(DangerousOp)
      case Prompt => Some(DangerousOpPrompt)
      case _ => None
  }

  predicate NeedsWhere(op: string) {
    op == "UPDATE" || op == "DELETE"
  }

  /** The two guards of Exec, in their order. */
  function ExecGuard(policy: Policy, rejectNoWhere: bool, sql: string): Option<GuardError> {
    var dangerous := Check(policy, sql);
    if dangerous.Some? then dangerous
    else if rejectNoWhere && NeedsWhere(Operation(sql)) && !HasClause(sql, "WHERE")
    then Some(UnconditionalModify)
    else None
  }

  lemma TrimUnindented(sql: string)
    requires sql != "" && !IsSpace(sql[0])
    ensures |Trim(sql)| <= |sql| && Trim(sql) == sql[..|Trim(sql)|]
    ensures forall i | |Trim(sql)| <= i < |sql| :: IsSpace(sql[i])
  {
    var from, to := TrimBounds(sql);
    assert from == 0 || to == 0;
  }

  lemma SpaceBefore(sql: string, n: nat) returns (i: nat)
    requires sql != "" && !IsSpace(sql[0]) && |Trim(sql)| < n <= |sql|
    ensures i < n && IsSpace(sql[i])
  {
    TrimUnindented(sql);
    i := |Trim(sql)|;
  }

  /** What the prefix test cannot see past: white space before the word, and a few control characters behind it. */
  predicate InSight(sql: string, n: nat) {
    && sql != "" && !IsSpace(sql[0])
    && (n >= |sql| || (sql[n] != '\r' && sql[n] != '\U{000B}' && sql[n] != '\U{000C}'))
  }

  /** The prefix test names the first word of the statement, wherever it can see it. */
  lemma StartsWithOpMeaning(sql: string, op: string)
    requires IsWord(op)
    ensures StartsWithOp(sql, op) <==> Operation(sql) == op && InSight(sql, |op|)
  {
    var s, n := Trim(sql), |op|;
    FirstWordStops(s);
    if StartsWithOp(sql, op) {
      forall i | 0 <= i < n
        ensures !EndsWord(sql[i]) && !IsSpace(sql[i])
      {
        assert Upper(sql[..n])[i] == op[i];
      }
      assert !IsSpace(sql[0]);
      TrimUnindented(sql);
      if |s| < n {
        var i := SpaceBefore(sql, n);
        assert false;
      }
      assert s[..n] == sql[..n];
      FirstWordIs(s, n);
    }
    if Operation(sql) == op && InSight(sql, n) {
      TrimUnindented(sql);
      assert sql[..n] == s[..n] == FirstWord(s);
    }
  }

  /** The guard recognises exactly the statements in its sight whose operation is DROP or TRUNCATE. */
  lemma GuardSeesOperation(sql: string)
    ensures IsDangerous(sql) <==> Operation(sql) in DANGEROUS_OPS && InSight(sql, |Operation(sql)|)
  {
    StartsWithOpMeaning(sql, "DROP");
    StartsWithOpMeaning(sql, "TRUNCATE");
    assert forall op :: op in DANGEROUS_OPS <==> op == "DROP" || op == "TRUNCATE";
  }

  /** DROP in front of a carriage return is out of sight. */
  lemma CarriageReturnHidesDrop()
    ensures Operation("DROP\rTABLE t") == "DROP" && !IsDangerous("DROP\rTABLE t")
  {
    var s := "DROP\rTABLE t";
    TrimIsIdentity(s);
    FirstWordIs(s, 4);
    assert Upper("DROP") == "DROP";
    GuardSeesOperation(s);
  }

  // ---- The WHERE check -------------------------------------------------------------------------

  /** The guard is right about the WHERE of an UPDATE or DELETE if and only if the two scans are. */
  lemma WhereCheckIsExact(policy: Policy, sql: string)
    requires NeedsWhere(Operation(sql))
    ensures ExecGuard(policy, true, sql) == None <==> StandsOutside(sql, "WHERE")
    ensures (ExecGuard(policy, true, sql) == None <==> ReadsClause(sql, "WHERE")) <==>
      (StandsOutside(sql, "WHERE") <==> StandsInNormal(sql, "WHERE"))
  {
    GuardSeesOperation(sql);
    ClauseScans(sql, "WHERE");
  }

  /** A WHERE in a comment lets every UPDATE and DELETE pass. */
  lemma CommentedWherePasses(policy: Policy, sql: string)
    requires NeedsWhere(Operation(sql + " -- WHERE")) && QuoteEnd(sql) == Outside && EndMode(Normal, sql) == Normal
    ensures ExecGuard(policy, true, sql + " -- WHERE") == None
  {
    assert " -- " + "WHERE" == " -- WHERE";
    CommentedWordIsFound(sql, "WHERE");
    GuardSeesOperation(sql + " -- WHERE");
  }

  // ---- The answers of the guards ---------------------------------------------------------------

  /**
   DROP and TRUNCATE in sight of the guard are blocked or need a confirmation, as the policy says, and nothing else is.
   */
  lemma PolicyAnswers(policy: Policy, rejectNoWhere: bool, sql: string)
    ensures ExecGuard(policy, rejectNoWhere, sql) == Some(DangerousOp) <==>
      policy == Block && (Operation(sql) == "DROP" || Operation(sql) == "TRUNCATE") && InSight(sql, |Operation(sql)|)
    ensures ExecGuard(policy, rejectNoWhere, sql) == Some(DangerousOpPrompt) <==>
      policy == Prompt && (Operation(sql) == "DROP" || Operation(sql) == "TRUNCATE") && InSight(sql, |Operation(sql)|)
  {
    GuardSeesOperation(sql);
    OnlyDropAndTruncate(Operation(sql));
  }

  lemma OnlyDropAndTruncate(op: string)
    ensures op in DANGEROUS_OPS <==> op == "DROP" || op == "TRUNCATE"
  {
    assert DANGEROUS_OPS[0] == "DROP" && DANGEROUS_OPS[1] == "TRUNCATE";
  }

  /**
   An UPDATE or DELETE is rejected exactly where the session asks for it and no WHERE is found, whatever the policy.
   */
  lemma WhereAnswers(policy: Policy, rejectNoWhere: bool, sql: string)
    ensures ExecGuard(policy, rejectNoWhere, sql) == Some(UnconditionalModify) <==>
      rejectNoWhere && (Operation(sql) == "UPDATE" || Operation(sql) == "DELETE") && !StandsOutside(sql, "WHERE")
  {
    GuardSeesOperation(sql);
    OnlyDropAndTruncate(Operation(sql));
    ClauseScans(sql, "WHERE");
  }

  /** A word is in sight where the text starts with it and the byte behind it is one that the guard accepts or none. */
  lemma SightOfWord(sql: string)
    ensures (exists op | op == "DROP" || op == "TRUNCATE" ::
               Operation(sql) == op && InSight(sql, |op|)) <==>
      (exists op | op == "DROP" || op == "TRUNCATE" ::
         && |op| <= |sql| && Upper(sql[..|op|]) == op && (|sql| > |op| ==> sql[|op|] in " \t(\n"))
  {
    StartsWithOpMeaning(sql, "DROP");
    StartsWithOpMeaning(sql, "TRUNCATE");
    SightSet(sql, "DROP");
    SightSet(sql, "TRUNCATE");
  }

  lemma SightSet(sql: string, op: string)
    ensures StartsWithOp(sql, op) <==>
      |op| <= |sql| && Upper(sql[..|op|]) == op && (|sql| > |op| ==> sql[|op|] in " \t(\n")
  {
    var d := " \t(\n";
    assert d[0] == ' ' && d[1] == '\t' && d[2] == '(' && d[3] == '\n' && |d| == 4;
  }
}
