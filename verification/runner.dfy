/**
  `ExecuteScripts` (FirebirdHelper.cs:27-69): every script file of a
  directory is run in path order, and each file runs in a transaction of
  its own.

  The database is an abstract state `S`, reached through a `Connection`.
  Executing one statement is an abstract executor `exec(statement, state)`.
  It returns the next state or a database error `E`. A transaction starts
  from the committed state and passes through tentative states. Committing
  is an abstract `commit(state)`: it yields the new committed state or a
  database error. Both kinds of error roll the transaction back, and
  rollback discards every tentative state, so the committed state stays as
  it was.
 */
module ScriptRunner {
  import opened Results
  import opened Text
  import opened Splitter
  import opened Paths
  import opened Discovery

  /** The two database operations a file's transaction uses. */
  datatype Connection<!S, E> = Connection(exec: (string, S) -> Result<S, E>, commit: S -> Result<S, E>)

  /** Why a run stopped. */
  datatype RunError<E> =
    | DirectoryNotFound(directory: string)
    | ScriptFailed(fileName: string, cause: E)

  /**
    A script file as the loop body uses it: the file name that an error
    reports and the statements to execute, in source order.
   */
  datatype Script = Script(name: string, statements: seq<string>)

  /**
    The trace of one file's transaction: the tentative states it passed
    through, starting with the committed state, and the database error
    that stopped it, if any.
   */
  datatype Transaction<S, E> = Transaction(states: seq<S>, failure: Option<E>)

  /**
    What a run leaves behind. `checkpoints` holds the committed states:
    first the state before the run, then one more state per committed
    file. `executed` lists the statements sent to the database, in order.
   */
  datatype Run<S, E> = Run(checkpoints: seq<S>, executed: seq<string>, error: Option<RunError<E>>)

  function Last<T>(xs: seq<T>): T
    requires |xs| > 0
  {
    xs[|xs| - 1]
  }

  /**
    `t` is what running `stmts` in order from `start` produces. Each
    statement that ran succeeded from the state before it. Either all of
    them ran, or the statement after the last success failed with
    `t.failure`.
   */
  ghost predicate IsTransactionOf<S, E>(exec: (string, S) -> Result<S, E>, stmts: seq<string>, start: S, t: Transaction<S, E>)
  {
    && 1 <= |t.states| <= |stmts| + 1
    && t.states[0] == start
    && (forall i {:trigger exec(stmts[i], t.states[i])} :: 0 <= i < |t.states| - 1 ==> exec(stmts[i], t.states[i]) == Ok(t.states[i + 1]))
    && (t.failure.None? <==> |t.states| == |stmts| + 1)
    && (t.failure.Some? ==> exec(stmts[|t.states| - 1], Last(t.states)) == Err(t.failure.value))
  }

  /** Runs the statements of one file in source order until one fails. */
  function ApplyStatements<S, E>(exec: (string, S) -> Result<S, E>, stmts: seq<string>, start: S): (t: Transaction<S, E>)
    ensures IsTransactionOf(exec, stmts, start, t)
    decreases |stmts|
  {
    if |stmts| == 0 then Transaction([start], None)
    else match exec(stmts[0], start)
      case Err(e) => Transaction([start], Some(e))
      case Ok(next) =>
        var rest := ApplyStatements(exec, stmts[1..], next);
        Transaction([start] + rest.states, rest.failure)
  }

  /** The statements a transaction sent to the database: all of them, or up to and including the failing one. */
  function Sent<S, E>(stmts: seq<string>, t: Transaction<S, E>): seq<string>
  {
    if |t.states| <= |stmts| then stmts[..|t.states|] else stmts
  }

  /**
    One file's transaction, from the committed state `committed`
    (FirebirdHelper.cs:45-66): the new committed state, or the error of the
    failing statement or of the commit, after which the transaction rolls
    back.
   */
  function RunFile<S, E>(conn: Connection<S, E>, script: Script, committed: S): Result<S, E>
  {
    var t := ApplyStatements(conn.exec, script.statements, committed);
    if t.failure.Some? then Err(t.failure.value) else conn.commit(Last(t.states))
  }

  /**
    Whatever trace meets the transaction contract for a file's statements,
    the file fails with the error of the failing statement; or all of them
    succeeded, and the commit of the last tentative state decides: the new
    committed state, or the commit's error.
   */
  lemma RunFileBySpec<S, E>(conn: Connection<S, E>, script: Script, committed: S, t: Transaction<S, E>)
    requires IsTransactionOf(conn.exec, script.statements, committed, t)
    ensures RunFile(conn, script, committed) == (if t.failure.Some? then Err(t.failure.value) else conn.commit(Last(t.states)))
  {
    TransactionDeterminedBySpec(conn.exec, script.statements, committed, t);
  }

  /**
    The name and the statements of a script file (FirebirdHelper.cs:39-51).
    The name an error reports is the last component of the path. The
    statements are trimmed and non-empty, and a blank file has none.
   */
  function Prepare(file: ScriptFile): (script: Script)
    ensures |script.name| <= |file.path| && script.name == file.path[|file.path| - |script.name|..]
    ensures forall i :: 0 <= i < |script.name| ==> !IsDirectorySeparator(script.name[i])
    ensures AllTrimmed(script.statements)
    ensures AllSpace(file.text) ==> script.statements == []
  {
    ScriptStatementsTrimmed(file.text);
    Script(FileName(file.path), SplitScript(file.text))
  }

  /**
    The name `Prepare` reports is the whole last component of the path:
    either the path has no separator, or a separator comes right before the
    name. The statements are exactly those the splitter cuts from the text.
   */
  lemma PrepareNamesFile(file: ScriptFile)
    ensures |Prepare(file).name| < |file.path| ==> IsDirectorySeparator(file.path[|file.path| - |Prepare(file).name| - 1])
    ensures Prepare(file).statements == SplitScript(file.text)
  {
    FileNameAfterSeparator(file.path, Prepare(file).name);
  }

  /** The statements of a script text are trimmed and non-empty, and blank text has none. */
  lemma ScriptStatementsTrimmed(text: string)
    ensures AllTrimmed(SplitScript(text))
    ensures AllSpace(text) ==> SplitScript(text) == []
  {
    if AllSpace(text) {
      BlankScriptHasNoStatements(text);
    }
  }

  /** Every file prepared, in the same order. */
  function PrepareAll(files: seq<ScriptFile>): (scripts: seq<Script>)
    ensures |scripts| == |files|
    ensures forall i :: 0 <= i < |files| ==> scripts[i] == Prepare(files[i])
  {
    seq(|files|, i requires 0 <= i < |files| => Prepare(files[i]))
  }

  /** All statements of the scripts, script after script, each in source order. */
  function AllStatements(scripts: seq<Script>): seq<string>
  {
    if |scripts| == 0 then [] else scripts[0].statements + AllStatements(scripts[1..])
  }

  /**
    `r` is what running `scripts` in order from `db` produces. The scripts
    before the last checkpoint each committed, one after the other. Either
    every script committed, or the next one rolled back. In that case the
    run stops with an error naming that file, and no statement of a later
    file was sent.
   */
  ghost predicate IsRunOf<S, E>(conn: Connection<S, E>, scripts: seq<Script>, db: S, r: Run<S, E>)
  {
    && 1 <= |r.checkpoints| <= |scripts| + 1
    && r.checkpoints[0] == db
    && (forall i {:trigger RunFile(conn, scripts[i], r.checkpoints[i])} :: 0 <= i < |r.checkpoints| - 1 ==> RunFile(conn, scripts[i], r.checkpoints[i]) == Ok(r.checkpoints[i + 1]))
    && (r.error.None? <==> |r.checkpoints| == |scripts| + 1)
    && (r.error.None? ==> r.executed == AllStatements(scripts))
    && (r.error.Some? ==> StoppedAt(conn, scripts, r, |r.checkpoints| - 1))
  }

  /**
    The run `r` stopped because script `k` rolled back, after a statement
    or its commit failed. Its statements were sent up to the failing one,
    or all of them when the commit failed.
   */
  ghost predicate StoppedAt<S, E>(conn: Connection<S, E>, scripts: seq<Script>, r: Run<S, E>, k: nat)
    requires k < |r.checkpoints|
  {
    && k < |scripts|
    && var outcome := RunFile(conn, scripts[k], r.checkpoints[k]);
    && outcome.Err?
    && r.error == Some(ScriptFailed(scripts[k].name, outcome.error))
    && r.executed == AllStatements(scripts[..k]) + Sent(scripts[k].statements, ApplyStatements(conn.exec, scripts[k].statements, r.checkpoints[k]))
  }

  /** The loop over the sorted files (FirebirdHelper.cs:37-68). */
  function RunScripts<S, E>(conn: Connection<S, E>, scripts: seq<Script>, db: S): (r: Run<S, E>)
    ensures IsRunOf(conn, scripts, db, r)
    decreases |scripts|
  {
    if |scripts| == 0 then Run([db], [], None)
    else
      var stmts := scripts[0].statements;
      match RunFile(conn, scripts[0], db)
      case Err(e) =>
        Run([db], Sent(stmts, ApplyStatements(conn.exec, stmts, db)), Some(ScriptFailed(scripts[0].name, e)))
      case Ok(next) =>
        var rest := RunScripts(conn, scripts[1..], next);
        CommittedScriptThenRun(conn, scripts, db, rest);
        Run([db] + rest.checkpoints, stmts + rest.executed, rest.error)
  }

  /** A run of the scripts after a committed first script extends to a run of all of them. */
  lemma CommittedScriptThenRun<S, E>(conn: Connection<S, E>, scripts: seq<Script>, db: S, rest: Run<S, E>)
    requires |scripts| > 0
    requires RunFile(conn, scripts[0], db).Ok?
    requires IsRunOf(conn, scripts[1..], RunFile(conn, scripts[0], db).value, rest)
    ensures IsRunOf(conn, scripts, db, Run([db] + rest.checkpoints, scripts[0].statements + rest.executed, rest.error))
  {
    var stmts := scripts[0].statements;
    var r := Run([db] + rest.checkpoints, stmts + rest.executed, rest.error);
    forall i | 0 <= i < |r.checkpoints| - 1
      ensures RunFile(conn, scripts[i], r.checkpoints[i]) == Ok(r.checkpoints[i + 1])
    {
      if i > 0 {
        assert scripts[i] == scripts[1..][i - 1];
      }
    }
    if rest.error.Some? {
      var k := |rest.checkpoints| - 1;
      assert StoppedAt(conn, scripts[1..], rest, k);
      StoppedAtShift(conn, scripts, r, rest, k);
    }
  }

  /** The statements of the first `k + 1` scripts: those of the first, then those of the next `k`. */
  lemma AllStatementsOfPrefix(scripts: seq<Script>, k: nat)
    requires k < |scripts|
    ensures AllStatements(scripts[..k + 1]) == scripts[0].statements + AllStatements(scripts[1..][..k])
  {
    assert scripts[..k + 1][0] == scripts[0];
    assert scripts[..k + 1][1..] == scripts[1..][..k];
  }

  /**
    A run that commits the first script and then stops at script `k` of
    the remaining ones stops at script `k + 1` of all of them, and back.
   */
  lemma StoppedAtShift<S, E>(conn: Connection<S, E>, scripts: seq<Script>, r: Run<S, E>, rest: Run<S, E>, k: nat)
    requires |scripts| > 0 && k < |rest.checkpoints|
    requires |r.checkpoints| == |rest.checkpoints| + 1 && r.checkpoints[1..] == rest.checkpoints
    requires r.error == rest.error && r.executed == scripts[0].statements + rest.executed
    ensures StoppedAt(conn, scripts[1..], rest, k) <==> StoppedAt(conn, scripts, r, k + 1)
  {
    assert r.checkpoints[k + 1] == rest.checkpoints[k];
    if k + 1 < |scripts| {
      var first := scripts[0].statements;
      assert scripts[1..][k] == scripts[k + 1];
      AllStatementsOfPrefix(scripts, k);
      var t := ApplyStatements(conn.exec, scripts[k + 1].statements, r.checkpoints[k + 1]);
      var tail := AllStatements(scripts[1..][..k]) + Sent(scripts[k + 1].statements, t);
      assert first + tail == AllStatements(scripts[..k + 1]) + Sent(scripts[k + 1].statements, t);
      assert r.executed == first + tail ==> rest.executed == tail by {
        assert rest.executed == r.executed[|first|..];
        assert tail == (first + tail)[|first|..];
      }
    }
  }

  /** Trimmed, non-empty statements only. */
  predicate AllTrimmed(stmts: seq<string>)
  {
    forall i :: 0 <= i < |stmts| ==> stmts[i] != [] && IsTrimmed(stmts[i])
  }

  lemma {:induction false} AllStatementsTrimmed(scripts: seq<Script>)
    requires forall k :: 0 <= k < |scripts| ==> AllTrimmed(scripts[k].statements)
    ensures AllTrimmed(AllStatements(scripts))
    decreases |scripts|
  {
    if |scripts| > 0 {
      AllStatementsTrimmed(scripts[1..]);
    }
  }

  /** What a transaction sent is a prefix of trimmed statements, so trimmed too. */
  lemma SentTrimmed<S, E>(stmts: seq<string>, t: Transaction<S, E>)
    requires AllTrimmed(stmts)
    ensures AllTrimmed(Sent(stmts, t))
  {
    if |t.states| <= |stmts| {
      assert forall i :: 0 <= i < |t.states| ==> Sent(stmts, t)[i] == stmts[i];
    }
  }

  /** Every statement a run sends is one of the statements of its scripts. */
  lemma RunSendsStatements<S, E>(conn: Connection<S, E>, scripts: seq<Script>, db: S, r: Run<S, E>)
    requires IsRunOf(conn, scripts, db, r)
    requires forall k :: 0 <= k < |scripts| ==> AllTrimmed(scripts[k].statements)
    ensures AllTrimmed(r.executed)
  {
    if r.error.Some? {
      var k := |r.checkpoints| - 1;
      assert StoppedAt(conn, scripts, r, k);
      var stmts := scripts[k].statements;
      AllStatementsTrimmed(scripts[..k]);
      SentTrimmed(stmts, ApplyStatements(conn.exec, stmts, r.checkpoints[k]));
    } else {
      AllStatementsTrimmed(scripts);
    }
  }

  /**
    `ExecuteScripts`: fails with a not-found error when the directory is
    missing, before anything runs; otherwise runs the listed script files
    in ascending path order.
   */
  function ExecuteScripts<S, E>(conn: Connection<S, E>, dir: ScriptsDirectory, db: S): (r: Run<S, E>)
    ensures !dir.present ==> r.error == Some(DirectoryNotFound(dir.path)) && r.executed == [] && r.checkpoints == [db]
    ensures dir.present ==> r.error.None? || r.error.value.ScriptFailed?
    ensures AllTrimmed(r.executed)
  {
    if !dir.present then Run([db], [], Some(DirectoryNotFound(dir.path)))
    else
      var scripts := PrepareAll(SortByPath(dir.scripts));
      var r := RunScripts(conn, scripts, db);
      RunSendsStatements(conn, scripts, db, r);
      r
  }

  /**
    The transaction contract determines the transaction: whatever trace
    satisfies it is the one `ApplyStatements` produces.
   */
  lemma {:induction false} TransactionDeterminedBySpec<S, E>(exec: (string, S) -> Result<S, E>, stmts: seq<string>, start: S, t: Transaction<S, E>)
    requires IsTransactionOf(exec, stmts, start, t)
    ensures t == ApplyStatements(exec, stmts, start)
    decreases |stmts|
  {
    if |stmts| == 0 {
      assert t.states == [start];
    } else {
      match exec(stmts[0], start)
      case Err(e) =>
        assert exec(stmts[0], t.states[0]) == Err(e);
        assert |t.states| == 1;
        assert t.states == [start];
      case Ok(next) =>
        assert exec(stmts[0], t.states[0]) == Ok(next);
        assert |t.states| > 1;
        var tail := Transaction(t.states[1..], t.failure);
        forall i | 0 <= i < |tail.states| - 1
          ensures exec(stmts[1..][i], tail.states[i]) == Ok(tail.states[i + 1])
        {
          assert exec(stmts[i + 1], t.states[i + 1]) == Ok(t.states[i + 2]);
        }
        assert IsTransactionOf(exec, stmts[1..], next, tail);
        TransactionDeterminedBySpec(exec, stmts[1..], next, tail);
        assert t.states == [start] + tail.states;
    }
  }

  /** Checkpoints that chain commits of `scripts` still chain commits of `scripts[1..]` once the first is dropped. */
  lemma CommitsAfterFirst<S, E>(conn: Connection<S, E>, scripts: seq<Script>, checkpoints: seq<S>)
    requires 1 < |checkpoints| <= |scripts| + 1
    requires forall i {:trigger RunFile(conn, scripts[i], checkpoints[i])} :: 0 <= i < |checkpoints| - 1 ==> RunFile(conn, scripts[i], checkpoints[i]) == Ok(checkpoints[i + 1])
    ensures forall i {:trigger RunFile(conn, scripts[1..][i], checkpoints[1..][i])} :: 0 <= i < |checkpoints| - 2 ==> RunFile(conn, scripts[1..][i], checkpoints[1..][i]) == Ok(checkpoints[1..][i + 1])
  {
    forall i | 0 <= i < |checkpoints| - 2
      ensures RunFile(conn, scripts[1..][i], checkpoints[1..][i]) == Ok(checkpoints[1..][i + 1])
    {
      assert RunFile(conn, scripts[i + 1], checkpoints[i + 1]) == Ok(checkpoints[i + 2]);
    }
  }

  /** A run whose first script committed continues as a run of the remaining scripts. */
  lemma RunAfterCommittedScript<S, E>(conn: Connection<S, E>, scripts: seq<Script>, db: S, r: Run<S, E>)
    requires IsRunOf(conn, scripts, db, r)
    requires |scripts| > 0 && RunFile(conn, scripts[0], db).Ok?
    ensures |r.checkpoints| > 1 && |scripts[0].statements| <= |r.executed|
    ensures r.executed == scripts[0].statements + r.executed[|scripts[0].statements|..]
    ensures IsRunOf(conn, scripts[1..], r.checkpoints[1], Run(r.checkpoints[1..], r.executed[|scripts[0].statements|..], r.error))
  {
    var stmts := scripts[0].statements;
    assert r.error.Some? ==> StoppedAt(conn, scripts, r, |r.checkpoints| - 1);
    assert |r.checkpoints| > 1;
    var rest := Run(r.checkpoints[1..], r.executed[|stmts|..], r.error);
    CommitsAfterFirst(conn, scripts, r.checkpoints);
    if r.error.None? {
      assert AllStatements(scripts) == stmts + AllStatements(scripts[1..]);
    } else {
      var k := |r.checkpoints| - 1;
      assert StoppedAt(conn, scripts, r, k);
      AllStatementsOfPrefix(scripts, k - 1);
      assert r.executed == stmts + rest.executed;
      StoppedAtShift(conn, scripts, r, rest, k - 1);
    }
  }

  /**
    The run contract determines the run: whatever outcome satisfies it is
    the one `RunScripts` produces.
   */
  lemma {:induction false} RunDeterminedBySpec<S, E>(conn: Connection<S, E>, scripts: seq<Script>, db: S, r: Run<S, E>)
    requires IsRunOf(conn, scripts, db, r)
    ensures r == RunScripts(conn, scripts, db)
    decreases |scripts|
  {
    if |scripts| == 0 {
      assert r.checkpoints == [db];
    } else if RunFile(conn, scripts[0], db).Err? {
      RunStoppedAtFirst(conn, scripts, db, r);
    } else {
      var stmts := scripts[0].statements;
      RunAfterCommittedScript(conn, scripts, db, r);
      var rest := Run(r.checkpoints[1..], r.executed[|stmts|..], r.error);
      RunDeterminedBySpec(conn, scripts[1..], r.checkpoints[1], rest);
      assert r.checkpoints == [db] + rest.checkpoints;
    }
  }

  /** A run whose first file rolled back stops right there, as `RunScripts` does. */
  lemma RunStoppedAtFirst<S, E>(conn: Connection<S, E>, scripts: seq<Script>, db: S, r: Run<S, E>)
    requires IsRunOf(conn, scripts, db, r)
    requires |scripts| > 0 && RunFile(conn, scripts[0], db).Err?
    ensures r == RunScripts(conn, scripts, db)
  {
    assert |r.checkpoints| == 1;
    assert StoppedAt(conn, scripts, r, 0);
    assert scripts[..0] == [];
    assert r.checkpoints == [db];
  }

  /**
    Every listed file runs exactly once, in ascending path order: the run
    is the run of the files in any order that ascends by path.
   */
  lemma RunsInPathOrder<S, E>(conn: Connection<S, E>, dir: ScriptsDirectory, order: seq<ScriptFile>, db: S)
    requires dir.present
    requires SortedByPath(order) && DistinctPaths(order)
    requires multiset(order) == multiset(dir.scripts)
    ensures ExecuteScripts(conn, dir, db) == RunScripts(conn, PrepareAll(order), db)
  {
    SortedArrangementUnique(order, SortByPath(dir.scripts));
  }

  /** A directory without script files runs nothing and reports no error. */
  lemma NoScriptFilesNoError<S, E>(conn: Connection<S, E>, dir: ScriptsDirectory, db: S)
    requires dir.present && dir.scripts == []
    ensures ExecuteScripts(conn, dir, db) == Run([db], [], None)
  {
  }

  /** A script without statements commits an empty transaction: the commit starts from the committed state as it was. */
  lemma EmptyScriptOnlyCommits<S, E>(conn: Connection<S, E>, script: Script, committed: S)
    requires script.statements == []
    ensures RunFile(conn, script, committed) == conn.commit(committed)
  {
  }

  /** An empty or blank file sends nothing and commits an empty transaction. */
  lemma BlankFileOnlyCommits<S, E>(conn: Connection<S, E>, file: ScriptFile, committed: S)
    requires AllSpace(file.text)
    ensures Prepare(file).statements == []
    ensures RunFile(conn, Prepare(file), committed) == conn.commit(committed)
  {
    BlankScriptHasNoStatements(file.text);
    EmptyScriptOnlyCommits(conn, Prepare(file), committed);
  }

  /**
    When the file that stopped a run had all of its statements succeed, it
    was the commit that failed: the run names that file and the commit's
    error, every statement of the file was sent, and the committed state
    stays the one before the file.
   */
  lemma CommitFailureRollsBack<S, E>(conn: Connection<S, E>, scripts: seq<Script>, db: S, r: Run<S, E>)
    requires IsRunOf(conn, scripts, db, r) && r.error.Some?
    requires ApplyStatements(conn.exec, scripts[|r.checkpoints| - 1].statements, Last(r.checkpoints)).failure.None?
    ensures var k := |r.checkpoints| - 1;
      var t := ApplyStatements(conn.exec, scripts[k].statements, r.checkpoints[k]);
      && conn.commit(Last(t.states)).Err?
      && r.error == Some(ScriptFailed(scripts[k].name, conn.commit(Last(t.states)).error))
      && r.executed == AllStatements(scripts[..k]) + scripts[k].statements
  {
    var k := |r.checkpoints| - 1;
    assert StoppedAt(conn, scripts, r, k);
  }
}
