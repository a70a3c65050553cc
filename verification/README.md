# DbMetaTool script runner and command line, in Dafny

This project models two parts of DbMetaTool, a command-line tool for
Firebird databases:

- **`FirebirdHelper.ExecuteScripts`**. It lists the `*.sql` files of a scripts directory and sorts them by path. It cuts each file into statements at lines that hold one `;` and otherwise only whitespace. It runs each file's statements in one transaction. The transaction rolls back at the first failing statement, or when the commit itself fails; otherwise the commit succeeds. A rollback stops the run with an error that names the file and carries the database error.
- **`Program.Main` and `Program.GetArgValue`**. These cover the verb dispatch, the flag lookup and the mapping of every outcome to an exit code of 0, 1 or -1.

The database is an abstract state `S`, reached through a
`ScriptRunner.Connection`. Executing one SQL statement is an abstract
executor `exec(statement, state)`, and committing is an abstract
`commit(state)`. Each yields the next state or a database error `E`. A run
is described by:

- its committed checkpoints;
- the statements sent, in order;
- the error that stopped it, if any.

Two contracts give an independent description of a file's transaction
(`ScriptRunner.IsTransactionOf`) and of a whole run (`ScriptRunner.IsRunOf`).
Lemmas show that these descriptions determine the result completely.

The modules follow the program's structure:

- `Seqs`: splitting a sequence at delimiters and joining it back.
- `Text`: whitespace and `String.Trim`.
- `Splitter`: the statement splitter.
- `Paths`: ordinal path order and `Path.GetFileName`.
- `Discovery`: the sorted file listing.
- `ScriptRunner`: the transactional loop.
- `Cli`: `Main` and `GetArgValue`.
- `Results`: the `Option` and `Result` types.

A few behaviours of the code, stated plainly:

- The script text is split as it is. Comments are not stripped first, so a `;` line inside a block comment still separates statements.
- There is no separate check for a directory without script files, and none for an empty file. A directory with no `*.sql` files runs nothing and reports no error. An empty file commits an empty transaction.
- The statement boundary is fixed: a line holding one `;` and otherwise only whitespace.
- An unknown verb prints an "unknown command" message, not the usage text, and exits with 1.

The splitter is stated on lines; the code uses the multi-line pattern
`^\s*;\s*$`. A match of the pattern always covers a whole separator line
plus some surrounding whitespace. The pieces between matches are trimmed,
so once trimmed they equal the pieces between separator lines. `\s` and
`String.Trim` both accept the Unicode White_Space characters (`Text.IsSpace`).
That set includes `'\r'`, so CRLF scripts split the same way.

## Model

| member | source | states |
|---|---|---|
| Seqs.SplitWhere | FirebirdHelper.cs:42-43 | Cutting at delimiters gives at least one part, and no part contains a delimiter |
| Seqs.SplitWhereCount | FirebirdHelper.cs:42-43 | There is exactly one part more than there are delimiters |
| Seqs.SplitAtDelimiter | FirebirdHelper.cs:42-43 | Cutting `xs + [d] + ys` at a delimiter `d` gives the parts of `xs` followed by the parts of `ys` |
| Seqs.JoinAfterSplit | FirebirdHelper.cs:42-43 | When all delimiters are `d`, joining the parts with `d` rebuilds the original sequence |
| Seqs.SplitAfterJoin | FirebirdHelper.cs:42-43 | Delimiter-free parts joined with a delimiter split back into exactly those parts |
| Text.Trim | FirebirdHelper.cs:50 | `String.Trim` returns a contiguous slice with no whitespace at either end; only whitespace is cut off on each side |
| Text.LeadingSpace | FirebirdHelper.cs:50 | The count of leading whitespace covers only whitespace and stops at the first other character |
| Text.TrailingSpace | FirebirdHelper.cs:50 | The count of trailing whitespace covers only whitespace and stops at the last other character |
| Text.TrimDecomposition | FirebirdHelper.cs:50 | Whitespace, then a trimmed middle, then whitespace, trims to exactly that middle, so the contract of `Trim` fixes its result |
| Text.TrimOfTrimmed | FirebirdHelper.cs:50 | Trimming is idempotent on trimmed text |
| Text.TrimOfBlank | FirebirdHelper.cs:50-51 | Whitespace-only text trims to the empty string, which the empty check then drops |
| Splitter.SeparatorLineShape | FirebirdHelper.cs:42-43 | `IsSeparatorLine` (the line trims to a lone `;`) holds exactly when the line holds one `;` and every other character is whitespace; a `;` ending a statement line, or two `;` on a line, does not separate |
| Splitter.KeepStatements | FirebirdHelper.cs:48-51 | Every piece kept is trimmed and non-empty, and no more pieces come out than went in; a single piece gives its trimmed text, or nothing when that is empty |
| Splitter.KeepStatementsAppend | FirebirdHelper.cs:48-51 | Trimming and filtering the pieces of two texts one after the other keeps the statements of each, in order |
| Splitter.SplitScript | FirebirdHelper.cs:42-51 | Every statement of a script is trimmed and non-empty |
| Splitter.SplitAtSeparatorLine | FirebirdHelper.cs:42-51 | A separator line between two texts splits their statements apart: the statements of `a`, then those of `b` |
| Splitter.PiecesOfLines | FirebirdHelper.cs:42-43 | Text written line by line has as pieces the groups of its lines between separator lines; no lines at all is one empty piece |
| Splitter.SplitAroundLine | FirebirdHelper.cs:42-51 | A separator line between two runs of lines, either of which may be empty, splits the statements into those before it and those after it |
| Splitter.SplitAtLine | FirebirdHelper.cs:42-51 | Cutting the lines of a script at any separator line, the first and the last included, splits its statements there |
| Splitter.SplitWithoutSeparator | FirebirdHelper.cs:42-51 | Text without a separator line is one statement, its trimmed self, or none when it is blank |
| Splitter.SingleStatement | FirebirdHelper.cs:42-51 | A trimmed, non-empty text without separator lines is exactly one statement |
| Splitter.BlankScriptHasNoStatements | FirebirdHelper.cs:50-51 | An empty or whitespace-only script has no statements |
| Splitter.SplitAfterStatement | FirebirdHelper.cs:42-51 | A statement followed by a `;` line and more text splits into that statement, then the statements of the rest |
| Splitter.SplitJoinScript | FirebirdHelper.cs:42-51 | Trimmed non-empty statements without separator lines, joined with `;` lines between them, split back into exactly those statements in order |
| Paths.FileName | FirebirdHelper.cs:39 | The file name is the suffix after the last separator; it holds no separator, and the character before it is a separator |
| Paths.OrdinalLeTotal | FirebirdHelper.cs:33 | Any two paths are comparable in ordinal order |
| Paths.OrdinalLeTransitive | FirebirdHelper.cs:33 | Ordinal order is transitive |
| Paths.OrdinalLeAntisymmetric | FirebirdHelper.cs:33 | Two paths that each sort no later than the other are equal |
| Discovery.InsertByPath | FirebirdHelper.cs:33 | Inserting a file into a sorted listing keeps it sorted and adds exactly that file |
| Discovery.SortByPath | FirebirdHelper.cs:32-33 | The sorted listing ascends by path and holds exactly the listed files, each as often as listed |
| Discovery.SortedArrangementUnique | FirebirdHelper.cs:32-33 | A listing with distinct paths has only one ascending arrangement |
| ScriptRunner.ApplyStatements | FirebirdHelper.cs:45-57 | The statements run in source order, each from the state the previous one left; it stops at the first failure, and all of them ran exactly when none failed |
| ScriptRunner.TransactionDeterminedBySpec | FirebirdHelper.cs:45-57 | Any trace meeting the transaction contract is the trace `ApplyStatements` produces |
| ScriptRunner.Prepare | FirebirdHelper.cs:39-51 | The name an error reports is a separator-free suffix of the file's path; the statements are trimmed and non-empty, and a blank file has none |
| ScriptRunner.PrepareNamesFile | FirebirdHelper.cs:39-42 | The name is the whole last component of the path: a separator comes right before it unless it is the whole path; the statements are exactly those the splitter cuts from the file's text |
| ScriptRunner.RunFileBySpec | FirebirdHelper.cs:45-66 | Whatever trace meets the transaction contract, a file fails with its failing statement's error; if every statement succeeded, the commit of the last tentative state gives the new committed state or the commit's error |
| ScriptRunner.RunScripts | FirebirdHelper.cs:37-68 | Files commit one after another, each starting from the state the previous commit left. Either all commit with every statement sent, or the first file whose statement or commit fails rolls back: the run stops with an error naming that file and its cause, the checkpoints before it stay committed, and no later statement is sent |
| ScriptRunner.CommitFailureRollsBack | FirebirdHelper.cs:58-66 | When the file that stopped a run had every statement succeed, its commit failed: the error names the file and carries the commit's error, all of its statements were sent, and the committed state is the one before it |
| ScriptRunner.RunAfterCommittedScript | FirebirdHelper.cs:37-68 | A run whose first file committed is that file's statements followed by a run of the remaining files from the committed state |
| ScriptRunner.RunDeterminedBySpec | FirebirdHelper.cs:37-68 | Any outcome meeting the run contract is the outcome `RunScripts` produces |
| ScriptRunner.RunSendsStatements | FirebirdHelper.cs:48-54 | Every statement sent to the database is trimmed and non-empty |
| ScriptRunner.ExecuteScripts | FirebirdHelper.cs:27-36 | A missing directory fails with a not-found error naming it, before any statement is sent and with the database unchanged; otherwise the only possible error names a failing script; every statement sent is trimmed and non-empty |
| ScriptRunner.RunsInPathOrder | FirebirdHelper.cs:32-37 | Every listed file runs exactly once, in the one order ascending by path, whatever order the listing came in |
| ScriptRunner.NoScriptFilesNoError | FirebirdHelper.cs:32-37 | A directory without script files runs nothing and reports no error |
| ScriptRunner.BlankFileOnlyCommits | FirebirdHelper.cs:45-58 | An empty or blank file sends no statement and commits an empty transaction, starting from the committed state as it was |
| ScriptRunner.EmptyScriptOnlyCommits | FirebirdHelper.cs:45-58 | A file with no statements only commits, from the committed state as it was |
| Cli.IndexOf | Program.cs:74 | The position found holds the flag and no earlier position does; -1 exactly when the flag is absent |
| Cli.GetArgValue | Program.cs:72-78 | A value is found exactly when the flag occurs and its first occurrence is not last; the value is the element right after the first occurrence; failure reports the missing flag |
| Cli.GetArgValueAbsent | Program.cs:75-76 | An absent flag fails the lookup |
| Cli.GetArgValueFlagLast | Program.cs:75-76 | A flag whose first occurrence is the last argument fails the lookup |
| Cli.GetArgValueTakesNextFlag | Program.cs:77 | The value is not validated: after `--db-dir` the lookup returns `--scripts-dir` |
| Cli.GetArgValueIgnoresFirst | Program.cs:72-78 | The lookup of a flag does not depend on a first argument that is not that flag |
| Cli.ToLowerInvariant | Program.cs:26 | The lower-cased text equals the original up to the case of ASCII letters, and no upper-case ASCII letter remains |
| Cli.LowerEqualIffIgnoreCase | Program.cs:26-28 | Two texts lower-case to the same text exactly when they are equal up to the case of ASCII letters |
| Cli.ParseVerb | Program.cs:28-62 | A command names a verb exactly when it is that verb's spelling; any other command names none |
| Cli.ParseVerbName | Program.cs:30-50 | Each verb's spelling is recognised as that verb |
| Cli.UpdateDatabase | Program.cs:134-141 | `UpdateDatabase` always throws |
| Cli.ExitCode | Program.cs:35-68 | A completed handler gives 0, a handler that ended the process itself gives 1, and one that threw gives -1 |
| Cli.Main | Program.cs:13-70 | The exit code is -1, 0 or 1. No arguments or an unknown verb give 1 without any call. A handler runs exactly when the verb is known and both of its flags have values; it gets those values, and its outcome sets the code. A known verb with a missing flag gives -1. Exit 0 needs a completed handler other than `update-db` |
| Cli.MainDispatches | Program.cs:28-58 | A known verb whose two flags both have values calls its handler with them, and the handler's outcome is the exit code |
| Cli.MainUnknownVerb | Program.cs:60-62 | An unknown verb gives 1 and calls no handler |
| Cli.MainMissingParameter | Program.cs:32-33 | A known verb with a missing flag gives -1 and calls no handler |
| Cli.MainUpdateAlwaysFails | Program.cs:50-58 | `update-db` always ends with -1, because `UpdateDatabase` always throws |
| Cli.VerbIsNotFlag | Program.cs:26-30 | An argument that lower-cases to a verb is never one of that verb's flags |
| Cli.MainVerbCaseInsensitive | Program.cs:26-28 | Argument lists that differ only in the case of the verb end the same way |

## Left out

- `CreateDatabase` is left out: it only makes file-system and Firebird server calls.
- The bodies of `BuildDatabase` and `ExportScripts` are left out. They are parameters of `Cli.Main` that report one of three outcomes: completed, ended the process with `Environment.Exit(1)` from their catch block, or threw.
- `ExportAllDdlUsingFbRestore` and `DefaultDbFileName` are not part of this model. Neither is defined in the source files, and the same holds for the type mapper, the catalog reconstructor and the backup-based exporter.
- Opening the connection, executing SQL and committing are left out. The abstract `exec` and `commit` of a `ScriptRunner.Connection` and the abstract state `S` stand in for them, and a transaction is the sequence of tentative states it passes through.
- Console output is left out throughout. It carries no result.
- The regular-expression engine is left out. The separator rule is stated on lines, and the module comment of `Splitter` explains why the two agree after trimming.
- Discovery.SortByPath: the order is ordinal, comparing character codes. `Array.Sort` uses the current culture's string comparer, which is left out because it is platform data.
- Discovery.ScriptsDirectory: the file-system listing is an input, and the `*.sql` filter quirks of Windows search patterns are left out.
- ScriptRunner.RunScripts: starting a file's transaction and rolling it back always succeed in the model, so every database error of a file becomes an error naming that file. In the source, a database error from `BeginTransaction` (FirebirdHelper.cs:45) is raised before the `try` and escapes as it is, without the file name, after the earlier files have committed and before any statement of the file is sent. A `Rollback` that throws (FirebirdHelper.cs:62) likewise lets its own error escape without the file name. Both paths are left out, and so the claim of `ScriptRunner.ExecuteScripts` that the only error of a present directory names a failing script holds only within the model.
- ScriptRunner.ExecuteScripts: its clause that a present directory fails only with an error naming a script leaves out the `BeginTransaction` and `Rollback` errors of the line above, which escape without a file name.
- File-read failures and other errors that are not database errors are left out. They escape without the explicit rollback path.
- Cli.ToLowerInvariant: maps only the ASCII letters. The few non-ASCII characters whose invariant lower case is an ASCII letter, such as the Kelvin sign U+212A, are left out, so a verb spelt with one of them is unknown in the model.
- Paths.FileName: treats `\` and `/` as separators and leaves out volume prefixes such as `C:`. The script paths it receives come from a directory listing.
- The text of exception messages is left out, except for the data they carry: the file name and the database error of a failed script, and the name of a missing flag.
