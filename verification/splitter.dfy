/**
  The statement splitter of `ExecuteScripts` (FirebirdHelper.cs:42-51).

  A script is cut at every line that holds a single `;` and nothing else but
  whitespace. The pieces in between are trimmed, and empty pieces are
  dropped. The model works on lines: the text is cut into lines at `'\n'`,
  the lines are grouped at separator lines, each group is joined back with
  `'\n'`, and the joined group is trimmed. The source states the rule as the
  multi-line pattern `^\s*;\s*$`. A match of that pattern always covers the
  whole `;` line plus some neighbouring whitespace, so once the pieces are
  trimmed the two readings agree. A `'\r'` before the `'\n'` is whitespace,
  so CRLF text splits the same way.
 */
module Splitter {
  import opened Seqs
  import opened Text

  predicate IsNewline(c: char)
  {
    c == '\n'
  }

  /** The lines of `text`: the text between newline characters. */
  function Lines(text: string): seq<string>
  {
    SplitWhere(text, IsNewline)
  }

  /** A separator line holds one `;` and otherwise whitespace. */
  predicate IsSeparatorLine(line: string)
  {
    Trim(line) == ";"
  }

  /** No line of `text` is a separator line, so `text` cannot be split. */
  predicate HasNoSeparatorLine(text: string)
  {
    forall i :: 0 <= i < |Lines(text)| ==> !IsSeparatorLine(Lines(text)[i])
  }

  /** Each group of lines joined back into text. */
  function JoinGroups(groups: seq<seq<string>>): (pieces: seq<string>)
    ensures |pieces| == |groups|
  {
    if |groups| == 0 then [] else [JoinWith(groups[0], '\n')] + JoinGroups(groups[1..])
  }

  /** The raw text between separator lines, in order; it may be blank. */
  function Pieces(text: string): seq<string>
  {
    JoinGroups(SplitWhere(Lines(text), IsSeparatorLine))
  }

  /**
    The trimmed pieces, in order, without the empty ones. A single piece
    gives its trimmed text, or nothing when that is empty;
    `KeepStatementsAppend` extends this to any number of pieces.
   */
  function KeepStatements(pieces: seq<string>): (stmts: seq<string>)
    ensures |stmts| <= |pieces|
    ensures forall i :: 0 <= i < |stmts| ==> stmts[i] != [] && IsTrimmed(stmts[i])
    ensures |pieces| == 1 ==> stmts == if Trim(pieces[0]) == [] then [] else [Trim(pieces[0])]
  {
    if |pieces| == 0 then [] else KeepPiece(pieces[0]) + KeepStatements(pieces[1..])
  }

  /** What one piece contributes: its trimmed text, unless that is empty. */
  function KeepPiece(piece: string): seq<string>
  {
    var t := Trim(piece);
    if t == [] then [] else [t]
  }

  /**
    The statements of a script, in source order. Every statement is
    trimmed and non-empty.
   */
  function SplitScript(text: string): (stmts: seq<string>)
    ensures forall i :: 0 <= i < |stmts| ==> stmts[i] != [] && IsTrimmed(stmts[i])
  {
    KeepStatements(Pieces(text))
  }

  /** The script text that puts each statement between separator lines. */
  function JoinScript(stmts: seq<string>): string
  {
    if |stmts| == 0 then []
    else if |stmts| == 1 then stmts[0]
    else stmts[0] + "\n" + ";" + "\n" + JoinScript(stmts[1..])
  }

  lemma {:induction false} JoinGroupsAppend(g: seq<seq<string>>, h: seq<seq<string>>)
    ensures JoinGroups(g + h) == JoinGroups(g) + JoinGroups(h)
    decreases |g|
  {
    if |g| > 0 {
      assert (g + h)[1..] == g[1..] + h;
      JoinGroupsAppend(g[1..], h);
    } else {
      assert g + h == h;
    }
  }

  lemma {:induction false} KeepStatementsIsFlatMap(pieces: seq<string>)
    ensures KeepStatements(pieces) == FlatMap(pieces, KeepPiece)
    decreases |pieces|
  {
    if |pieces| > 0 {
      KeepStatementsIsFlatMap(pieces[1..]);
    }
  }

  lemma KeepStatementsAppend(p: seq<string>, q: seq<string>)
    ensures KeepStatements(p + q) == KeepStatements(p) + KeepStatements(q)
  {
    KeepStatementsIsFlatMap(p + q);
    KeepStatementsIsFlatMap(p);
    KeepStatementsIsFlatMap(q);
    FlatMapAppend(p, q, KeepPiece);
  }

  /**
    A separator line is exactly a line with one `;` whose every other
    character is whitespace. In particular a `;` at the end of a statement
    line, or two `;` on one line, does not make a separator.
   */
  lemma SeparatorLineShape(line: string)
    ensures IsSeparatorLine(line) <==>
      exists k :: 0 <= k < |line| && line[k] == ';' && forall j :: 0 <= j < |line| && j != k ==> IsSpace(line[j])
  {
    var r := Trim(line);
    var i := LeadingSpace(line);
    if IsSeparatorLine(line) {
      assert line[i] == ';';
      assert forall j :: 0 <= j < |line| && j != i ==> IsSpace(line[j]);
    }
    if exists k :: 0 <= k < |line| && line[k] == ';' && forall j :: 0 <= j < |line| && j != k ==> IsSpace(line[j]) {
      var k :| 0 <= k < |line| && line[k] == ';' && forall j :: 0 <= j < |line| && j != k ==> IsSpace(line[j]);
      assert !IsSpace(line[k]);
      assert i <= k < i + |r|;
      assert r[0] == line[i] && r[|r| - 1] == line[i + |r| - 1];
      assert i == k && |r| == 1;
      assert r == [line[k]];
    }
  }

  /** Cutting a script at a separator line splits its statements the same way. */
  lemma SplitAtSeparatorLine(a: string, sep: string, b: string)
    requires IsSeparatorLine(sep) && '\n' !in sep
    ensures SplitScript(a + "\n" + sep + "\n" + b) == SplitScript(a) + SplitScript(b)
  {
    var tail := sep + "\n" + b;
    assert a + "\n" + sep + "\n" + b == a + ['\n'] + tail;
    SplitAtDelimiter(a, '\n', tail, IsNewline);
    assert tail == sep + ['\n'] + b;
    SplitAtDelimiter(sep, '\n', b, IsNewline);
    SplitWithoutDelimiter(sep, IsNewline);
    assert Lines(a + "\n" + sep + "\n" + b) == Lines(a) + [sep] + Lines(b);
    SplitAtDelimiter(Lines(a), sep, Lines(b), IsSeparatorLine);
    JoinGroupsAppend(SplitWhere(Lines(a), IsSeparatorLine), SplitWhere(Lines(b), IsSeparatorLine));
    KeepStatementsAppend(Pieces(a), Pieces(b));
  }

  /** Text written line by line has no newline inside a line. */
  predicate NoNewlines(ls: seq<string>)
  {
    forall i :: 0 <= i < |ls| ==> '\n' !in ls[i]
  }

  /** The empty text has one piece, the empty text, as does no line at all. */
  lemma PiecesOfNoLines()
    ensures Pieces(JoinWith([], '\n')) == [[]]
    ensures JoinGroups(SplitWhere([], IsSeparatorLine)) == [[]]
  {
    assert Lines([]) == [[]];
    assert !IsSeparatorLine([]) by {
      TrimOfBlank([]);
    }
    SplitWithoutDelimiter([[]], IsSeparatorLine);
  }

  /**
    Text written line by line: its pieces are the groups of those lines
    between separator lines, each joined back. No lines at all is the empty
    text, whose one piece is empty.
   */
  lemma PiecesOfLines(ls: seq<string>)
    requires NoNewlines(ls)
    ensures Pieces(JoinWith(ls, '\n')) == JoinGroups(SplitWhere(ls, IsSeparatorLine))
  {
    if |ls| == 0 {
      PiecesOfNoLines();
    } else {
      assert forall i, j :: 0 <= i < |ls| && 0 <= j < |ls[i]| ==> !IsNewline(ls[i][j]) by {
        forall i, j | 0 <= i < |ls| && 0 <= j < |ls[i]|
          ensures !IsNewline(ls[i][j])
        {
          assert ls[i][j] in ls[i];
        }
      }
      SplitAfterJoin(ls, '\n', IsNewline);
    }
  }

  /**
    A separator line between two runs of lines splits the statements
    apart: those of the lines before it, then those of the lines after it.
    Either run may be empty, so the separator may be the first or the last
    line.
   */
  lemma SplitAroundLine(before: seq<string>, sep: string, after: seq<string>)
    requires IsSeparatorLine(sep) && '\n' !in sep
    requires NoNewlines(before) && NoNewlines(after)
    ensures SplitScript(JoinWith(before + [sep] + after, '\n')) == SplitScript(JoinWith(before, '\n')) + SplitScript(JoinWith(after, '\n'))
  {
    var ls := before + [sep] + after;
    assert NoNewlines(ls);
    var gb, ga := SplitWhere(before, IsSeparatorLine), SplitWhere(after, IsSeparatorLine);
    PiecesOfLines(ls);
    PiecesOfLines(before);
    PiecesOfLines(after);
    SplitAtDelimiter(before, sep, after, IsSeparatorLine);
    JoinGroupsAppend(gb, ga);
    KeepStatementsAppend(JoinGroups(gb), JoinGroups(ga));
  }

  /** Cutting the lines of a script at any separator line, line `k`, splits its statements there. */
  lemma SplitAtLine(ls: seq<string>, k: nat)
    requires k < |ls| && IsSeparatorLine(ls[k])
    requires NoNewlines(ls)
    ensures SplitScript(JoinWith(ls, '\n')) == SplitScript(JoinWith(ls[..k], '\n')) + SplitScript(JoinWith(ls[k + 1..], '\n'))
  {
    AroundIndex(ls, k);
    SplitAroundLine(ls[..k], ls[k], ls[k + 1..]);
  }

  /** A script without separator lines is one statement, or none if it is blank. */
  lemma SplitWithoutSeparator(text: string)
    requires HasNoSeparatorLine(text)
    ensures SplitScript(text) == if Trim(text) == [] then [] else [Trim(text)]
  {
    SplitWithoutDelimiter(Lines(text), IsSeparatorLine);
    JoinAfterSplit(text, '\n', IsNewline);
    assert Pieces(text) == [text];
  }

  /** A script of whitespace only (an empty file among them) has no statements. */
  lemma BlankScriptHasNoStatements(text: string)
    requires AllSpace(text)
    ensures SplitScript(text) == []
  {
    var lines := Lines(text);
    SplitWhereElements(text, IsNewline);
    forall i | 0 <= i < |lines|
      ensures !IsSeparatorLine(lines[i])
    {
      assert forall j :: 0 <= j < |lines[i]| ==> lines[i][j] in text;
      TrimOfBlank(lines[i]);
    }
    SplitWithoutSeparator(text);
    TrimOfBlank(text);
  }

  /** One statement followed by a `;` line splits off as the first statement. */
  lemma SplitAfterStatement(stmt: string, rest: string)
    requires stmt != [] && IsTrimmed(stmt) && HasNoSeparatorLine(stmt)
    ensures SplitScript(stmt + "\n" + ";" + "\n" + rest) == [stmt] + SplitScript(rest)
  {
    SemicolonLineSeparates();
    SingleStatement(stmt);
    SplitAtSeparatorLine(stmt, ";", rest);
  }

  /** The line `;` alone is a separator line. */
  lemma SemicolonLineSeparates()
    ensures IsSeparatorLine(";")
  {
    TrimOfTrimmed(";");
  }

  /** A trimmed statement without separator lines is a script of that one statement. */
  lemma SingleStatement(stmt: string)
    requires stmt != [] && IsTrimmed(stmt) && HasNoSeparatorLine(stmt)
    ensures SplitScript(stmt) == [stmt]
  {
    SplitWithoutSeparator(stmt);
    TrimOfTrimmed(stmt);
  }

  /**
    Round trip: trimmed, non-empty statements without separator lines,
    written one after another with a `;` line between neighbours, split back
    into exactly those statements in the same order.
   */
  lemma {:induction false} SplitJoinScript(stmts: seq<string>)
    requires forall i :: 0 <= i < |stmts| ==> stmts[i] != [] && IsTrimmed(stmts[i])
    requires forall i :: 0 <= i < |stmts| ==> HasNoSeparatorLine(stmts[i])
    ensures SplitScript(JoinScript(stmts)) == stmts
    decreases |stmts|
  {
    if |stmts| == 0 {
      BlankScriptHasNoStatements([]);
    } else if |stmts| == 1 {
      SingleStatement(stmts[0]);
    } else {
      SplitJoinScript(stmts[1..]);
      JoinScriptStep(stmts);
      assert [stmts[0]] + stmts[1..] == stmts;
    }
  }

  /** One more statement in front of a joined script adds exactly that statement in front. */
  lemma JoinScriptStep(stmts: seq<string>)
    requires |stmts| > 1
    requires stmts[0] != [] && IsTrimmed(stmts[0]) && HasNoSeparatorLine(stmts[0])
    ensures SplitScript(JoinScript(stmts)) == [stmts[0]] + SplitScript(JoinScript(stmts[1..]))
  {
    SplitAfterStatement(stmts[0], JoinScript(stmts[1..]));
  }
}
