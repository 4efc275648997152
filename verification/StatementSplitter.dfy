/** Splitting SQL text at the semicolons outside quotes and parentheses. */
module StatementSplitter {
  import opened Text

  /** Where in the text the scan is: how many parentheses are open, and the open quote if any. */
  datatype Mode = Mode(depth: nat, quote: Option<char>)

  const TOP := Mode(0, None)

  predicate IsQuote(c: char) {
    c == '\'' || c == '"' || c == '`'
  }

  function Step(m: Mode, c: char): Mode {
    if m.quote.Some? then (if c == m.quote.value then m.(quote := None) else m)
    else if IsQuote(c) then m.(quote := Some(c))
    else if c == '(' then m.(depth := m.depth + 1)
    else if c == ')' && m.depth > 0 then m.(depth := m.depth - 1)
    else m
  }

  function ModeAfter(m: Mode, s: string): (r: Mode)
    decreases s
  {
    if s == [] then m else ModeAfter(Step(m, s[0]), s[1..])
  }

  /** A character that ends a statement. */
  predicate Cuts(m: Mode, c: char) {
    c == ';' && m == TOP
  }

  /** All pieces between cuts; unlike the result of the split, an empty last one included. */
  function Pieces(m: Mode, s: string): (r: seq<string>)
    ensures r != []
    decreases s
  {
    if s == [] then [""]
    else if Cuts(m, s[0]) then [""] + Pieces(m, s[1..])
    else Glue([s[0]], Pieces(Step(m, s[0]), s[1..]))
  }

  function Glue(front: string, pieces: seq<string>): (r: seq<string>)
    requires pieces != []
    ensures r != []
  {
    [front + pieces[0]] + pieces[1..]
  }

  function Statements(s: string): (r: seq<string>) {
    DropEmptyLast(Pieces(TOP, s))
  }

  function DropEmptyLast(pieces: seq<string>): seq<string>
    requires pieces != []
  {
    if Last(pieces) == "" then pieces[..|pieces| - 1] else pieces
  }

  function Last(pieces: seq<string>): string
    requires pieces != []
  {
    pieces[|pieces| - 1]
  }

  /** The text is not empty and its last character is a cut. */
  predicate EndsOnCut(s: string) {
    s != [] && Cuts(ModeAfter(TOP, s[..|s| - 1]), s[|s| - 1])
  }

  // ----- the loop -----

  lemma GlueTwice(a: string, b: string, pieces: seq<string>)
    requires pieces != []
    ensures Glue(a, Glue(b, pieces)) == Glue(a + b, pieces)
  {
    assert a + (b + pieces[0]) == a + b + pieces[0];
  }

  lemma GlueEmpty(pieces: seq<string>)
    requires pieces != []
    ensures Glue("", pieces) == pieces
  {
    assert "" + pieces[0] == pieces[0];
  }

  lemma GlueCut(front: string, rest: seq<string>)
    ensures Glue(front, [""] + rest) == [front] + rest
  {
    assert front + "" == front;
    assert ([""] + rest)[1..] == rest;
  }

  /** The pieces found so far, the text collected since, and the text still to be read. */
  ghost predicate Progress(done: seq<string>, current: string, m: Mode, rest: string, sql: string) {
    done + Glue(current, Pieces(m, rest)) == Pieces(TOP, sql)
  }

  lemma KeepStep(done: seq<string>, current: string, m: Mode, rest: string, sql: string)
    requires rest != [] && Progress(done, current, m, rest, sql) && !Cuts(m, rest[0])
    ensures Progress(done, current + [rest[0]], Step(m, rest[0]), rest[1..], sql)
  {
    GlueTwice(current, [rest[0]], Pieces(Step(m, rest[0]), rest[1..]));
  }

  lemma CutStep(done: seq<string>, current: string, m: Mode, rest: string, sql: string)
    requires rest != [] && Progress(done, current, m, rest, sql) && Cuts(m, rest[0])
    ensures Progress(done + [current], "", m, rest[1..], sql)
  {
    GlueCut(current, Pieces(m, rest[1..]));
    GlueEmpty(Pieces(m, rest[1..]));
  }

  lemma EndStep(done: seq<string>, current: string, m: Mode, sql: string)
    requires Progress(done, current, m, "", sql)
    ensures done + [current] == Pieces(TOP, sql)
    ensures Statements(sql) == if |current| > 0 then done + [current] else done
  {
    assert [""] + [] == [""];
    GlueCut(current, []);
  }

  method SplitStatements(sql: string) returns (statements: seq<string>)
    ensures statements == Statements(sql)
  {
    statements := [];
    var current, depth: nat, quote := "", 0, None;
    var i := 0;
    GlueEmpty(Pieces(TOP, sql));
    assert sql[0..] == sql;
    while i < |sql|
      invariant 0 <= i <= |sql|
      invariant Progress(statements, current, Mode(depth, quote), sql[i..], sql)
    {
      var ch := sql[i];
      assert sql[i..][0] == ch && sql[i..][1..] == sql[i + 1..];
      if Cuts(Mode(depth, quote), ch) {
        CutStep(statements, current, Mode(depth, quote), sql[i..], sql);
      } else {
        KeepStep(statements, current, Mode(depth, quote), sql[i..], sql);
      }
      if quote.Some? {
        current := current + [ch];
        if ch == quote.value {
          quote := None;
        }
      } else if ch == '\'' || ch == '"' || ch == '`' {
        quote := Some(ch);
        current := current + [ch];
      } else if ch == '(' {
        depth := depth + 1;
        current := current + [ch];
      } else if ch == ')' {
        if depth > 0 {
          depth := depth - 1;
        }
        current := current + [ch];
      } else if ch == ';' && depth == 0 {
        statements := statements + [current];
        current := "";
      } else {
        current := current + [ch];
      }
      i := i + 1;
    }
    EndStep(statements, current, Mode(depth, quote), sql);
    if |current| > 0 {
      statements := statements + [current];
    }
  }

  // ----- concatenation -----

  lemma {:induction false} ModeAppend(m: Mode, a: string, b: string)
    ensures ModeAfter(m, a + b) == ModeAfter(ModeAfter(m, a), b)
    decreases a
  {
    if a == [] {
      assert a + b == b;
    } else {
      assert (a + b)[1..] == a[1..] + b;
      ModeAppend(Step(m, a[0]), a[1..], b);
    }
  }

  /** The pieces of one text followed by those of another, the touching ones joined. */
  function Meet(left: seq<string>, right: seq<string>): (r: seq<string>)
    requires left != [] && right != []
    ensures r != []
  {
    left[..|left| - 1] + Glue(Last(left), right)
  }

  lemma MeetGlue(front: string, left: seq<string>, right: seq<string>)
    requires left != [] && right != []
    ensures Meet(Glue(front, left), right) == Glue(front, Meet(left, right))
  {
    var l := Glue(front, left);
    if |left| == 1 {
      assert front + left[0] + right[0] == front + (left[0] + right[0]);
    } else {
      assert l[..|l| - 1] == [front + left[0]] + left[1..|left| - 1];
      assert Meet(left, right)[0] == left[0];
      assert Meet(left, right)[1..] == left[1..|left| - 1] + Glue(Last(left), right);
    }
  }

  lemma MeetCut(left: seq<string>, right: seq<string>)
    requires left != [] && right != []
    ensures Meet([""] + left, right) == [""] + Meet(left, right)
  {
    assert ([""] + left)[..|left|] == [""] + left[..|left| - 1];
  }

  lemma MeetNothing(right: seq<string>)
    requires right != []
    ensures Meet([""], right) == right
  {
    GlueEmpty(right);
  }

  lemma {:induction false} PiecesAppend(m: Mode, a: string, b: string)
    ensures Pieces(m, a + b) == Meet(Pieces(m, a), Pieces(ModeAfter(m, a), b))
    decreases a
  {
    var right := Pieces(ModeAfter(m, a), b);
    if a == [] {
      assert a + b == b;
      MeetNothing(right);
    } else {
      assert (a + b)[1..] == a[1..] + b;
      if Cuts(m, a[0]) {
        PiecesAppend(m, a[1..], b);
        MeetCut(Pieces(m, a[1..]), right);
      } else {
        PiecesAppend(Step(m, a[0]), a[1..], b);
        MeetGlue([a[0]], Pieces(Step(m, a[0]), a[1..]), right);
      }
    }
  }

  /** Two texts with a semicolon between them, when the first ends outside quotes and parentheses. */
  lemma PiecesAtTop(a: string, b: string)
    requires ModeAfter(TOP, a) == TOP
    ensures Pieces(TOP, a + ";" + b) == Pieces(TOP, a) + Pieces(TOP, b)
  {
    assert a + ";" + b == a + (";" + b);
    assert (";" + b)[1..] == b;
    PiecesAppend(TOP, a, ";" + b);
    var left := Pieces(TOP, a);
    GlueCut(Last(left), Pieces(TOP, b));
  }

  /** And when it does not: the semicolon stays inside the last piece of the first. */
  lemma PiecesInside(a: string, b: string)
    requires ModeAfter(TOP, a) != TOP
    ensures |Pieces(TOP, a + ";" + b)| >= |Pieces(TOP, a)|
    ensures |Pieces(TOP, a + ";" + b)[|Pieces(TOP, a)| - 1]| > |Last(Pieces(TOP, a))|
  {
    assert a + ";" + b == a + (";" + b);
    PiecesAppend(TOP, a, ";" + b);
  }

  /** The last piece is empty exactly for the empty text and a text that ends on a cut. */
  lemma LastPiece(s: string)
    ensures Last(Pieces(TOP, s)) == "" <==> s == "" || EndsOnCut(s)
  {
    if s != "" {
      var n := |s| - 1;
      assert s == s[..n] + [s[n]];
      PiecesAppend(TOP, s[..n], [s[n]]);
      assert [s[n]][1..] == [];
    }
  }

  lemma OpenTextHasLastPiece(s: string)
    requires ModeAfter(TOP, s) != TOP
    ensures s != "" && !EndsOnCut(s)
  {
    if s != "" {
      var n := |s| - 1;
      assert s == s[..n] + [s[n]];
      ModeAppend(TOP, s[..n], [s[n]]);
      assert [s[n]][1..] == [];
      assert ModeAfter(TOP, s) == Step(ModeAfter(TOP, s[..n]), s[n]);
    }
  }

  /** Splitting two texts joined by a semicolon gives the statements of both, if and only if the
      first ends outside quotes and parentheses, is not empty and does not itself end on a cut. */
  lemma SplitDistributesIff(a: string, b: string)
    ensures Statements(a + ";" + b) == Statements(a) + Statements(b)
            <==> ModeAfter(TOP, a) == TOP && a != "" && !EndsOnCut(a)
  {
    LastPiece(a);
    var left, right := Pieces(TOP, a), Pieces(TOP, b);
    if ModeAfter(TOP, a) == TOP {
      PiecesAtTop(a, b);
      assert DropEmptyLast(left + right) == left + DropEmptyLast(right);
    } else {
      OpenTextHasLastPiece(a);
      PiecesInside(a, b);
      var k := |left| - 1;
      assert (Statements(a) + Statements(b))[k] == left[k];
      var all := Pieces(TOP, a + ";" + b);
      assert k < |Statements(a + ";" + b)| ==> Statements(a + ";" + b)[k] == all[k];
    }
  }

  /** The simplest text for which it does not: nothing before the semicolon gives an empty statement. */
  lemma EmptyFirstStatement(b: string)
    ensures Statements(";" + b) == [""] + Statements(b)
    ensures Statements("") == []
  {
    PiecesAtTop("", b);
    assert "" + ";" + b == ";" + b;
    assert DropEmptyLast([""] + Pieces(TOP, b)) == [""] + Statements(b);
  }

  // ----- lossless -----

  lemma {:induction false} JoinAppend(a: seq<string>, b: seq<string>)
    requires a != [] && b != []
    ensures Join(a + b, ';') == Join(a, ';') + ";" + Join(b, ';')
  {
    var n := |b| - 1;
    assert (a + b)[..|a + b| - 1] == a + b[..n];
    if n > 0 {
      JoinAppend(a, b[..n]);
      assert Join(a, ';') + ";" + Join(b[..n], ';') + ";" + b[n] == Join(a, ';') + ";" + (Join(b[..n], ';') + ";" + b[n]);
    } else {
      assert a + b[..0] == a;
    }
  }

  lemma JoinGlue(front: string, pieces: seq<string>)
    requires pieces != []
    ensures Join(Glue(front, pieces), ';') == front + Join(pieces, ';')
  {
    var g := Glue(front, pieces);
    if |pieces| > 1 {
      JoinAppend([front + pieces[0]], pieces[1..]);
      JoinAppend([pieces[0]], pieces[1..]);
      assert [pieces[0]] + pieces[1..] == pieces;
      assert front + pieces[0] + ";" + Join(pieces[1..], ';') == front + (pieces[0] + ";" + Join(pieces[1..], ';'));
    }
  }

  lemma {:induction false} PiecesJoin(m: Mode, s: string)
    ensures Join(Pieces(m, s), ';') == s
    decreases s
  {
    if s != [] {
      if Cuts(m, s[0]) {
        PiecesJoin(m, s[1..]);
        JoinAppend([""], Pieces(m, s[1..]));
        assert s == "" + ";" + s[1..];
      } else {
        PiecesJoin(Step(m, s[0]), s[1..]);
        JoinGlue([s[0]], Pieces(Step(m, s[0]), s[1..]));
        assert s == [s[0]] + s[1..];
      }
    }
  }

  function Ending(s: string): string {
    if EndsOnCut(s) then ";" else ""
  }

  lemma JoinBeforeLast(front: seq<string>)
    requires front != []
    ensures Join(front + [""], ';') == Join(front, ';') + ";"
  {
    JoinAppend(front, [""]);
    assert Join(front, ';') + ";" + "" == Join(front, ';') + ";";
  }

  /** The statements joined by semicolons, with one more at the end when the text ends on a cut, are the text. */
  lemma SplitIsLossless(s: string)
    ensures Join(Statements(s), ';') + Ending(s) == s
  {
    PiecesJoin(TOP, s);
    LastPiece(s);
    var all, front := Pieces(TOP, s), Statements(s);
    if EndsOnCut(s) {
      assert all == front + [""];
      if front != [] {
        JoinBeforeLast(front);
      }
    } else {
      assert Join(front, ';') == s;
      assert s + "" == s;
    }
  }

  // ----- stable -----

  /** Every piece is one piece again: the first in the mode the text starts in, the others at the top. */
  lemma {:induction false} PieceIsWhole(m: Mode, s: string, i: nat)
    requires i < |Pieces(m, s)|
    ensures Pieces(if i == 0 then m else TOP, Pieces(m, s)[i]) == [Pieces(m, s)[i]]
    decreases s
  {
    if s != [] {
      if Cuts(m, s[0]) {
        if i > 0 {
          PieceIsWhole(m, s[1..], i - 1);
        }
      } else {
        var m', rest := Step(m, s[0]), Pieces(Step(m, s[0]), s[1..]);
        if i == 0 {
          PieceIsWhole(m', s[1..], 0);
          assert ([s[0]] + rest[0])[1..] == rest[0];
          assert Pieces(m, [s[0]] + rest[0]) == Glue([s[0]], [rest[0]]);
        } else {
          PieceIsWhole(m', s[1..], i);
        }
      }
    }
  }

  /** Splitting a statement again gives that statement. */
  lemma SplitIsStable(s: string, i: nat)
    requires i < |Statements(s)| && Statements(s)[i] != ""
    ensures Statements(Statements(s)[i]) == [Statements(s)[i]]
  {
    PieceIsWhole(TOP, s, i);
  }

  /** Text that no cut divides. */
  predicate IsStatement(s: string) {
    s != "" && Pieces(TOP, s) == [s]
  }

  /** The inverse: any statements, each but the last closed, are what splitting their join gives back. */
  lemma {:induction false} SplitOfJoin(statements: seq<string>)
    requires forall i :: 0 <= i < |statements| ==> IsStatement(statements[i])
    requires forall i :: 0 <= i < |statements| - 1 ==> ModeAfter(TOP, statements[i]) == TOP
    ensures Statements(Join(statements, ';')) == statements
  {
    if |statements| > 1 {
      var n := |statements| - 1;
      SplitOfJoin(statements[..n]);
      JoinEndsClosed(statements[..n]);
      PiecesAtTop(Join(statements[..n], ';'), statements[n]);
      assert Join(statements, ';') == Join(statements[..n], ';') + ";" + statements[n];
      LastPiece(Join(statements[..n], ';'));
    }
  }

  lemma {:induction false} JoinEndsClosed(statements: seq<string>)
    requires statements != []
    requires forall i :: 0 <= i < |statements| ==> IsStatement(statements[i]) && ModeAfter(TOP, statements[i]) == TOP
    ensures ModeAfter(TOP, Join(statements, ';')) == TOP
    ensures Pieces(TOP, Join(statements, ';')) == statements
  {
    var n := |statements| - 1;
    if n > 0 {
      JoinEndsClosed(statements[..n]);
      var front := Join(statements[..n], ';');
      PiecesAtTop(front, statements[n]);
      assert Join(statements, ';') == front + ";" + statements[n];
      ModeAppend(TOP, front + ";", statements[n]);
      ModeAppend(TOP, front, ";");
      assert ";"[1..] == "";
    }
  }
}
