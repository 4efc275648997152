/** Text helpers shared by the handlers: trimming and case folding of identifiers.
    Case folding is the ASCII one; that is the only difference to Go's `strings` package. */
module Text {

  datatype Option<+T> = None | Some(value: T)

  /** The code points Go's `unicode.IsSpace` accepts. */
  predicate IsSpace(c: char) {
    || c == ' ' || '\t' <= c <= '\r' || c == '\U{85}' || c == '\U{A0}' || c == '\U{1680}'
    || '\U{2000}' <= c <= '\U{200A}' || c == '\U{2028}' || c == '\U{2029}'
    || c == '\U{202F}' || c == '\U{205F}' || c == '\U{3000}'
  }

  function TrimLeft(s: string): (r: string) {
    if s != [] && IsSpace(s[0]) then TrimLeft(s[1..]) else s
  }

  function TrimRight(s: string): (r: string) {
    if s != [] && IsSpace(s[|s| - 1]) then TrimRight(s[..|s| - 1]) else s
  }

  function Trim(s: string): (r: string) {
    TrimRight(TrimLeft(s))
  }

  predicate IsTrimmed(s: string) {
    s == [] || (!IsSpace(s[0]) && !IsSpace(s[|s| - 1]))
  }

  predicate Blank(s: string) {
    Trim(s) == []
  }

  lemma {:induction false} TrimLeftStart(s: string)
    ensures TrimLeft(s) == [] || !IsSpace(TrimLeft(s)[0])
  {
    if s != [] && IsSpace(s[0]) {
      TrimLeftStart(s[1..]);
    }
  }

  lemma {:induction false} TrimRightEnd(s: string)
    ensures TrimRight(s) <= s
    ensures TrimRight(s) == [] || !IsSpace(TrimRight(s)[|TrimRight(s)| - 1])
  {
    if s != [] && IsSpace(s[|s| - 1]) {
      TrimRightEnd(s[..|s| - 1]);
    }
  }

  lemma TrimOfTrimmed(s: string)
    requires IsTrimmed(s)
    ensures Trim(s) == s
  {
  }

  /** No white space remains at either end, so trimming is idempotent. */
  lemma TrimIsTrimmed(s: string)
    ensures IsTrimmed(Trim(s))
    ensures Trim(Trim(s)) == Trim(s)
  {
    TrimLeftStart(s);
    TrimRightEnd(TrimLeft(s));
    TrimOfTrimmed(Trim(s));
  }

  function Lower(c: char): (r: char) {
    if 'A' <= c <= 'Z' then (c as int + 32) as char else c
  }

  function Fold(s: string): (r: string)
    ensures |r| == |s|
  {
    seq(|s|, i requires 0 <= i < |s| => Lower(s[i]))
  }

  predicate SameFold(a: string, b: string) {
    Fold(a) == Fold(b)
  }

  /** Folding changes neither white space nor lengths, so it commutes with trimming. */
  lemma {:induction false} FoldTrimLeft(s: string)
    ensures TrimLeft(Fold(s)) == Fold(TrimLeft(s))
  {
    if s != [] && IsSpace(s[0]) {
      assert Fold(s)[1..] == Fold(s[1..]);
      FoldTrimLeft(s[1..]);
    }
  }

  lemma {:induction false} FoldTrimRight(s: string)
    ensures TrimRight(Fold(s)) == Fold(TrimRight(s))
  {
    if s != [] && IsSpace(s[|s| - 1]) {
      assert Fold(s)[..|s| - 1] == Fold(s[..|s| - 1]);
      FoldTrimRight(s[..|s| - 1]);
    }
  }

  lemma FoldTrim(s: string)
    ensures Trim(Fold(s)) == Fold(Trim(s))
  {
    FoldTrimLeft(s);
    FoldTrimRight(TrimLeft(s));
  }

  /** Go's `strings.Split` on one character: always at least one piece. */
  function Split(s: string, sep: char): (r: seq<string>)
    ensures r != []
  {
    if s == [] then [""]
    else
      var front := Split(s[..|s| - 1], sep);
      if s[|s| - 1] == sep then front + [""]
      else Grow(front, [s[|s| - 1]])
  }

  /** The pieces with text added to the last one. */
  function Grow(pieces: seq<string>, text: string): (r: seq<string>)
    requires pieces != []
    ensures r != []
  {
    pieces[..|pieces| - 1] + [pieces[|pieces| - 1] + text]
  }

  lemma GrowTwice(pieces: seq<string>, a: string, b: string)
    requires pieces != []
    ensures Grow(Grow(pieces, a), b) == Grow(pieces, a + b)
  {
    assert pieces[|pieces| - 1] + a + b == pieces[|pieces| - 1] + (a + b);
  }

  lemma GrowNothing(pieces: seq<string>)
    requires pieces != []
    ensures Grow(pieces, "") == pieces
  {
    assert pieces[|pieces| - 1] + "" == pieces[|pieces| - 1];
  }

  function Join(pieces: seq<string>, sep: char): (r: string) {
    if pieces == [] then ""
    else if |pieces| == 1 then pieces[0]
    else Join(pieces[..|pieces| - 1], sep) + [sep] + pieces[|pieces| - 1]
  }

  /** Splitting what was joined gives the pieces back. */
  lemma {:induction false} SplitOfJoin(pieces: seq<string>, sep: char)
    requires pieces != [] && forall i :: 0 <= i < |pieces| ==> sep !in pieces[i]
    ensures Split(Join(pieces, sep), sep) == pieces
  {
    var n := |pieces| - 1;
    if n == 0 {
      assert "" + pieces[0] == pieces[0];
      SplitOfPiece("", pieces[0], pieces[0], sep);
      assert Grow([""], pieces[0]) == pieces;
    } else {
      SplitOfJoin(pieces[..n], sep);
      SplitOfNext(Join(pieces[..n], sep), pieces[..n], pieces[n], sep);
      assert pieces[..n] + [pieces[n]] == pieces;
    }
  }

  lemma SplitOfNext(front: string, pieces: seq<string>, piece: string, sep: char)
    requires sep !in piece && Split(front, sep) == pieces
    ensures Split(front + [sep] + piece, sep) == pieces + [piece]
  {
    var cut := front + [sep];
    assert cut[..|front|] == front;
    SplitOfPiece(cut, piece, cut + piece, sep);
    assert "" + piece == piece;
    assert Grow(pieces + [""], piece) == pieces + [piece];
  }

  lemma {:induction false} SplitOfPiece(front: string, piece: string, whole: string, sep: char)
    requires sep !in piece && whole == front + piece
    ensures Split(whole, sep) == Grow(Split(front, sep), piece)
    decreases piece
  {
    if piece == [] {
      assert whole == front;
      GrowNothing(Split(front, sep));
    } else {
      var n, m := |piece| - 1, |whole| - 1;
      assert whole[..m] == front + piece[..n] && whole[m] == piece[n];
      SplitOfPiece(front, piece[..n], whole[..m], sep);
      GrowTwice(Split(front, sep), piece[..n], [piece[n]]);
      assert piece[..n] + [piece[n]] == piece;
    }
  }

  predicate IsDigit(c: char) {
    '0' <= c <= '9'
  }

  function Digit(c: char): int {
    c as int - '0' as int
  }

  function Decimal(n: nat): (r: string)
    ensures r != [] && forall i :: 0 <= i < |r| ==> IsDigit(r[i])
  {
    if n < 10 then [('0' as int + n) as char] else Decimal(n / 10) + [('0' as int + n % 10) as char]
  }

  /** The value of a text of digits. */
  function Number(s: string): (r: int) {
    if s == [] then 0 else 10 * Number(s[..|s| - 1]) + Digit(s[|s| - 1])
  }

  lemma {:induction false} NumberOfDecimal(n: nat)
    ensures Number(Decimal(n)) == n
  {
    var s := Decimal(n);
    if n < 10 {
      assert s[..0] == [];
    } else {
      NumberOfDecimal(n / 10);
      assert s[..|s| - 1] == Decimal(n / 10);
    }
  }
}
