/** SQL text as nested pieces, and that the splitter reads it so: what is quoted or in parentheses never
    ends a statement, and every other semicolon does. */
module StatementText {
  import opened Text
  import opened StatementSplitter

  /** A plain character, a quoted text, or a text in parentheses. */
  datatype Item = Plain(c: char) | Quoted(q: char, body: string) | Grouped(items: seq<Item>)

  predicate WellFormed(it: Item) {
    match it
    case Plain(c) => c != '\'' && c != '"' && c != '`' && c != '(' && c != ')'
    case Quoted(q, body) => (q == '\'' || q == '"' || q == '`') && q !in body
    case Grouped(items) => AllWellFormed(items)
  }

  predicate AllWellFormed(items: seq<Item>) {
    forall i :: 0 <= i < |items| ==> WellFormed(items[i])
  }

  function TextOf(it: Item): string {
    match it
    case Plain(c) => [c]
    case Quoted(q, body) => [q] + body + [q]
    case Grouped(items) => "(" + TextOfAll(items) + ")"
  }

  function TextOfAll(items: seq<Item>): string {
    if items == [] then "" else TextOf(items[0]) + TextOfAll(items[1..])
  }

  /** The scan takes the text as part of one statement and comes out in the mode it went in. */
  ghost predicate Whole(m: Mode, s: string) {
    Pieces(m, s) == [s] && ModeAfter(m, s) == m
  }

  /** One statement so far, and the mode after it. */
  ghost predicate Leads(m: Mode, s: string, m': Mode) {
    Pieces(m, s) == [s] && ModeAfter(m, s) == m'
  }

  lemma LeadsOn(m: Mode, a: string, m': Mode, b: string, m'': Mode)
    requires Leads(m, a, m') && Leads(m', b, m'')
    ensures Leads(m, a + b, m'')
  {
    PiecesAppend(m, a, b);
    ModeAppend(m, a, b);
  }

  lemma OneCharacter(m: Mode, c: char)
    requires !Cuts(m, c)
    ensures Leads(m, [c], Step(m, c))
  {
    assert [c][1..] == [];
    assert [c] + "" == [c];
  }

  lemma {:induction false} InsideQuote(d: nat, q: char, body: string)
    requires q !in body
    ensures Whole(Mode(d, Some(q)), body)
  {
    if body != [] {
      InsideQuote(d, q, body[1..]);
      OneCharacter(Mode(d, Some(q)), body[0]);
      LeadsOn(Mode(d, Some(q)), [body[0]], Mode(d, Some(q)), body[1..], Mode(d, Some(q)));
      assert [body[0]] + body[1..] == body;
    }
  }

  lemma QuotedKeeps(d: nat, q: char, body: string)
    requires WellFormed(Quoted(q, body))
    ensures Whole(Mode(d, None), [q] + body + [q])
  {
    var outside, inside := Mode(d, None), Mode(d, Some(q));
    OneCharacter(outside, q);
    InsideQuote(d, q, body);
    OneCharacter(inside, q);
    LeadsOn(outside, [q], inside, body, inside);
    LeadsOn(outside, [q] + body, inside, [q], outside);
  }

  lemma GroupedKeeps(d: nat, body: string)
    requires Whole(Mode(d + 1, None), body)
    ensures Whole(Mode(d, None), "(" + body + ")")
  {
    var outside, inside := Mode(d, None), Mode(d + 1, None);
    OneCharacter(outside, '(');
    OneCharacter(inside, ')');
    LeadsOn(outside, "(", inside, body, inside);
    LeadsOn(outside, "(" + body, inside, ")", outside);
  }

  lemma {:induction false} ItemKeeps(it: Item, d: nat)
    requires WellFormed(it) && (it == Plain(';') ==> d > 0)
    ensures Whole(Mode(d, None), TextOf(it))
    decreases it, 1
  {
    match it {
      case Plain(c) => OneCharacter(Mode(d, None), c);
      case Quoted(q, body) => QuotedKeeps(d, q, body);
      case Grouped(items) =>
        ItemsKeep(items, d + 1);
        GroupedKeeps(d, TextOfAll(items));
    }
  }

  /** No semicolon stands outside quotes and parentheses. */
  predicate NoBareSemicolon(items: seq<Item>) {
    forall i :: 0 <= i < |items| ==> items[i] != Plain(';')
  }

  lemma {:induction false} ItemsKeep(items: seq<Item>, d: nat)
    requires AllWellFormed(items) && (d > 0 || NoBareSemicolon(items))
    ensures Whole(Mode(d, None), TextOfAll(items))
    decreases items, 0
  {
    if items != [] {
      var m := Mode(d, None);
      ItemKeeps(items[0], d);
      ItemsKeep(items[1..], d);
      LeadsOn(m, TextOf(items[0]), m, TextOfAll(items[1..]), m);
    }
  }

  // ----- whole texts -----

  predicate IsPart(items: seq<Item>) {
    AllWellFormed(items) && NoBareSemicolon(items)
  }

  function Texts(parts: seq<seq<Item>>): (r: seq<string>)
    ensures |r| == |parts|
  {
    seq(|parts|, i requires 0 <= i < |parts| => TextOfAll(parts[i]))
  }

  lemma {:induction false} PiecesAreParts(texts: seq<string>)
    requires texts != [] && forall i :: 0 <= i < |texts| ==> Whole(TOP, texts[i])
    ensures Pieces(TOP, Join(texts, ';')) == texts && ModeAfter(TOP, Join(texts, ';')) == TOP
  {
    var n := |texts| - 1;
    if n > 0 {
      PiecesAreParts(texts[..n]);
      var front := Join(texts[..n], ';');
      PiecesAtTop(front, texts[n]);
      ModeAppend(TOP, front + ";", texts[n]);
      ModeAppend(TOP, front, ";");
      assert ";"[1..] == "";
      assert texts == texts[..n] + [texts[n]];
    }
  }

  /** Texts without a bare semicolon, joined by semicolons, are split into exactly these texts; only an
      empty last one is dropped. */
  lemma SplitsIntoParts(parts: seq<seq<Item>>)
    requires parts != [] && forall i :: 0 <= i < |parts| ==> IsPart(parts[i])
    ensures var texts := Texts(parts);
            Statements(Join(texts, ';')) == if texts[|texts| - 1] == "" then texts[..|texts| - 1] else texts
  {
    var texts := Texts(parts);
    forall i | 0 <= i < |texts| ensures Whole(TOP, texts[i]) {
      ItemsKeep(parts[i], 0);
    }
    PiecesAreParts(texts);
  }

  /** A closing parenthesis that closes nothing is plain text. */
  lemma StrayParenthesis()
    ensures Whole(TOP, ")")
  {
    OneCharacter(TOP, ')');
  }

  /** After a quote or a parenthesis that is never closed no semicolon ends a statement. */
  lemma OpenQuoteSwallows(items: seq<Item>, q: char, body: string)
    requires IsPart(items) && WellFormed(Quoted(q, body))
    ensures Statements(TextOfAll(items) + ([q] + body)) == [TextOfAll(items) + ([q] + body)]
  {
    var inside := Mode(0, Some(q));
    ItemsKeep(items, 0);
    OneCharacter(TOP, q);
    InsideQuote(0, q, body);
    LeadsOn(TOP, [q], inside, body, inside);
    LeadsOn(TOP, TextOfAll(items), TOP, [q] + body, inside);
  }

  lemma OpenParenthesisSwallows(items: seq<Item>, body: seq<Item>)
    requires IsPart(items) && AllWellFormed(body)
    ensures Statements(TextOfAll(items) + ("(" + TextOfAll(body))) == [TextOfAll(items) + ("(" + TextOfAll(body))]
  {
    var inside := Mode(1, None);
    ItemsKeep(items, 0);
    OneCharacter(TOP, '(');
    ItemsKeep(body, 1);
    LeadsOn(TOP, "(", inside, TextOfAll(body), inside);
    LeadsOn(TOP, TextOfAll(items), TOP, "(" + TextOfAll(body), inside);
  }
}
