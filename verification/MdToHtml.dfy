/**
 The block structure of the Markdown renderer: which blocks are open at any line, that every tag emitted is
 closed in order, and which lines of the source reach the page, each inside which tags.
*/
module MdToHtml {
  import opened Common
  import opened Decimal
  import opened Text

  // ---- what a line is ----

  datatype Kind = Fence | Heading(level: nat) | Rule | TableRow | Bullet | Blank | Prose

  predicate StartsWith(s: string, prefix: string) {
    prefix <= s
  }

  function Hashes(line: string): (n: nat)
    ensures n <= |line|
  {
    if line == "" || line[0] != '#' then 0 else 1 + Hashes(line[1..])
  }

  function Spaces(line: string): (n: nat)
    ensures n <= |line|
  {
    if line == "" || !IsSpace(line[0]) then 0 else 1 + Spaces(line[1..])
  }

  /** One to six hashes, a space, and something after it. */
  predicate IsHeading(line: string) {
    var n := Hashes(line); 1 <= n <= 6 && n + 1 < |line| && IsSpace(line[n])
  }

  predicate IsRule(line: string) {
    var s := Strip(line); |s| >= 3 && forall i :: 0 <= i < |s| ==> s[i] == '-'
  }

  predicate IsTableRow(line: string) {
    var s := Strip(line); s != "" && s[0] == '|' && s[|s| - 1] == '|'
  }

  predicate IsBullet(line: string) {
    var n := Spaces(line); n + 2 < |line| && (line[n] == '-' || line[n] == '*') && IsSpace(line[n + 1])
  }

  function KindOf(line: string): Kind {
    if StartsWith(Strip(line), "```") then Fence
    else if IsHeading(line) then Heading(Hashes(line))
    else if IsRule(line) then Rule
    else if IsTableRow(line) then TableRow
    else if IsBullet(line) then Bullet
    else if Strip(line) == "" then Blank
    else Prose
  }

  /** The text behind a marker and the blanks after it; of nothing but blanks, the last one. */
  function Behind(rest: string): string {
    var text := StripLeft(rest);
    if text != "" || rest == "" then text else rest[|rest| - 1..]
  }

  /** The cells between the bars of a table row. */
  function Cells(line: string): seq<string> {
    SplitBars(StripBars(Strip(line)), "")
  }

  function StripBars(s: string): (r: string)
    decreases |s|
  {
    if s != "" && s[0] == '|' then StripBars(s[1..])
    else if s != "" && s[|s| - 1] == '|' then StripBars(s[..|s| - 1])
    else s
  }

  function SplitBars(s: string, cell: string): (cells: seq<string>)
    ensures cells != []
    decreases |s|
  {
    if s == "" then [Strip(cell)]
    else if s[0] == '|' then [Strip(cell)] + SplitBars(s[1..], "")
    else SplitBars(s[1..], cell + [s[0]])
  }

  // ---- what is emitted ----

  datatype Piece = Open(tag: string) | Close(tag: string) | Void(tag: string) | Chars(lines: seq<string>)

  ghost function After(stack: Option<seq<string>>, p: Piece): Option<seq<string>> {
    if stack.None? then None
    else
      match p
      case Open(tag) => Some(stack.value + [tag])
      case Close(tag) => if stack.value != [] && stack.value[|stack.value| - 1] == tag
          then Some(stack.value[..|stack.value| - 1]) else None
      case Void(_) => stack
      case Chars(_) => stack
  }

  /** The tags left open after these pieces, or nothing if one is closed out of turn. */
  ghost function Nesting(stack: seq<string>, pieces: seq<Piece>): Option<seq<string>> {
    if pieces == [] then Some(stack) else After(Nesting(stack, pieces[..|pieces| - 1]), pieces[|pieces| - 1])
  }

  /** Something the reader sees: the lines of it, and the tags around it from the outside in. */
  datatype Passage = Passage(place: seq<string>, lines: seq<string>)

  ghost function Seen(at: Option<seq<string>>, p: Piece): seq<Passage> {
    if at.None? then []
    else
      match p
      case Open(_) => []
      case Close(_) => []
      case Void(tag) => [Passage(at.value + [tag], [])]
      case Chars(lines) => [Passage(at.value, lines)]
  }

  /** What is on the page, in order. */
  ghost function Page(stack: seq<string>, pieces: seq<Piece>): seq<Passage> {
    if pieces == [] then []
    else
      var init := pieces[..|pieces| - 1];
      Page(stack, init) + Seen(Nesting(stack, init), pieces[|pieces| - 1])
  }

  lemma {:induction false} NestingJoin(stack: seq<string>, a: seq<Piece>, b: seq<Piece>)
    requires Nesting(stack, a).Some?
    ensures Nesting(stack, a + b) == Nesting(Nesting(stack, a).value, b)
  {
    if b == [] {
      assert a + b == a;
    } else {
      var init := b[..|b| - 1];
      assert (a + b)[..|a + b| - 1] == a + init;
      NestingJoin(stack, a, init);
    }
  }

  lemma {:induction false} PageJoin(stack: seq<string>, a: seq<Piece>, b: seq<Piece>)
    requires Nesting(stack, a).Some?
    ensures Page(stack, a + b) == Page(stack, a) + Page(Nesting(stack, a).value, b)
  {
    var open := Nesting(stack, a).value;
    if b == [] {
      assert a + b == a;
    } else {
      var init, last := b[..|b| - 1], b[|b| - 1];
      assert (a + b)[..|a + b| - 1] == a + init;
      NestingJoin(stack, a, init);
      PageJoin(stack, a, init);
      Regroup(Page(stack, a), Page(open, init), Seen(Nesting(open, init), last));
    }
  }

  lemma Regroup(a: seq<Passage>, b: seq<Passage>, c: seq<Passage>)
    ensures (a + b) + c == a + (b + c)
  {
  }

  /** The same passages inside these tags. */
  function Under(stack: seq<string>, ps: seq<Passage>): (r: seq<Passage>)
    ensures |r| == |ps| && forall i :: 0 <= i < |ps| ==> r[i] == Passage(stack + ps[i].place, ps[i].lines)
  {
    seq(|ps|, i requires 0 <= i < |ps| => Passage(stack + ps[i].place, ps[i].lines))
  }

  lemma UnderJoin(stack: seq<string>, a: seq<Passage>, b: seq<Passage>)
    ensures Under(stack, a + b) == Under(stack, a) + Under(stack, b)
  {
  }

  lemma UnderUnder(stack: seq<string>, tag: string, ps: seq<Passage>)
    ensures Under(stack + [tag], ps) == Under(stack, Under([tag], ps))
  {
    forall i | 0 <= i < |ps|
      ensures (stack + [tag]) + ps[i].place == stack + ([tag] + ps[i].place)
    {
    }
  }

  lemma UnderNothing(ps: seq<Passage>)
    ensures Under([], ps) == ps
  {
    assert forall i :: 0 <= i < |ps| ==> [] + ps[i].place == ps[i].place;
  }

  /** One passage for each text, all of them in one kind of place. */
  function At(place: seq<string>, texts: seq<string>): (ps: seq<Passage>)
    ensures |ps| == |texts| && forall i :: 0 <= i < |texts| ==> ps[i] == Passage(place, [texts[i]])
  {
    seq(|texts|, i requires 0 <= i < |texts| => Passage(place, [texts[i]]))
  }

  lemma UnderAt(stack: seq<string>, place: seq<string>, texts: seq<string>)
    ensures Under(stack, At(place, texts)) == At(stack + place, texts)
  {
  }

  lemma AtJoin(place: seq<string>, a: seq<string>, b: seq<string>)
    ensures At(place, a + b) == At(place, a) + At(place, b)
  {
  }

  /** Pieces that open and close in order and show these passages, whatever is open around them. */
  ghost predicate Puts(pieces: seq<Piece>, ps: seq<Passage>) {
    forall stack: seq<string> :: Nesting(stack, pieces) == Some(stack) && Page(stack, pieces) == Under(stack, ps)
  }

  lemma PutsJoin(a: seq<Piece>, b: seq<Piece>, x: seq<Passage>, y: seq<Passage>)
    requires Puts(a, x) && Puts(b, y)
    ensures Puts(a + b, x + y)
  {
    forall stack: seq<string>
      ensures Nesting(stack, a + b) == Some(stack) && Page(stack, a + b) == Under(stack, x + y)
    {
      NestingJoin(stack, a, b);
      PageJoin(stack, a, b);
      UnderJoin(stack, x, y);
    }
  }

  lemma OnePiece(stack: seq<string>, p: Piece)
    ensures Nesting(stack, [p]) == After(Some(stack), p) && Page(stack, [p]) == Seen(Some(stack), p)
  {
    assert [p][..0] == [];
  }

  lemma PutsLines(lines: seq<string>)
    ensures Puts([Chars(lines)], [Passage([], lines)])
  {
    forall stack: seq<string>
      ensures Nesting(stack, [Chars(lines)]) == Some(stack)
      ensures Page(stack, [Chars(lines)]) == Under(stack, [Passage([], lines)])
    {
      OnePiece(stack, Chars(lines));
      assert stack + [] == stack;
    }
  }

  lemma PutsVoid(tag: string)
    ensures Puts([Void(tag)], [Passage([tag], [])])
  {
    forall stack: seq<string>
      ensures Nesting(stack, [Void(tag)]) == Some(stack)
      ensures Page(stack, [Void(tag)]) == Under(stack, [Passage([tag], [])])
    {
      OnePiece(stack, Void(tag));
    }
  }

  /** A block: its opening tag, what is inside, its closing tag. */
  function Block(tag: string, inner: seq<Piece>): seq<Piece> {
    [Open(tag)] + inner + [Close(tag)]
  }

  lemma BlockInside(stack: seq<string>, tag: string, inner: seq<Piece>, ps: seq<Passage>)
    requires Puts(inner, ps)
    ensures Nesting(stack, [Open(tag)] + inner) == Some(stack + [tag])
    ensures Page(stack, [Open(tag)] + inner) == Under(stack, Under([tag], ps))
  {
    OnePiece(stack, Open(tag));
    NestingJoin(stack, [Open(tag)], inner);
    PageJoin(stack, [Open(tag)], inner);
    UnderUnder(stack, tag, ps);
  }

  lemma PutsBlock(tag: string, inner: seq<Piece>, ps: seq<Passage>)
    requires Puts(inner, ps)
    ensures Puts(Block(tag, inner), Under([tag], ps))
  {
    forall stack: seq<string>
      ensures Nesting(stack, Block(tag, inner)) == Some(stack)
      ensures Page(stack, Block(tag, inner)) == Under(stack, Under([tag], ps))
    {
      BlockInside(stack, tag, inner, ps);
      OnePiece(stack + [tag], Close(tag));
      NestingJoin(stack, [Open(tag)] + inner, [Close(tag)]);
      PageJoin(stack, [Open(tag)] + inner, [Close(tag)]);
      assert (stack + [tag])[..|stack|] == stack;
    }
  }

  /** Lines in a block of their own. */
  lemma PutsLinesIn(tag: string, lines: seq<string>)
    ensures Puts(Block(tag, [Chars(lines)]), [Passage([tag], lines)])
  {
    PutsLines(lines);
    PutsBlock(tag, [Chars(lines)], [Passage([], lines)]);
    assert [tag] + [] == [tag];
    assert Under([tag], [Passage([], lines)]) == [Passage([tag], lines)];
  }

  // ---- tables ----

  /** A row of cells, each in its tag. */
  function RowPieces(cells: seq<string>, tag: string): seq<Piece> {
    if cells == [] then [] else RowPieces(cells[..|cells| - 1], tag) + Block(tag, [Chars([cells[|cells| - 1]])])
  }

  lemma PutsNothing(ps: seq<Passage>)
    requires ps == []
    ensures Puts([], ps)
  {
  }

  lemma {:induction false} RowPuts(cells: seq<string>, tag: string)
    ensures Puts(RowPieces(cells, tag), At([tag], cells))
  {
    if cells == [] {
      PutsNothing(At([tag], cells));
    } else {
      var init, last := cells[..|cells| - 1], cells[|cells| - 1];
      assert cells == init + [last];
      RowPuts(init, tag);
      PutsLinesIn(tag, [last]);
      PutsJoin(RowPieces(init, tag), Block(tag, [Chars([last])]), At([tag], init), [Passage([tag], [last])]);
      assert At([tag], cells) == At([tag], init) + [Passage([tag], [last])];
    }
  }

  /** A row of the table, in its own tag. */
  lemma TableRowPuts(cells: seq<string>, tag: string)
    ensures Puts(Block("tr", RowPieces(cells, tag)), At(["tr", tag], cells))
  {
    RowPuts(cells, tag);
    PutsBlock("tr", RowPieces(cells, tag), At([tag], cells));
    InTheRow(cells, "tr", tag);
  }

  lemma InTheRow(cells: seq<string>, outer: string, inner: string)
    ensures Under([outer], At([inner], cells)) == At([outer, inner], cells)
  {
    UnderAt([outer], [inner], cells);
    assert [outer] + [inner] == [outer, inner];
  }

  function BodyPieces(rows: seq<seq<string>>): seq<Piece> {
    if rows == [] then [] else BodyPieces(rows[..|rows| - 1]) + Block("tr", RowPieces(rows[|rows| - 1], "td"))
  }

  ghost function Flat(rows: seq<seq<string>>): seq<string> {
    if rows == [] then [] else Flat(rows[..|rows| - 1]) + rows[|rows| - 1]
  }

  lemma {:induction false} BodyPuts(rows: seq<seq<string>>)
    ensures Puts(BodyPieces(rows), At(["tr", "td"], Flat(rows)))
  {
    if rows == [] {
      PutsNothing(At(["tr", "td"], Flat(rows)));
    } else {
      var init, last := rows[..|rows| - 1], rows[|rows| - 1];
      BodyPuts(init);
      TableRowPuts(last, "td");
      PutsJoin(BodyPieces(init), Block("tr", RowPieces(last, "td")), At(["tr", "td"], Flat(init)),
               At(["tr", "td"], last));
      AtJoin(["tr", "td"], Flat(init), last);
    }
  }

  /** `flush_table`: the first row heads the table, the second is taken for the separator, the rest is the body. */
  function TablePieces(rows: seq<seq<string>>): seq<Piece>
    requires rows != []
  {
    var head := Block("thead", Block("tr", RowPieces(rows[0], "th")));
    var body := if |rows| > 2 then Block("tbody", BodyPieces(rows[2..])) else [];
    Block("table", head + body)
  }

  function HeadPlace(): seq<string> { ["table", "thead", "tr", "th"] }

  function BodyPlace(): seq<string> { ["table", "tbody", "tr", "td"] }

  /** What of a table reaches the page: all but the second row. */
  ghost function Shown(rows: seq<seq<string>>): seq<Passage> {
    if rows == [] then [] else At(HeadPlace(), rows[0]) + At(BodyPlace(), if |rows| > 2 then Flat(rows[2..]) else [])
  }

  lemma HeadPuts(cells: seq<string>)
    ensures Puts(Block("thead", Block("tr", RowPieces(cells, "th"))), At(["thead", "tr", "th"], cells))
  {
    TableRowPuts(cells, "th");
    PutsBlock("thead", Block("tr", RowPieces(cells, "th")), At(["tr", "th"], cells));
    UnderAt(["thead"], ["tr", "th"], cells);
    assert ["thead"] + ["tr", "th"] == ["thead", "tr", "th"];
  }

  lemma RestPuts(rows: seq<seq<string>>)
    ensures Puts(Block("tbody", BodyPieces(rows)), At(["tbody", "tr", "td"], Flat(rows)))
  {
    BodyPuts(rows);
    PutsBlock("tbody", BodyPieces(rows), At(["tr", "td"], Flat(rows)));
    UnderAt(["tbody"], ["tr", "td"], Flat(rows));
    assert ["tbody"] + ["tr", "td"] == ["tbody", "tr", "td"];
  }

  /** Heads and cells of a table, in the tags around them. */
  lemma InTheTable(heads: seq<string>, cells: seq<string>)
    ensures Under(["table"], At(["thead", "tr", "th"], heads) + At(["tbody", "tr", "td"], cells))
         == At(HeadPlace(), heads) + At(BodyPlace(), cells)
  {
    UnderJoin(["table"], At(["thead", "tr", "th"], heads), At(["tbody", "tr", "td"], cells));
    UnderAt(["table"], ["thead", "tr", "th"], heads);
    UnderAt(["table"], ["tbody", "tr", "td"], cells);
    assert ["table"] + ["thead", "tr", "th"] == HeadPlace() && ["table"] + ["tbody", "tr", "td"] == BodyPlace();
  }

  lemma TablePuts(rows: seq<seq<string>>)
    requires rows != []
    ensures Puts(TablePieces(rows), Shown(rows))
  {
    var head := Block("thead", Block("tr", RowPieces(rows[0], "th")));
    var body := if |rows| > 2 then Block("tbody", BodyPieces(rows[2..])) else [];
    var cells := if |rows| > 2 then Flat(rows[2..]) else [];
    HeadPuts(rows[0]);
    if |rows| > 2 { RestPuts(rows[2..]); } else { PutsNothing(At(["tbody", "tr", "td"], cells)); }
    PutsJoin(head, body, At(["thead", "tr", "th"], rows[0]), At(["tbody", "tr", "td"], cells));
    PutsBlock("table", head + body, At(["thead", "tr", "th"], rows[0]) + At(["tbody", "tr", "td"], cells));
    InTheTable(rows[0], cells);
  }

  /** Three rows of data, and the middle one never reaches the page. */
  lemma MiddleRowIsDropped()
    ensures Page([], TablePieces([["item", "state"], ["shop", "done"], ["store", "open"]])) ==
            At(HeadPlace(), ["item", "state"]) + At(BodyPlace(), ["store", "open"])
  {
    ThreeRows(["item", "state"], ["shop", "done"], ["store", "open"]);
  }

  lemma ThreeRows(heads: seq<string>, middle: seq<string>, last: seq<string>)
    ensures Page([], TablePieces([heads, middle, last])) == At(HeadPlace(), heads) + At(BodyPlace(), last)
  {
    var rows := [heads, middle, last];
    TablePuts(rows);
    assert rows[2..] == [last];
    FlatOfOne(last);
    assert Nesting([], TablePieces(rows)) == Some([]);
    UnderNothing(Shown(rows));
  }

  lemma FlatOfOne(row: seq<string>)
    ensures Flat([row]) == row
  {
    assert [row][..0] == [];
  }

  lemma ShownMore(rows: seq<seq<string>>, row: seq<string>)
    ensures Shown(rows + [row]) == Shown(rows) + RowShown(row, |rows|)
  {
    var more := rows + [row];
    if |rows| >= 2 {
      assert more[2..] == rows[2..] + [row];
      assert (rows[2..] + [row])[..|rows| - 2] == rows[2..];
      if |rows| == 2 { assert Flat(rows[2..]) == []; }
      AtJoin(BodyPlace(), Flat(rows[2..]), row);
    }
  }

  /** What a row adds after this many rows: heads, nothing, or cells of the body. */
  function RowShown(cells: seq<string>, rows: nat): seq<Passage> {
    if rows == 0 then At(HeadPlace(), cells) else if rows == 1 then [] else At(BodyPlace(), cells)
  }

  // ---- what should reach the page ----

  /** A paragraph is its lines without the blanks around them. */
  function AllStripped(para: seq<string>): seq<string> {
    if para == [] then [] else AllStripped(para[..|para| - 1]) + [Strip(para[|para| - 1])]
  }

  /** The lines that wait for the end of their paragraph. */
  function Paragraph(para: seq<string>): seq<Passage> {
    if para == [] then [] else [Passage(["p"], AllStripped(para))]
  }

  function HeadingTag(level: nat): string {
    "h" + Numeral(level)
  }

  lemma SixHeadings(tags: seq<string>, level: nat)
    requires tags == ["h1", "h2", "h3", "h4", "h5", "h6"] && 1 <= level <= 6
    ensures HeadingTag(level) == tags[level - 1]
  {
    var tag := HeadingTag(level);
    assert |tag| == 2 && tag[0] == 'h' && tag[1] == Digit(level);
  }

  /** What a line outside a code block shows of its own, after this many table rows. */
  function Own(line: string, rows: nat): seq<Passage> {
    match KindOf(line)
    case Fence => []
    case Heading(level) => [Passage([HeadingTag(level)], [Behind(line[level..])])]
    case Rule => [Passage(["hr"], [])]
    case TableRow => RowShown(Cells(line), rows)
    case Bullet => [Passage(["ul", "li"], [Behind(line[Spaces(line) + 1..])])]
    case Blank => []
    case Prose => []
  }

  predicate IsProse(line: string, inCode: bool) {
    !inCode && KindOf(line).Prose?
  }

  /** What a line brings to the page: the paragraph that it ends, and what it shows itself. */
  function Brings(line: string, inCode: bool, rows: nat, para: seq<string>): seq<Passage> {
    if IsProse(line, inCode) then []
    else
      Paragraph(para)
      + if inCode && !KindOf(line).Fence? then [Passage(["pre", "code"], [line])] else Own(line, rows)
  }

  function CodeAfter(line: string, inCode: bool): bool {
    if KindOf(line).Fence? then !inCode else inCode
  }

  function RowsAfter(line: string, inCode: bool, rows: nat): nat {
    if !inCode && KindOf(line).TableRow? then rows + 1 else 0
  }

  function ParaAfter(line: string, inCode: bool, para: seq<string>): seq<string> {
    if IsProse(line, inCode) then para + [line] else []
  }

  /**
   THE REFERENCE: line by line, with the three things it depends on: whether the line is inside a code block, how
   many table rows came directly before it, and which lines of a paragraph did. Fences and blank lines show nothing;
   the second row of a table is dropped whatever it says.
  */
  ghost function Wanted(lines: seq<string>, inCode: bool, rows: nat, para: seq<string>): seq<Passage> {
    if lines == [] then Paragraph(para)
    else
      var line := lines[0];
      Brings(line, inCode, rows, para)
      + Wanted(lines[1..], CodeAfter(line, inCode), RowsAfter(line, inCode, rows), ParaAfter(line, inCode, para))
  }

  lemma WantedStep(lines: seq<string>, i: nat, inCode: bool, rows: nat, para: seq<string>, taken: seq<Passage>)
    requires i < |lines|
    ensures var line := lines[i];
            taken + Wanted(lines[i..], inCode, rows, para) == (taken + Brings(line, inCode, rows, para))
                + Wanted(lines[i + 1..], CodeAfter(line, inCode), RowsAfter(line, inCode, rows),
                         ParaAfter(line, inCode, para))
  {
    var line := lines[i];
    assert lines[i..][0] == line && lines[i..][1..] == lines[i + 1..];
    Regroup(taken, Brings(line, inCode, rows, para), Wanted(lines[i + 1..], CodeAfter(line, inCode),
        RowsAfter(line, inCode, rows), ParaAfter(line, inCode, para)));
  }

  // ---- the renderer ----

  lemma TagsOpenAndClose()
    ensures ["ul"][..0] == [] && [] + ["ul"] == ["ul"]
  {
  }

  lemma TwoPieces(out: seq<Piece>, p: Piece, q: Piece)
    requires (p.Open? && q.Open?) || (p.Close? && q.Close?)
    ensures Nesting([], out + [p, q]) == After(After(Nesting([], out), p), q)
    ensures Page([], out + [p, q]) == Page([], out)
  {
    OneMorePiece(out, p);
    OneMorePiece(out + [p], q);
    assert out + [p, q] == (out + [p]) + [q];
  }

  lemma OneMorePiece(out: seq<Piece>, p: Piece)
    requires p.Open? || p.Close?
    ensures Nesting([], out + [p]) == After(Nesting([], out), p) && Page([], out + [p]) == Page([], out)
  {
    assert (out + [p])[..|out|] == out;
  }

  lemma CodeCloses(out: seq<Piece>)
    requires Nesting([], out) == Some(["pre", "code"])
    ensures Nesting([], out + [Close("code"), Close("pre")]) == Some([])
    ensures Page([], out + [Close("code"), Close("pre")]) == Page([], out)
  {
    TwoPieces(out, Close("code"), Close("pre"));
    assert ["pre", "code"][..1] == ["pre"] && ["pre"][..0] == [];
  }

  lemma CodeOpens(out: seq<Piece>)
    requires Nesting([], out) == Some([])
    ensures Nesting([], out + [Open("pre"), Open("code")]) == Some(["pre", "code"])
    ensures Page([], out + [Open("pre"), Open("code")]) == Page([], out)
  {
    TwoPieces(out, Open("pre"), Open("code"));
    assert [] + ["pre"] + ["code"] == ["pre", "code"];
  }

  lemma EmitKeeps(open: seq<string>, out: seq<Piece>, pieces: seq<Piece>, ps: seq<Passage>)
    requires Nesting([], out) == Some(open) && Puts(pieces, ps)
    ensures Nesting([], out + pieces) == Some(open) && Page([], out + pieces) == Page([], out) + Under(open, ps)
  {
    NestingJoin([], out, pieces);
    PageJoin([], out, pieces);
  }

  lemma RowTaken(page: seq<Passage>, rows: seq<seq<string>>, cells: seq<string>)
    ensures page + Shown(rows + [cells]) == (page + Shown(rows)) + RowShown(cells, |rows|)
  {
    ShownMore(rows, cells);
    Regroup(page, Shown(rows), RowShown(cells, |rows|));
  }

  lemma InTheList(text: string)
    ensures Under(["ul"], [Passage(["li"], [text])]) == [Passage(["ul", "li"], [text])]
  {
    assert ["ul"] + ["li"] == ["ul", "li"];
  }

  class Renderer {
    var inList: bool
    var inCode: bool
    var inTable: bool
    var rows: seq<seq<string>>
    var para: seq<string>
    var out: seq<Piece>

    /** The tags of the one block that may be open. */
    function OpenTags(): seq<string>
      reads this
    {
      if inCode then ["pre", "code"] else if inList then ["ul"] else []
    }

    /** At most one block is open, and the tags emitted so far leave open exactly that block's tags. */
    ghost predicate Valid()
      reads this
    {
      && (inTable <==> rows != [])
      && (inList ==> !inCode && !inTable && para == [])
      && (inCode ==> !inTable && para == [])
      && (inTable ==> para == [])
      && Nesting([], out) == Some(OpenTags())
    }

    /** What is on the page so far, the table that waits for its end included. */
    ghost function Taken(): seq<Passage>
      reads this
    {
      Page([], out) + Shown(rows)
    }

    ghost predicate Idle()
      reads this
    {
      !inList && !inTable && para == [] && rows == []
    }

    constructor ()
      ensures Valid() && Idle() && !inCode && Taken() == []
    {
      inList, inCode, inTable, rows, para, out := false, false, false, [], [], [];
    }

    method Emit(pieces: seq<Piece>, ghost ps: seq<Passage>)
      requires Valid() && rows == [] && Puts(pieces, ps)
      modifies this`out
      ensures Valid() && Taken() == old(Taken()) + Under(OpenTags(), ps)
    {
      EmitKeeps(OpenTags(), out, pieces, ps);
      assert Taken() == Page([], out);
      out := out + pieces;
      assert Taken() == Page([], out);
    }

    method EmitAlone(pieces: seq<Piece>, ghost ps: seq<Passage>)
      requires Valid() && rows == [] && OpenTags() == [] && Puts(pieces, ps)
      modifies this`out
      ensures Valid() && Taken() == old(Taken()) + ps
    {
      UnderNothing(ps);
      Emit(pieces, ps);
    }

    method EmitTag(p: Piece)
      requires p.Open? || p.Close?
      modifies this`out
      ensures out == old(out) + [p]
      ensures Nesting([], out) == After(old(Nesting([], out)), p) && Page([], out) == old(Page([], out))
    {
      out := out + [p];
    }

    method FlushPara()
      requires Valid()
      modifies this`para, this`out
      ensures Valid() && para == [] && Taken() == old(Taken()) + Paragraph(old(para))
    {
      if para != [] {
        var waiting := AllStripped(para);
        PutsLinesIn("p", waiting);
        para := [];
        EmitAlone(Block("p", [Chars(waiting)]), [Passage(["p"], waiting)]);
      }
    }

    method FlushTable()
      requires Valid()
      modifies this`rows, this`inTable, this`out
      ensures Valid() && !inTable && rows == [] && Taken() == old(Taken())
    {
      if rows != [] {
        var waiting := rows;
        TablePuts(waiting);
        rows, inTable := [], false;
        assert Taken() == Page([], out);
        EmitAlone(TablePieces(waiting), Shown(waiting));
      } else {
        inTable := false;
      }
    }

    method CloseList()
      requires Valid()
      modifies this`inList, this`out
      ensures Valid() && !inList && Taken() == old(Taken())
    {
      TagsOpenAndClose();
      if inList {
        EmitTag(Close("ul"));
        inList := false;
      }
    }

    /** The three flushes in front of a block that stands alone. */
    method FlushAll()
      requires Valid()
      modifies this`para, this`rows, this`inTable, this`inList, this`out
      ensures Valid() && Idle() && Taken() == old(Taken()) + Paragraph(old(para))
    {
      FlushPara();
      CloseList();
      if inTable { FlushTable(); }
    }

    method ToggleCode()
      requires Valid() && Idle()
      modifies this`inCode, this`out
      ensures Valid() && Idle() && inCode == !old(inCode) && Taken() == old(Taken())
    {
      if inCode {
        LeaveCode();
      } else {
        EnterCode();
      }
    }

    method LeaveCode()
      requires Valid() && Idle() && inCode
      modifies this`inCode, this`out
      ensures Valid() && Idle() && !inCode && Taken() == old(Taken())
    {
      CodeCloses(out);
      out, inCode := out + [Close("code"), Close("pre")], false;
    }

    method EnterCode()
      requires Valid() && Idle() && !inCode
      modifies this`inCode, this`out
      ensures Valid() && Idle() && inCode && Taken() == old(Taken())
    {
      CodeOpens(out);
      out, inCode := out + [Open("pre"), Open("code")], true;
    }

    method OpenList()
      requires Valid() && !inCode && !inTable && para == []
      modifies this`inList, this`out
      ensures Valid() && inList && Taken() == old(Taken())
    {
      TagsOpenAndClose();
      if !inList {
        EmitTag(Open("ul"));
        inList := true;
      }
    }

    method TakeHeading(level: nat, text: string)
      requires Valid() && !inCode
      modifies this`para, this`rows, this`inTable, this`inList, this`out
      ensures Valid() && Idle()
      ensures Taken() == old(Taken()) + (Paragraph(old(para)) + [Passage([HeadingTag(level)], [text])])
    {
      FlushAll();
      Regroup(old(Taken()), Paragraph(old(para)), [Passage([HeadingTag(level)], [text])]);
      PutsLinesIn(HeadingTag(level), [text]);
      EmitAlone(Block(HeadingTag(level), [Chars([text])]), [Passage([HeadingTag(level)], [text])]);
    }

    method TakeRule()
      requires Valid() && !inCode
      modifies this`para, this`rows, this`inTable, this`inList, this`out
      ensures Valid() && Idle() && Taken() == old(Taken()) + (Paragraph(old(para)) + [Passage(["hr"], [])])
    {
      FlushAll();
      Regroup(old(Taken()), Paragraph(old(para)), [Passage(["hr"], [])]);
      PutsVoid("hr");
      EmitAlone([Void("hr")], [Passage(["hr"], [])]);
    }

    method TakeRow(cells: seq<string>)
      requires Valid() && !inCode
      modifies this`para, this`rows, this`inTable, this`inList, this`out
      ensures Valid() && !inList && para == [] && |rows| == old(|rows|) + 1
      ensures Taken() == old(Taken()) + (Paragraph(old(para)) + RowShown(cells, old(|rows|)))
    {
      FlushPara();
      CloseList();
      Regroup(old(Taken()), Paragraph(old(para)), RowShown(cells, |rows|));
      AddRow(cells);
    }

    method AddRow(cells: seq<string>)
      requires Valid() && !inCode && !inList && para == []
      modifies this`rows, this`inTable
      ensures Valid() && |rows| == old(|rows|) + 1
      ensures Taken() == old(Taken()) + RowShown(cells, old(|rows|))
    {
      RowTaken(Page([], out), rows, cells);
      inTable, rows := true, rows + [cells];
    }

    method TakeBullet(text: string)
      requires Valid() && !inCode
      modifies this`para, this`rows, this`inTable, this`inList, this`out
      ensures Valid() && inList && rows == []
      ensures Taken() == old(Taken()) + (Paragraph(old(para)) + [Passage(["ul", "li"], [text])])
    {
      if inTable { FlushTable(); }
      FlushPara();
      OpenList();
      Regroup(old(Taken()), Paragraph(old(para)), [Passage(["ul", "li"], [text])]);
      AddBullet(text);
    }

    method AddBullet(text: string)
      requires Valid() && inList && rows == []
      modifies this`out
      ensures Valid() && Taken() == old(Taken()) + [Passage(["ul", "li"], [text])]
    {
      PutsLinesIn("li", [text]);
      InTheList(text);
      Emit(Block("li", [Chars([text])]), [Passage(["li"], [text])]);
    }

    method TakeBlank()
      requires Valid() && !inCode
      modifies this`para, this`rows, this`inTable, this`inList, this`out
      ensures Valid() && Idle() && Taken() == old(Taken()) + Paragraph(old(para))
    {
      if inTable { FlushTable(); }
      CloseList();
      FlushPara();
    }

    method TakeProse(line: string)
      requires Valid() && !inCode
      modifies this`para, this`rows, this`inTable, this`inList, this`out
      ensures Valid() && !inList && rows == [] && para == old(para) + [line] && Taken() == old(Taken())
    {
      if inTable { FlushTable(); }
      CloseList();
      para := para + [line];
    }

    /** One line of the source, outside a code block. */
    method Take(line: string)
      requires Valid() && !inCode && !KindOf(line).Fence?
      modifies this`para, this`rows, this`inTable, this`inList, this`out
      ensures Valid() && (inList <==> KindOf(line).Bullet?)
      ensures |rows| == RowsAfter(line, false, old(|rows|)) && para == ParaAfter(line, false, old(para))
      ensures Taken() == old(Taken()) + Brings(line, false, old(|rows|), old(para))
    {
      if KindOf(line).Blank? {
        TakeBlank();
        assert Paragraph(old(para)) + [] == Paragraph(old(para));
      } else if KindOf(line).Prose? {
        TakeProse(line);
      } else {
        TakeBlock(line);
      }
    }

    method TakeBlock(line: string)
      requires Valid() && !inCode && !KindOf(line).Fence? && !KindOf(line).Blank? && !KindOf(line).Prose?
      modifies this`para, this`rows, this`inTable, this`inList, this`out
      ensures Valid() && (inList <==> KindOf(line).Bullet?)
      ensures |rows| == RowsAfter(line, false, old(|rows|)) && para == []
      ensures Taken() == old(Taken()) + (Paragraph(old(para)) + Own(line, old(|rows|)))
    {
      match KindOf(line) {
        case Heading(level) => TakeHeading(level, Behind(line[level..]));
        case Rule => TakeRule();
        case TableRow => TakeRow(Cells(line));
        case Bullet => TakeBullet(Behind(line[Spaces(line) + 1..]));
      }
    }

    /** The end of the source closes whatever is open. */
    method Finish()
      requires Valid()
      modifies this
      ensures Nesting([], out) == Some([]) && Page([], out) == old(Taken()) + Paragraph(old(para))
    {
      FlushAll();
      if inCode { ToggleCode(); }
    }

    method TakeCode(line: string)
      requires Valid() && inCode
      modifies this`out
      ensures Valid() && Taken() == old(Taken()) + [Passage(["pre", "code"], [line])]
    {
      PutsLines([line]);
      assert ["pre", "code"] + [] == ["pre", "code"];
      Emit([Chars([line])], [Passage([], [line])]);
    }

    /** One line of any kind. */
    method Line(line: string)
      requires Valid()
      modifies this
      ensures Valid() && inCode == CodeAfter(line, old(inCode)) && (inList <==> !inCode && KindOf(line).Bullet?)
      ensures |rows| == RowsAfter(line, old(inCode), old(|rows|)) && para == ParaAfter(line, old(inCode), old(para))
      ensures Taken() == old(Taken()) + Brings(line, old(inCode), old(|rows|), old(para))
    {
      if KindOf(line).Fence? {
        FlushAll();
        ToggleCode();
        assert Paragraph(old(para)) + [] == Paragraph(old(para));
      } else if inCode {
        TakeCode(line);
        assert [] + [Passage(["pre", "code"], [line])] == [Passage(["pre", "code"], [line])];
      } else {
        Take(line);
      }
    }
  }

  /**
   The renderer: for every input the tags are balanced at the end, at most one block is ever open, and exactly
   the wanted passages are on the page, in order and each inside its tags.
  */
  method Render(lines: seq<string>) returns (out: seq<Piece>)
    ensures Nesting([], out) == Some([])
    ensures Page([], out) == Wanted(lines, false, 0, [])
  {
    var r := new Renderer();
    for i := 0 to |lines|
      invariant r.Valid() && fresh(r)
      invariant r.Taken() + Wanted(lines[i..], r.inCode, |r.rows|, r.para) == Wanted(lines, false, 0, [])
    {
      WantedStep(lines, i, r.inCode, |r.rows|, r.para, r.Taken());
      r.Line(lines[i]);
    }
    assert Wanted(lines[|lines|..], r.inCode, |r.rows|, r.para) == Paragraph(r.para);
    r.Finish();
    out := r.out;
  }
}
