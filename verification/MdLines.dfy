/**
 What a line of Markdown is and says, in terms of its characters alone: which block it belongs to, and what
 text it puts on the page.
*/
module MdLines {
  import opened Common
  import opened Text
  import opened MdToHtml

  // ---- which block a line belongs to ----

  /** The line as its text and the blanks on both sides. */
  ghost predicate Around(line: string, a: string, core: string, b: string) {
    line == a + core + b && Blanks(a) && Blanks(b) && Trimmed(core)
  }

  /** Every line is some text with blanks around it, so that the laws below speak of every line. */
  lemma EveryLineIsAround(line: string) returns (a: string, core: string, b: string)
    ensures Around(line, a, core, b)
  {
    a, b := StripTakesOnlyBlanks(line);
    core := Strip(line);
  }

  ghost predicate Ticks(core: string) {
    |core| >= 3 && core[0] == core[1] == core[2] == '`'
  }

  ghost predicate AllDashes(core: string) {
    |core| >= 3 && forall i :: 0 <= i < |core| ==> core[i] == '-'
  }

  ghost predicate Barred(core: string) {
    core != "" && core[0] == '|' && core[|core| - 1] == '|'
  }

  /** A dash or a star, a blank, and something more. */
  ghost predicate Dotted(core: string, b: string) {
    core != "" && (core[0] == '-' || core[0] == '*') && |core + b| > 2 && IsSpace((core + b)[1])
  }

  ghost predicate Hashed(line: string, level: nat) {
    && 1 <= level <= 6 && level + 1 < |line| && IsSpace(line[level])
    && forall i :: 0 <= i < level ==> line[i] == '#'
  }

  lemma {:induction false} HashesExactly(line: string, n: nat)
    requires n < |line| && line[n] != '#' && forall i :: 0 <= i < n ==> line[i] == '#'
    ensures Hashes(line) == n
  {
    if n > 0 { HashesExactly(line[1..], n - 1); }
  }

  lemma {:induction false} HashesAre(line: string)
    ensures forall i :: 0 <= i < Hashes(line) ==> line[i] == '#'
  {
    if line != "" && line[0] == '#' {
      HashesAre(line[1..]);
      forall i | 0 <= i < Hashes(line)
        ensures line[i] == '#'
      {
        assert i > 0 ==> line[i] == line[1..][i - 1];
      }
    }
  }

  lemma HeadingExactly(line: string, level: nat)
    ensures IsHeading(line) && Hashes(line) == level <==> Hashed(line, level)
  {
    HashesAre(line);
    if Hashed(line, level) { HashesExactly(line, level); }
  }

  lemma {:induction false} SpacesExactly(a: string, rest: string)
    requires Blanks(a) && rest != "" && !IsSpace(rest[0])
    ensures Spaces(a + rest) == |a|
  {
    if a == "" {
      assert a + rest == rest;
    } else {
      assert (a + rest)[1..] == a[1..] + rest;
      SpacesExactly(a[1..], rest);
    }
  }

  lemma {:induction false} SpacesOfBlank(line: string)
    requires Blanks(line)
    ensures Spaces(line) == |line|
  {
    if line != "" { SpacesOfBlank(line[1..]); }
  }

  lemma BulletExactly(line: string, a: string, core: string, b: string)
    requires Around(line, a, core, b)
    ensures IsBullet(line) <==> Dotted(core, b)
  {
    if core == "" {
      SpacesOfBlank(line);
    } else {
      var rest := core + b;
      assert line == a + rest;
      SpacesExactly(a, rest);
      assert line[|a|] == core[0];
      assert |rest| > 1 ==> line[|a| + 1] == rest[1];
    }
  }

  lemma FenceExactly(core: string, ticks: string)
    requires ticks == "```"
    ensures StartsWith(core, ticks) <==> Ticks(core)
  {
    if Ticks(core) { assert core[..3] == ticks; }
  }

  lemma FirstOfCore(line: string, a: string, core: string, b: string)
    requires Around(line, a, core, b) && line != "" && !IsSpace(line[0])
    ensures core != "" && core[0] == line[0]
  {
    assert forall i :: 0 <= i < |a| ==> line[i] == a[i];
    assert line == core + b;
    assert forall i :: 0 <= i < |core| ==> line[i] == core[i];
  }

  /** No line is of two kinds, so the order in which the kinds are tried does not matter. */
  lemma KindsAreExclusive(line: string, a: string, core: string, b: string, level: nat)
    requires Around(line, a, core, b)
    ensures Hashed(line, level) ==> core != "" && core[0] == '#'
    ensures !(AllDashes(core) && Dotted(core, b))
  {
    if Hashed(line, level) {
      assert line[0] == '#';
      FirstOfCore(line, a, core, b);
    }
    if AllDashes(core) {
      assert (core + b)[1] == core[1];
    }
  }

  /** EVERY KIND EXACTLY, by the text between the blanks; a line of none of these is prose. */
  lemma KindsExactly(line: string, a: string, core: string, b: string)
    requires Around(line, a, core, b)
    ensures KindOf(line).Fence? <==> Ticks(core)
    ensures KindOf(line).Rule? <==> AllDashes(core)
    ensures KindOf(line).TableRow? <==> Barred(core)
    ensures KindOf(line).Bullet? <==> Dotted(core, b)
    ensures KindOf(line).Blank? <==> core == ""
    ensures forall level: nat :: KindOf(line) == Heading(level) <==> Hashed(line, level)
  {
    StripIs(line, a, core, b);
    FenceExactly(core, "```");
    BulletExactly(line, a, core, b);
    KindsAreExclusive(line, a, core, b, Hashes(line));
    HeadingExactly(line, Hashes(line));
    forall level: nat
      ensures KindOf(line) == Heading(level) <==> Hashed(line, level)
    {
      HeadingExactly(line, level);
      KindsAreExclusive(line, a, core, b, level);
    }
  }

  // ---- what a line says ----

  /** Behind a marker comes the text without the blanks before it; where nothing else follows, one blank stays. */
  lemma BehindExactly(blanks: string, text: string)
    requires Blanks(blanks)
    ensures text != "" && !IsSpace(text[0]) ==> Behind(blanks + text) == text
    ensures blanks != "" ==> Behind(blanks) == [blanks[|blanks| - 1]]
  {
    if text != "" && !IsSpace(text[0]) { LeftIs(blanks, text); }
    NothingButBlanks(blanks);
  }

  /** The cells with a bar between any two of them. */
  function Joined(cells: seq<string>): string
    requires cells != []
  {
    if |cells| == 1 then cells[0] else cells[0] + "|" + Joined(cells[1..])
  }

  ghost predicate NoBars(cells: seq<string>) {
    forall i :: 0 <= i < |cells| ==> '|' !in cells[i]
  }

  function Trim(cells: seq<string>): (r: seq<string>)
    ensures |r| == |cells|
  {
    seq(|cells|, i requires 0 <= i < |cells| => Strip(cells[i]))
  }

  lemma {:induction false} SplitOne(cell: string, taken: string)
    requires '|' !in cell
    ensures SplitBars(cell, taken) == [Strip(taken + cell)]
  {
    if cell == "" {
      assert taken + cell == taken;
    } else {
      assert cell[1..] + "" == cell[1..] && taken + [cell[0]] + cell[1..] == taken + cell;
      SplitOne(cell[1..], taken + [cell[0]]);
    }
  }

  lemma {:induction false} SplitFirst(cell: string, rest: string, taken: string)
    requires '|' !in cell
    ensures SplitBars(cell + "|" + rest, taken) == [Strip(taken + cell)] + SplitBars(rest, "")
  {
    var s := cell + "|" + rest;
    if cell == "" {
      assert s[1..] == rest && taken + cell == taken;
    } else {
      assert s[0] == cell[0] && s[1..] == cell[1..] + "|" + rest;
      assert taken + [cell[0]] + cell[1..] == taken + cell;
      SplitFirst(cell[1..], rest, taken + [cell[0]]);
    }
  }

  lemma {:induction false} SplitJoined(cells: seq<string>)
    requires cells != [] && NoBars(cells)
    ensures SplitBars(Joined(cells), "") == Trim(cells)
  {
    if |cells| == 1 {
      SplitOne(cells[0], "");
      assert "" + cells[0] == cells[0];
    } else {
      SplitFirst(cells[0], Joined(cells[1..]), "");
      assert "" + cells[0] == cells[0];
      SplitJoined(cells[1..]);
      assert Trim(cells) == [Strip(cells[0])] + Trim(cells[1..]);
    }
  }

  /** A row that is written with a bar in front and one at the end. */
  function RowLine(cells: seq<string>): string
    requires cells != []
  {
    "|" + Joined(cells) + "|"
  }

  lemma {:induction false} JoinedEnds(cells: seq<string>)
    requires cells != [] && NoBars(cells)
    ensures Joined(cells) != "" && Joined(cells)[0] != '|' <==> cells[0] != ""
    ensures Joined(cells) != "" && Joined(cells)[|Joined(cells)| - 1] != '|' <==> cells[|cells| - 1] != ""
  {
    if |cells| > 1 {
      JoinedEnds(cells[1..]);
      var rest := Joined(cells[1..]);
      assert Joined(cells) == cells[0] + "|" + rest;
      if rest == "" { assert Joined(cells)[|cells[0]|] == '|'; }
    }
  }

  function Bars(s: string): nat {
    if s == "" then 0 else (if s[0] == '|' then 1 else 0) + Bars(s[1..])
  }

  lemma {:induction false} BarsJoin(a: string, b: string)
    ensures Bars(a + b) == Bars(a) + Bars(b)
  {
    if a == "" {
      assert a + b == b;
    } else {
      assert (a + b)[1..] == a[1..] + b;
      BarsJoin(a[1..], b);
    }
  }

  lemma {:induction false} SplitCounts(s: string, taken: string)
    ensures |SplitBars(s, taken)| == Bars(s) + 1
  {
    if s != "" {
      if s[0] == '|' { SplitCounts(s[1..], ""); } else { SplitCounts(s[1..], taken + [s[0]]); }
    }
  }

  lemma {:induction false} FewerBars(s: string)
    ensures Bars(StripBars(s)) <= Bars(s)
    ensures s != "" && (s[0] == '|' || s[|s| - 1] == '|') ==> Bars(StripBars(s)) < Bars(s)
    decreases |s|
  {
    if s != "" && s[0] == '|' {
      FewerBars(s[1..]);
    } else if s != "" && s[|s| - 1] == '|' {
      assert s == s[..|s| - 1] + "|";
      BarsJoin(s[..|s| - 1], "|");
      FewerBars(s[..|s| - 1]);
    }
  }

  lemma {:induction false} BarAtTheEnd(inner: string)
    ensures StripBars(inner + "|") == StripBars(inner)
  {
    var tail := inner + "|";
    if inner == "" {
      assert tail[1..] == "";
    } else if inner[0] == '|' {
      assert tail[1..] == inner[1..] + "|";
      BarAtTheEnd(inner[1..]);
    } else {
      assert tail[0] == inner[0] && tail[..|tail| - 1] == inner;
    }
  }

  lemma OuterBarsGo(inner: string)
    ensures StripBars("|" + inner + "|") == StripBars(inner)
  {
    assert ("|" + inner + "|")[1..] == inner + "|";
    BarAtTheEnd(inner);
  }

  /**
   THE CELLS COME BACK: a row of cells that contain no bar reads as those cells, stripped, exactly when it is the
   one empty cell or neither its first nor its last cell is empty; an empty cell at an edge is lost.
  */
  lemma CellsComeBackExactly(cells: seq<string>)
    requires cells != [] && NoBars(cells)
    ensures Cells(RowLine(cells)) == Trim(cells) <==> cells == [""] || (cells[0] != "" && cells[|cells| - 1] != "")
  {
    var inner := Joined(cells);
    RowIsTrimmed(cells);
    JoinedEnds(cells);
    SplitJoined(cells);
    OuterBarsGo(inner);
    SplitCounts(inner, "");
    SplitCounts(StripBars(inner), "");
    FewerBars(inner);
    if |cells| > 1 { JoinedIsLong(cells); }
  }

  lemma JoinedIsLong(cells: seq<string>)
    requires |cells| > 1
    ensures Joined(cells) != ""
  {
    assert Joined(cells)[|cells[0]|] == '|';
  }

  lemma RowIsTrimmed(cells: seq<string>)
    requires cells != []
    ensures Strip(RowLine(cells)) == RowLine(cells)
  {
    StripKeepsTheTrimmed(RowLine(cells));
  }
}
