/**
 The classifier of `git push --porcelain` output: which status flag, if any, a push reports for
 exactly one ref, and what that flag means for a claim.
*/
module Porcelain {
  import opened Common
  import opened Text

  /** `line.split("\t")` */
  function SplitTabs(line: string): (parts: seq<string>)
    ensures |parts| >= 1
    ensures |parts| >= 2 <==> '\t' in line
  {
    if line == [] then [[]]
    else
      var rest := SplitTabs(line[1..]);
      if line[0] == '\t' then [[]] + rest else [[line[0]] + rest[0]] + rest[1..]
  }

  /** `s.rsplit(":", 1)[-1]` */
  function AfterLastColon(s: string): (r: string)
    ensures ':' !in r
  {
    if s == [] then []
    else if ':' in s[1..] then AfterLastColon(s[1..])
    else if s[0] == ':' then s[1..]
    else s
  }

  /** `line.rstrip("\r")` */
  function DropCarriageReturns(line: string): string {
    if line != [] && line[|line| - 1] == '\r' then DropCarriageReturns(line[..|line| - 1]) else line
  }

  predicate NamesRef(line: string, ref: string) {
    var text := DropCarriageReturns(line);
    '\t' in text && Strip(AfterLastColon(SplitTabs(text)[1])) == ref
  }

  function FlagField(line: string): string
  {
    var flag := Strip(SplitTabs(DropCarriageReturns(line))[0]);
    if flag == "" then " " else flag
  }

  /** The flag of the first line that names `ref`, or None when no line does. */
  function RefFlag(stdout: seq<string>, ref: string): Option<string> {
    if stdout == [] then None
    else if NamesRef(stdout[0], ref) then Some(FlagField(stdout[0]))
    else RefFlag(stdout[1..], ref)
  }

  datatype Verdict = Won | Rejected | Transient | Indeterminate

  function ClassifyPush(rc: Option<int>, stdout: seq<string>, ref: string): Verdict {
    match RefFlag(stdout, ref)
    case None => if rc != Some(0) then Transient else Indeterminate
    case Some(flag) =>
      if flag == "*" then Won
      else if flag == "!" || flag == "=" then Rejected
      else Indeterminate
  }

  // ---- what a server prints ----

  /** One porcelain status line: flag, `src:dst`, summary. */
  datatype Status = Status(flag: char, src: string, dst: string, summary: string) {
    ghost predicate Printable() {
      && (flag == ' ' || !IsSpace(flag))
      && '\t' !in src && '\t' !in dst && ':' !in dst && Trimmed(dst)
      && (summary == "" || summary[|summary| - 1] != '\r')
    }

    function Line(): string {
      [flag] + "\t" + src + ":" + dst + "\t" + summary
    }
  }

  function Lines(statuses: seq<Status>): seq<string> {
    if statuses == [] then [] else [statuses[0].Line()] + Lines(statuses[1..])
  }

  ghost predicate AllPrintable(statuses: seq<Status>) {
    statuses == [] || (statuses[0].Printable() && AllPrintable(statuses[1..]))
  }

  /** What the server said about exactly `ref`: the flag of the first status with that destination. */
  function Said(statuses: seq<Status>, ref: string): Option<char> {
    if statuses == [] then None
    else if statuses[0].dst == ref then Some(statuses[0].flag)
    else Said(statuses[1..], ref)
  }

  lemma {:induction false} SplitAtTab(field: string, rest: string)
    requires '\t' !in field
    ensures SplitTabs(field + "\t" + rest) == [field] + SplitTabs(rest)
  {
    var line := field + "\t" + rest;
    if field == "" {
      assert line[1..] == rest;
    } else {
      assert line[1..] == field[1..] + "\t" + rest;
      assert line[0] == field[0] != '\t';
      SplitAtTab(field[1..], rest);
      assert [line[0]] + field[1..] == field;
    }
  }

  lemma {:induction false} ColonSplit(src: string, dst: string)
    requires ':' !in dst
    ensures AfterLastColon(src + ":" + dst) == dst
  {
    var s := src + ":" + dst;
    if src == "" {
      assert s[1..] == dst;
    } else {
      assert s[1..] == src[1..] + ":" + dst;
      assert s[1..][|src| - 1] == ':';
      ColonSplit(src[1..], dst);
    }
  }

  /** A printed line splits back into the fields it was printed from. */
  lemma LineParts(st: Status)
    requires st.Printable()
    ensures DropCarriageReturns(st.Line()) == st.Line()
    ensures SplitTabs(st.Line())[0] == [st.flag]
    ensures |SplitTabs(st.Line())| >= 2 && SplitTabs(st.Line())[1] == st.src + ":" + st.dst
  {
    var middle := st.src + ":" + st.dst;
    var line := [st.flag] + "\t" + (middle + "\t" + st.summary);
    assert st.Line() == line;
    SplitAtTab([st.flag], middle + "\t" + st.summary);
    SplitAtTab(middle, st.summary);
    assert line[|line| - 1] == if st.summary == "" then '\t' else st.summary[|st.summary| - 1];
  }

  /** A printed status line names exactly its own destination: no ref is matched by a prefix of it. */
  lemma LineNamesOnlyItsRef(st: Status, ref: string)
    requires st.Printable()
    ensures NamesRef(st.Line(), ref) <==> st.dst == ref
    ensures FlagField(st.Line()) == [st.flag]
  {
    LineParts(st);
    ColonSplit(st.src, st.dst);
    StripKeepsTheTrimmed([st.flag]);
    StripKeepsTheTrimmed(st.dst);
  }

  /** Carriage returns at the end of a line change nothing. */
  lemma {:induction false} LineEndsDoNotMatter(line: string, ends: string, ref: string)
    requires forall i :: 0 <= i < |ends| ==> ends[i] == '\r'
    ensures NamesRef(line + ends, ref) == NamesRef(line, ref) && FlagField(line + ends) == FlagField(line)
  {
    if ends == "" {
      assert line + ends == line;
    } else {
      var init, more := ends[..|ends| - 1], line + ends;
      assert more[..|more| - 1] == line + init;
      LineEndsDoNotMatter(line, init, ref);
    }
  }

  /** A line without a tab names nothing, and a destination that is printed alone is the whole field. */
  lemma NoOtherLineNames(line: string, ref: string)
    ensures NamesRef(line, ref) ==> '\t' in line
    ensures ':' !in line ==> AfterLastColon(line) == line
  {
    DroppedFromTheEnd(line);
    if ':' !in line { WholeWithoutColon(line); }
  }

  lemma {:induction false} DroppedFromTheEnd(line: string)
    ensures DropCarriageReturns(line) <= line
  {
    if line != [] && line[|line| - 1] == '\r' { DroppedFromTheEnd(line[..|line| - 1]); }
  }

  lemma WholeWithoutColon(s: string)
    requires ':' !in s
    ensures AfterLastColon(s) == s
  {
  }

  /** Parsing the printed lines recovers what the server said about exactly `ref`, and nothing else. */
  lemma {:induction false} FlagIsWhatTheServerSaid(statuses: seq<Status>, ref: string)
    requires AllPrintable(statuses)
    ensures RefFlag(Lines(statuses), ref)
         == match Said(statuses, ref) { case None => None case Some(flag) => Some([flag]) }
  {
    if statuses != [] {
      LineNamesOnlyItsRef(statuses[0], ref);
      FlagIsWhatTheServerSaid(statuses[1..], ref);
      assert Lines(statuses)[0] == statuses[0].Line() && Lines(statuses)[1..] == Lines(statuses[1..]);
    }
  }

  /**
   A push is a win exactly when the server printed `*` for this very ref; `!` and `=` send the
   claimant to the read-back; a completed push that says nothing about the ref is never a win.
  */
  lemma ClassifierTable(rc: Option<int>, statuses: seq<Status>, ref: string)
    requires AllPrintable(statuses)
    ensures var said := Said(statuses, ref);
            var verdict := ClassifyPush(rc, Lines(statuses), ref);
            && (verdict == Won <==> said == Some('*'))
            && (verdict == Rejected <==> said == Some('!') || said == Some('='))
            && (verdict == Transient <==> said == None && rc != Some(0))
  {
    FlagIsWhatTheServerSaid(statuses, ref);
    var said := Said(statuses, ref);
    if said.Some? {
      assert [said.value][0] == said.value && "*"[0] == '*' && "!"[0] == '!' && "="[0] == '=';
    }
  }
}
