/**
 Test-first plans in a mission brief: the gate that wants a row for every acceptance criterion, and the
 scaffolder that writes the missing rows. The scaffolder uses the gate's own labels, but not the gate's own
 idea of a valid row; what it guarantees is therefore conditional, and the condition is exact.
*/
module BriefVariants {
  import opened Seqs
  import opened Text

  /** A plan entry: an object with these cells, or something that is no object. */
  datatype Row = Row(ac: string, status: string, testPath: string, testFunction: string) | NotAnObject

  /** A declared criterion: an object with an id and a fallback label, or a bare value. */
  datatype Criterion = Named(id: string, ac: string) | Bare(text: string)

  // ---- cells and labels ----

  predicate Empty(cell: string) {
    Lower(Strip(cell)) in {"", "\U{2014}", "-", "n/a", "none", "(none)"}
  }

  function StripDashes(s: string): string {
    if s != "" && (s[0] == '-' || s[0] == '_') then StripDashes(s[1..]) else s
  }

  /** `_normalize_ac_label`: "AC#1", "ac 1", "AC-1" and "1" are one label. */
  function Label(raw: string): string {
    var s := Without(Without(Lower(Strip(raw)), '#'), ' ');
    if |s| >= 2 && s[..2] == "ac" then StripDashes(s[2..]) else s
  }

  function UpperChar(c: char): char {
    if 'a' <= c <= 'z' then (c as int - 32) as char else c
  }

  function Upper(s: string): string {
    seq(|s|, i requires 0 <= i < |s| => UpperChar(s[i]))
  }

  /** The gate accepts this row: it is an object, names a criterion, and has a known status. */
  predicate ValidRow(r: Row) {
    r.Row? && !Empty(r.ac) && KnownStatus(Upper(Strip(r.status)))
  }

  predicate KnownStatus(status: string) {
    status == "PENDING" || status == "WRITTEN-FAILING" || status == "PASSING"
  }

  predicate Names(r: Row, name: string) {
    r.Row? && Label(r.ac) == name
  }

  /** `_declared_acs`: the raw ids, in brief order. */
  function Declared(criteria: seq<Criterion>): seq<string> {
    if criteria == [] then [] else RawId(criteria[0]) + Declared(criteria[1..])
  }

  function RawId(c: Criterion): seq<string> {
    var raw := match c case Named(id, ac) => (if id != "" then id else ac) case Bare(text) => text;
    if Strip(raw) != "" then [raw] else []
  }

  // ---- what cells and labels mean ----

  /** The cells that say nothing, in any case and with any blanks around them. */
  lemma PlaceholdersExactly(cell: string, s: string)
    requires s == Lower(Strip(cell))
    ensures Empty(cell) <==> s == "" || s == "\U{2014}" || s == "-" || s == "n/a" || s == "none" || s == "(none)"
  {
  }

  lemma SameCase(s: string, t: string)
    ensures Upper(s) == Upper(t) <==> Lower(s) == Lower(t)
  {
    if Upper(s) == Upper(t) { SameInLower(s, t); }
    if Lower(s) == Lower(t) { SameInUpper(s, t); }
  }

  lemma SameLetter(c: char, d: char)
    ensures UpperChar(c) == UpperChar(d) <==> LowerChar(c) == LowerChar(d)
  {
  }

  lemma SameInLower(s: string, t: string)
    requires Upper(s) == Upper(t)
    ensures Lower(s) == Lower(t)
  {
    assert |s| == |Upper(s)| == |Upper(t)| == |t|;
    forall i | 0 <= i < |s|
      ensures LowerChar(s[i]) == LowerChar(t[i])
    {
      assert UpperChar(s[i]) == Upper(s)[i] == Upper(t)[i] == UpperChar(t[i]);
      SameLetter(s[i], t[i]);
    }
    LowerIs(s, Lower(t));
  }

  lemma SameInUpper(s: string, t: string)
    requires Lower(s) == Lower(t)
    ensures Upper(s) == Upper(t)
  {
    assert |s| == |Lower(s)| == |Lower(t)| == |t|;
    forall i | 0 <= i < |s|
      ensures UpperChar(s[i]) == UpperChar(t[i])
    {
      assert LowerChar(s[i]) == Lower(s)[i] == Lower(t)[i] == LowerChar(t[i]);
      SameLetter(s[i], t[i]);
    }
    SameUppers(s, t);
  }

  lemma SameUppers(s: string, t: string)
    requires |s| == |t| && forall i :: 0 <= i < |s| ==> UpperChar(s[i]) == UpperChar(t[i])
    ensures Upper(s) == Upper(t)
  {
    assert forall i :: 0 <= i < |s| ==> Upper(s)[i] == Upper(t)[i];
  }

  /** The gate accepts a row exactly when it names something and has one of three statuses, in any case. */
  lemma ValidExactly(r: Row, pending: string, failing: string, passing: string)
    requires r.Row? && pending == "PENDING" && failing == "WRITTEN-FAILING" && passing == "PASSING"
    ensures ValidRow(r) <==>
            !Empty(r.ac) && OneOf(Lower(Strip(r.status)), Lower(pending), Lower(failing), Lower(passing))
  {
    KnownExactly(Strip(r.status), pending, failing, passing);
  }

  lemma KnownExactly(s: string, pending: string, failing: string, passing: string)
    requires pending == "PENDING" && failing == "WRITTEN-FAILING" && passing == "PASSING"
    ensures KnownStatus(Upper(s)) <==> OneOf(Lower(s), Lower(pending), Lower(failing), Lower(passing))
  {
    NoLowerCase(pending, failing, passing);
    SpelledInAnyCase(s, pending);
    SpelledInAnyCase(s, failing);
    SpelledInAnyCase(s, passing);
  }

  predicate OneOf(s: string, a: string, b: string, c: string) {
    s == a || s == b || s == c
  }

  predicate Capitals(word: string) {
    forall i :: 0 <= i < |word| ==> !('a' <= word[i] <= 'z')
  }

  lemma NoLowerCase(pending: string, failing: string, passing: string)
    requires pending == "PENDING" && failing == "WRITTEN-FAILING" && passing == "PASSING"
    ensures Capitals(pending) && Capitals(failing) && Capitals(passing)
  {
  }

  lemma SpelledInAnyCase(s: string, word: string)
    requires Capitals(word)
    ensures Upper(s) == word <==> Lower(s) == Lower(word)
  {
    UpperKeeps(word);
    SameCase(s, word);
  }

  lemma UpperKeeps(s: string)
    requires Capitals(s)
    ensures Upper(s) == s
  {
  }

  lemma LowerIs(s: string, low: string)
    requires |s| == |low| && forall i :: 0 <= i < |s| ==> LowerChar(s[i]) == low[i]
    ensures Lower(s) == low
  {
  }

  lemma {:induction false} WithoutJoin(a: string, b: string, c: char)
    ensures Without(a + b, c) == Without(a, c) + Without(b, c)
  {
    if a == "" {
      assert a + b == b;
    } else {
      assert (a + b)[0] == a[0] && (a + b)[1..] == a[1..] + b;
      WithoutJoin(a[1..], b, c);
      var kept := if a[0] == c then [] else [a[0]];
      assert kept + (Without(a[1..], c) + Without(b, c)) == (kept + Without(a[1..], c)) + Without(b, c);
    }
  }

  lemma {:induction false} WithoutNone(s: string, c: char)
    requires c !in s
    ensures Without(s, c) == s
  {
    if s != "" {
      assert s == [s[0]] + s[1..];
      WithoutNone(s[1..], c);
    }
  }

  predicate Separators(s: string) {
    forall i :: 0 <= i < |s| ==> s[i] in {'-', '_', '#', ' '}
  }

  lemma {:induction false} WithoutKeeps(s: string, c: char)
    ensures forall x :: x in Without(s, c) ==> x in s
  {
    if s != "" { WithoutKeeps(s[1..], c); }
  }

  lemma {:induction false} DashesGo(dashes: string, name: string)
    requires forall i :: 0 <= i < |dashes| ==> dashes[i] == '-' || dashes[i] == '_'
    requires name != "" ==> name[0] != '-' && name[0] != '_'
    ensures StripDashes(dashes + name) == name
  {
    if dashes != "" {
      assert (dashes + name)[0] == dashes[0] && (dashes + name)[1..] == dashes[1..] + name;
      DashesGo(dashes[1..], name);
    } else {
      assert dashes + name == name;
    }
  }

  /** A name that no rule touches: lower case, no blank, no hash, and no dash or underscore in front. */
  predicate Untouched(name: string) {
    && name != "" && name[0] != '-' && name[0] != '_' && Lower(name) == name
    && forall x :: x in name ==> !IsSpace(x) && x != '#'
  }

  /** ONE LABEL: "AC" in any case, any dashes, underscores, hashes and blanks, and then the name. */
  lemma OneLabel(ac: string, between: string, name: string)
    requires Lower(ac) == "ac" && Separators(between) && Untouched(name)
    ensures Label(ac + between + name) == name
  {
    LowerJoins(ac, between, name);
    NothingToStrip(ac, between, name);
    var dashes := Without(Without(between, '#'), ' ');
    Removed(between, name);
    HashesAndBlanksGo(between, name, dashes);
    LabelBehindAc(ac + between + name, "ac" + (between + name), dashes + name);
    DashesGo(dashes, name);
  }

  /** And with nothing behind it there is no label. */
  lemma NoLabel(ac: string, between: string)
    requires Lower(ac) == "ac" && Separators(between) && Trimmed(ac + between)
    ensures Label(ac + between) == ""
  {
    var dashes := Without(Without(between, '#'), ' ');
    StripKeepsTheTrimmed(ac + between);
    LowerWithSeparators(ac, between);
    AcStays(between);
    LabelBehindAc(ac + between, "ac" + between, dashes);
    OnlyDashesStay(between);
    DashesGo(dashes, "");
    assert dashes + "" == dashes;
  }

  lemma LowerWithSeparators(ac: string, between: string)
    requires Separators(between)
    ensures Lower(ac + between) == Lower(ac) + between
  {
    LowerIs(between, between);
    LowerOfJoin(ac, between);
  }

  lemma AcStays(between: string)
    ensures Without(Without("ac" + between, '#'), ' ') == "ac" + Without(Without(between, '#'), ' ')
  {
    var ac := "ac";
    WithoutJoin(ac, between, '#');
    WithoutNone(ac, '#');
    WithoutJoin(ac, Without(between, '#'), ' ');
    WithoutNone(ac, ' ');
  }

  lemma OnlyDashesStay(between: string)
    requires Separators(between)
    ensures var dashes := Without(Without(between, '#'), ' ');
            forall i :: 0 <= i < |dashes| ==> dashes[i] == '-' || dashes[i] == '_'
  {
    WithoutKeeps(between, '#');
    WithoutKeeps(Without(between, '#'), ' ');
    var dashes := Without(Without(between, '#'), ' ');
    forall i | 0 <= i < |dashes|
      ensures dashes[i] == '-' || dashes[i] == '_'
    {
      assert dashes[i] in dashes && dashes[i] in Without(between, '#') && dashes[i] in between;
    }
  }

  lemma LabelBehindAc(raw: string, low: string, rest: string)
    requires Strip(raw) == raw && Lower(raw) == low && Without(Without(low, '#'), ' ') == "ac" + rest
    ensures Label(raw) == StripDashes(rest)
  {
    var s := "ac" + rest;
    assert s[..2] == "ac" && s[2..] == rest;
  }

  lemma NothingToStrip(ac: string, between: string, name: string)
    requires Lower(ac) == "ac" && Untouched(name)
    ensures Strip(ac + between + name) == ac + between + name
  {
    var raw := ac + between + name;
    assert LowerChar(ac[0]) == Lower(ac)[0];
    assert raw[0] == ac[0] && raw[|raw| - 1] == name[|name| - 1] && name[|name| - 1] in name;
    StripKeepsTheTrimmed(raw);
  }

  lemma HashesAndBlanksGo(between: string, name: string, dashes: string)
    requires Without(between + name, '#') == Without(between, '#') + name
    requires Without(Without(between, '#') + name, ' ') == dashes + name
    ensures Without(Without("ac" + (between + name), '#'), ' ') == "ac" + (dashes + name)
  {
    WithoutJoin("ac", between + name, '#');
    WithoutNone("ac", '#');
    WithoutJoin("ac", Without(between, '#') + name, ' ');
    WithoutNone("ac", ' ');
  }

  lemma LowerJoins(ac: string, between: string, name: string)
    requires Lower(ac) == "ac" && Separators(between) && Lower(name) == name
    ensures |ac| == 2 && Lower(ac + between + name) == "ac" + (between + name)
  {
    LowerIs(between, between);
    LowerOfJoin(between, name);
    LowerOfJoin(ac, between + name);
    assert ac + between + name == ac + (between + name);
  }

  lemma LowerOfJoin(a: string, b: string)
    ensures Lower(a + b) == Lower(a) + Lower(b)
  {
    LowerIs(a + b, Lower(a) + Lower(b));
  }

  lemma Removed(between: string, name: string)
    requires Separators(between) && Untouched(name)
    ensures Without(between + name, '#') == Without(between, '#') + name
    ensures var dashes := Without(Without(between, '#'), ' ');
            && Without(Without(between, '#') + name, ' ') == dashes + name
            && forall i :: 0 <= i < |dashes| ==> dashes[i] == '-' || dashes[i] == '_'
  {
    WithoutJoin(between, name, '#');
    WithoutNone(name, '#');
    WithoutJoin(Without(between, '#'), name, ' ');
    WithoutNone(name, ' ');
    OnlyDashesStay(between);
  }

  /** A name without "ac" in front is its own label. */
  lemma OwnLabel(name: string)
    requires Untouched(name) && !("ac" <= name)
    ensures Label(name) == name
  {
    assert name[0] in name && name[|name| - 1] in name;
    StripKeepsTheTrimmed(name);
    WithoutNone(name, '#');
    WithoutNone(name, ' ');
  }

  /** A criterion declares its id, or else its fallback label, unless that is blank; the brief's order is kept. */
  lemma {:induction false} DeclaredInOrder(a: seq<Criterion>, b: seq<Criterion>)
    ensures Declared(a + b) == Declared(a) + Declared(b)
  {
    if a == [] {
      assert a + b == b;
    } else {
      assert (a + b)[0] == a[0] && (a + b)[1..] == a[1..] + b;
      DeclaredInOrder(a[1..], b);
    }
  }

  lemma DeclaredByOne(id: string, ac: string, text: string)
    ensures Declared([Named(id, ac)]) ==
            if id != "" && Strip(id) != "" then [id] else if id == "" && Strip(ac) != "" then [ac] else []
    ensures Declared([Bare(text)]) == if Strip(text) != "" then [text] else []
  {
    assert [Named(id, ac)][1..] == [] && [Bare(text)][1..] == [];
  }

  /** A stub is pruned again exactly when its criterion is no longer declared. */
  lemma StubIsPrunedExactly(raw: string, labels: set<string>)
    ensures Orphan(Pending(raw), labels) <==> Label(raw) !in labels
  {
    assert Pending(raw) == Row(raw, "PENDING", "", "");
    PendingStatus();
    assert Empty("");
  }

  lemma PendingStatus()
    ensures Upper(Strip("PENDING")) == "PENDING"
  {
    UpperKeeps("PENDING");
    StripKeepsTheTrimmed("PENDING");
  }

  // ---- the gate ----

  ghost predicate HasValidRow(rows: seq<Row>, name: string) {
    exists i :: 0 <= i < |rows| && ValidRow(rows[i]) && Label(rows[i].ac) == name
  }

  ghost predicate HasRow(rows: seq<Row>, name: string) {
    exists i :: 0 <= i < |rows| && Names(rows[i], name)
  }

  ghost predicate IsDeclared(raws: seq<string>, name: string) {
    name != "" && exists i :: 0 <= i < |raws| && Label(raws[i]) == name
  }

  /** `_hook_ac_coverage` over the rows the audit loop let through: the declared labels without one. */
  method Uncovered(raws: seq<string>, rows: seq<Row>) returns (missing: seq<string>)
    ensures forall name :: name in missing <==> IsDeclared(raws, name) && !HasValidRow(rows, name)
  {
    var covered: set<string> := {};
    for i := 0 to |rows|
      invariant forall name :: name in covered <==> HasValidRow(rows[..i], name)
    {
      TakeNext(rows, i);
      forall name
        ensures HasValidRow(rows[..i + 1], name)
            <==> HasValidRow(rows[..i], name) || (ValidRow(rows[i]) && Label(rows[i].ac) == name)
      {
        OneMoreValid(rows[..i], rows[i], name);
      }
      if ValidRow(rows[i]) { covered := covered + {Label(rows[i].ac)}; }
    }
    TakeWhole(rows);
    missing := [];
    for k := 0 to |raws|
      invariant forall name :: name in missing <==> IsDeclared(raws[..k], name) && name !in covered
    {
      TakeNext(raws, k);
      forall name
        ensures IsDeclared(raws[..k + 1], name)
            <==> IsDeclared(raws[..k], name) || (name != "" && Label(raws[k]) == name)
      {
        OneMoreDeclared(raws[..k], raws[k], name);
      }
      if Label(raws[k]) != "" && Label(raws[k]) !in covered { missing := missing + [Label(raws[k])]; }
    }
    TakeWhole(raws);
  }

  lemma OneMoreValid(rows: seq<Row>, r: Row, name: string)
    ensures HasValidRow(rows + [r], name) <==> HasValidRow(rows, name) || (ValidRow(r) && Label(r.ac) == name)
  {
    var more := rows + [r];
    assert more[|rows|] == r;
    assert forall i :: 0 <= i < |rows| ==> more[i] == rows[i];
  }

  lemma OneMoreDeclared(raws: seq<string>, raw: string, name: string)
    ensures IsDeclared(raws + [raw], name) <==> IsDeclared(raws, name) || (name != "" && Label(raw) == name)
  {
    var more := raws + [raw];
    assert more[|raws|] == raw;
    assert forall i :: 0 <= i < |raws| ==> more[i] == raws[i];
  }

  // ---- the scaffolder ----

  function Pending(raw: string): Row { Row(raw, "PENDING", "", "") }

  /** A stub row of the scaffolder's own for a criterion that is no longer declared. */
  predicate Orphan(r: Row, labels: set<string>) {
    r.Row? && Upper(Strip(r.status)) == "PENDING" && Empty(r.testPath) && Empty(r.testFunction)
        && Label(r.ac) !in labels
  }

  function Kept(rows: seq<Row>, labels: set<string>): seq<Row> {
    if rows == [] then []
    else (if Orphan(rows[0], labels) then [] else [rows[0]]) + Kept(rows[1..], labels)
  }

  /** Stubs for the raw ids whose label is not covered yet, one per label, first spelling first. */
  function Stubs(raws: seq<string>, covered: set<string>): seq<Row> {
    if raws == [] then []
    else
      var name := Label(raws[0]);
      if name != "" && name !in covered then [Pending(raws[0])] + Stubs(raws[1..], covered + {name})
      else Stubs(raws[1..], covered)
  }

  function LabelsOf(raws: seq<string>): (labels: set<string>)
    ensures forall name :: name in labels <==> IsDeclared(raws, name)
  {
    set i | 0 <= i < |raws| && Label(raws[i]) != "" :: Label(raws[i])
  }

  function CoveredBy(rows: seq<Row>): (labels: set<string>)
    ensures forall name :: name in labels <==> HasRow(rows, name)
  {
    set i | 0 <= i < |rows| && rows[i].Row? :: Label(rows[i].ac)
  }

  /** The plan after scaffolding: what was there without the orphans, and then the stubs. */
  function Scaffolded(raws: seq<string>, rows: seq<Row>): seq<Row> {
    Kept(rows, LabelsOf(raws)) + Stubs(raws, CoveredBy(rows))
  }

  datatype Plan = Missing | NotAList | Rows(rows: seq<Row>)

  function RowsOf(plan: Plan): seq<Row> {
    if plan.Rows? then plan.rows else []
  }

  lemma {:induction false} KeptJoin(a: seq<Row>, b: seq<Row>, labels: set<string>)
    ensures Kept(a + b, labels) == Kept(a, labels) + Kept(b, labels)
  {
    if a == [] {
      assert a + b == b;
    } else {
      assert (a + b)[1..] == a[1..] + b;
      KeptJoin(a[1..], b, labels);
    }
  }

  lemma {:induction false} StubsAreKept(raws: seq<string>, covered: set<string>, labels: set<string>)
    requires forall i :: 0 <= i < |raws| && Label(raws[i]) != "" ==> Label(raws[i]) in labels
    ensures Kept(Stubs(raws, covered), labels) == Stubs(raws, covered)
  {
    if raws != [] {
      var name := Label(raws[0]);
      if name != "" && name !in covered {
        StubsAreKept(raws[1..], covered + {name}, labels);
        var rest := Stubs(raws[1..], covered + {name});
        assert ([Pending(raws[0])] + rest)[1..] == rest;
      } else {
        StubsAreKept(raws[1..], covered, labels);
      }
    }
  }

  class Brief {
    const enabled: bool
    const criteria: seq<Criterion>
    var plan: Plan

    constructor (enabled: bool, criteria: seq<Criterion>, plan: Plan)
      ensures this.enabled == enabled && this.criteria == criteria && this.plan == plan
    {
      this.enabled, this.criteria, this.plan := enabled, criteria, plan;
    }

    /** `scaffold_pending_plan`: append the missing stubs, then prune the orphans. */
    method Scaffold()
      modifies this`plan
      ensures !enabled ==> plan == old(plan)
      ensures enabled ==> plan == Rows(Scaffolded(Declared(criteria), RowsOf(old(plan))))
    {
      if !enabled {
        return;
      }
      var raws, rows := Declared(criteria), RowsOf(plan);
      var labels, covered := LabelsOf(raws), CoveredBy(rows);
      var all := AppendStubs(raws, rows, covered);
      var kept := Prune(all, labels);
      KeptJoin(rows, Stubs(raws, covered), labels);
      StubsAreKept(raws, covered, labels);
      plan := Rows(kept);
    }
  }

  method AppendStubs(raws: seq<string>, rows: seq<Row>, covered0: set<string>) returns (all: seq<Row>)
    ensures all == rows + Stubs(raws, covered0)
  {
    all := rows;
    var covered := covered0;
    for k := 0 to |raws|
      invariant all + Stubs(raws[k..], covered) == rows + Stubs(raws, covered0)
    {
      var name := Label(raws[k]);
      assert raws[k..][0] == raws[k] && raws[k..][1..] == raws[k + 1..];
      if name != "" && name !in covered {
        StubFirst(all, Pending(raws[k]), Stubs(raws[k + 1..], covered + {name}));
        all := all + [Pending(raws[k])];
        covered := covered + {name};
      }
    }
  }

  lemma StubFirst(all: seq<Row>, r: Row, rest: seq<Row>)
    ensures all + ([r] + rest) == (all + [r]) + rest
  {
  }

  lemma KeptAlone(r: Row, labels: set<string>)
    ensures Kept([r], labels) == if Orphan(r, labels) then [] else [r]
  {
    assert [r][1..] == [];
  }

  method Prune(rows: seq<Row>, labels: set<string>) returns (kept: seq<Row>)
    ensures kept == Kept(rows, labels)
  {
    kept := [];
    for k := 0 to |rows|
      invariant kept == Kept(rows[..k], labels)
    {
      TakeNext(rows, k);
      KeptJoin(rows[..k], [rows[k]], labels);
      KeptAlone(rows[k], labels);
      if !Orphan(rows[k], labels) { kept := kept + [rows[k]]; }
    }
    TakeWhole(rows);
  }

  // ---- what scaffolding guarantees ----

  lemma {:induction false} KeptHas(rows: seq<Row>, labels: set<string>, r: Row)
    ensures r in Kept(rows, labels) <==> r in rows && !Orphan(r, labels)
  {
    if rows != [] {
      assert rows == [rows[0]] + rows[1..];
      KeptHas(rows[1..], labels, r);
    }
  }

  /** The first spelling of a declared label. */
  ghost function FirstSpelling(raws: seq<string>, name: string): (raw: string)
    requires IsDeclared(raws, name)
    ensures raw in raws && Label(raw) == name
  {
    if Label(raws[0]) == name then raws[0]
    else
      var i :| 0 <= i < |raws| && Label(raws[i]) == name;
      assert raws[1..][i - 1] == raws[i];
      FirstSpelling(raws[1..], name)
  }

  /** A label gets a stub exactly when it is declared and was not covered; the stub spells it as first declared. */
  lemma {:induction false} StubsHave(raws: seq<string>, covered: set<string>, r: Row, name: string)
    requires Names(r, name)
    ensures r in Stubs(raws, covered)
        <==> IsDeclared(raws, name) && name !in covered && r == Pending(FirstSpelling(raws, name))
  {
    if raws == [] {
      assert !IsDeclared(raws, name);
    } else {
      var first := Label(raws[0]);
      if first != "" && first !in covered {
        StubsHave(raws[1..], covered + {first}, r, name);
      } else {
        StubsHave(raws[1..], covered, r, name);
      }
    }
  }

  lemma PendingIsValid(raw: string)
    ensures ValidRow(Pending(raw)) <==> !Empty(raw)
  {
    assert Upper("PENDING") == "PENDING";
  }

  lemma HasRowMeans(rows: seq<Row>, r: Row, name: string)
    requires r in rows && Names(r, name)
    ensures HasRow(rows, name) && (ValidRow(r) ==> HasValidRow(rows, name))
  {
    var i := Place(rows, r);
  }

  /**
   WHEN THE SCAFFOLDER SATISFIES ITS GATE. After scaffolding, a declared criterion passes the gate exactly
   when a valid row named it before, or no row at all did and its first spelling is a real name. A row that
   names it but is not valid blocks the stub; a placeholder such as "n/a" gets a stub the gate rejects.
  */
  lemma GateAfterScaffold(raws: seq<string>, rows: seq<Row>, name: string)
    requires IsDeclared(raws, name)
    ensures HasValidRow(Scaffolded(raws, rows), name)
        <==> HasValidRow(rows, name) || (!HasRow(rows, name) && !Empty(FirstSpelling(raws, name)))
  {
    var after, stub := Scaffolded(raws, rows), Pending(FirstSpelling(raws, name));
    PendingIsValid(FirstSpelling(raws, name));
    if HasValidRow(after, name) {
      var i :| 0 <= i < |after| && ValidRow(after[i]) && Label(after[i].ac) == name;
      ComesFrom(raws, rows, after[i], name);
    }
    if HasValidRow(rows, name) {
      var i :| 0 <= i < |rows| && ValidRow(rows[i]) && Label(rows[i].ac) == name;
      KeptHas(rows, LabelsOf(raws), rows[i]);
      HasRowMeans(after, rows[i], name);
    } else if !HasRow(rows, name) && !Empty(FirstSpelling(raws, name)) {
      StubsHave(raws, CoveredBy(rows), stub, name);
      HasRowMeans(after, stub, name);
    }
  }

  lemma LabelOfAcOne()
    ensures Label("AC-1") == "1"
  {
    var ac, dash, one := "AC", "-", "1";
    LowerIs(ac, "ac");
    LowerIs(one, "1");
    OneLabel(ac, dash, one);
    assert ac + dash + one == "AC-1";
  }

  lemma LowerPlaceholder()
    ensures Lower("n/a") == "n/a"
  {
    var low := Lower("n/a");
    assert |low| == 3 && low[0] == 'n' && low[1] == '/' && low[2] == 'a';
  }

  lemma LabelOfPlaceholder()
    ensures Lower(Strip("n/a")) == "n/a" && Label("n/a") == "n/a"
  {
    StripKeepsTheTrimmed("n/a");
    LowerPlaceholder();
    assert Without("n/a", '#') == "n/a" && Without("n/a", ' ') == "n/a";
  }

  /** A row that names the criterion under an unknown status: no stub is written, and the gate still wants one. */
  lemma UnknownStatusBlocksTheStub(raws: seq<string>, rows: seq<Row>)
    requires raws == ["AC-1"] && rows == [Row("AC-1", "DONE", "", "")]
    ensures IsDeclared(raws, "1") && Scaffolded(raws, rows) == rows && !HasValidRow(Scaffolded(raws, rows), "1")
  {
    LabelOfAcOne();
    assert Label(raws[0]) == "1" && Names(rows[0], "1");
    UnknownStatus(rows[0]);
    KeptAlone(rows[0], LabelsOf(raws));
    NothingToStub(raws, CoveredBy(rows));
    GateAfterScaffold(raws, rows, "1");
  }

  lemma UnknownStatus(r: Row)
    requires r.Row? && r.status == "DONE"
    ensures !ValidRow(r) && forall labels :: !Orphan(r, labels)
  {
    StripKeepsTheTrimmed("DONE");
    assert Upper("DONE")[0] == 'D' && |Upper("DONE")| == 4;
  }

  /** A placeholder that counts as declared: it gets a stub, and the gate does not accept it. */
  lemma PlaceholderNeverPasses(raws: seq<string>)
    requires raws == ["n/a"]
    ensures IsDeclared(raws, "n/a") && HasRow(Scaffolded(raws, []), "n/a") && !HasValidRow(Scaffolded(raws, []), "n/a")
  {
    LabelOfPlaceholder();
    assert Label(raws[0]) == "n/a";
    DeclaredIsCovered(raws, [], "n/a");
    GateAfterScaffold(raws, [], "n/a");
  }

  lemma ComesFrom(raws: seq<string>, rows: seq<Row>, r: Row, name: string)
    requires IsDeclared(raws, name) && r in Scaffolded(raws, rows) && Names(r, name)
    ensures (r in rows && HasRow(rows, name) && (ValidRow(r) ==> HasValidRow(rows, name))) ||
            (!HasRow(rows, name) && r == Pending(FirstSpelling(raws, name)))
  {
    KeptHas(rows, LabelsOf(raws), r);
    StubsHave(raws, CoveredBy(rows), r, name);
    if r in rows { HasRowMeans(rows, r, name); }
  }

  lemma {:induction false} NothingToStub(raws: seq<string>, covered: set<string>)
    requires forall i :: 0 <= i < |raws| && Label(raws[i]) != "" ==> Label(raws[i]) in covered
    ensures Stubs(raws, covered) == []
  {
    if raws != [] { NothingToStub(raws[1..], covered); }
  }

  lemma {:induction false} KeptTwice(rows: seq<Row>, labels: set<string>)
    ensures Kept(Kept(rows, labels), labels) == Kept(rows, labels)
  {
    if rows != [] {
      KeptTwice(rows[1..], labels);
      var rest := Kept(rows[1..], labels);
      if Orphan(rows[0], labels) {
        assert Kept(rows, labels) == rest;
      } else {
        assert Kept(rows, labels) == [rows[0]] + rest;
      }
    }
  }

  lemma DeclaredIsCovered(raws: seq<string>, rows: seq<Row>, name: string)
    requires IsDeclared(raws, name)
    ensures HasRow(Scaffolded(raws, rows), name)
  {
    var after, stub := Scaffolded(raws, rows), Pending(FirstSpelling(raws, name));
    if HasRow(rows, name) {
      var i :| 0 <= i < |rows| && Names(rows[i], name);
      KeptHas(rows, LabelsOf(raws), rows[i]);
      HasRowMeans(after, rows[i], name);
    } else {
      StubsHave(raws, CoveredBy(rows), stub, name);
      HasRowMeans(after, stub, name);
    }
  }

  /** Scaffolding twice is scaffolding once. */
  lemma ScaffoldTwice(raws: seq<string>, rows: seq<Row>)
    ensures Scaffolded(raws, Scaffolded(raws, rows)) == Scaffolded(raws, rows)
  {
    var after, labels := Scaffolded(raws, rows), LabelsOf(raws);
    KeptJoin(Kept(rows, labels), Stubs(raws, CoveredBy(rows)), labels);
    KeptTwice(rows, labels);
    StubsAreKept(raws, CoveredBy(rows), labels);
    forall i | 0 <= i < |raws| && Label(raws[i]) != ""
      ensures Label(raws[i]) in CoveredBy(after)
    {
      DeclaredIsCovered(raws, rows, Label(raws[i]));
    }
    NothingToStub(raws, CoveredBy(after));
  }

  /** Every row that is not an orphan survives unchanged and in order; only orphans go. */
  lemma {:induction false} BuilderRowsSurvive(rows: seq<Row>, labels: set<string>) returns (places: seq<nat>)
    ensures Ascending(places) && |places| == |Kept(rows, labels)|
    ensures forall i :: 0 <= i < |places| ==> places[i] < |rows| && Kept(rows, labels)[i] == rows[places[i]]
    ensures forall p: nat :: p in places <==> p < |rows| && !Orphan(rows[p], labels)
  {
    if rows == [] {
      places := [];
    } else {
      var init, last := rows[..|rows| - 1], rows[|rows| - 1];
      places := BuilderRowsSurvive(init, labels);
      KeptOneMore(rows, labels);
      if !Orphan(last, labels) {
        AscendingAppend(places, |init|);
        InAppend(places, |init|);
        places := places + [|init|];
      }
    }
  }

  lemma KeptOneMore(rows: seq<Row>, labels: set<string>)
    requires rows != []
    ensures var init, last := rows[..|rows| - 1], rows[|rows| - 1];
            Kept(rows, labels) == Kept(init, labels) + if Orphan(last, labels) then [] else [last]
  {
    var init, last := rows[..|rows| - 1], rows[|rows| - 1];
    assert rows == init + [last] && [last][1..] == [];
    KeptJoin(init, [last], labels);
  }
}
