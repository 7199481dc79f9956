/**
 Checking the ground a document claims to stand on: each token is classified on its own, graph tokens are
 resolved together in one batch with one query per path, and the result reads as if each token had been
 looked up alone.
*/
module Grounding {
  import opened Common
  import opened Seqs

  /** An entry of a document's token list: text, or some other JSON value. */
  datatype Token = Text(text: string) | Other(json: string)

  datatype Reason = Malformed | SourceUnavailable | FileAbsent | SymbolAbsent | NotIndexed | AmbiguousMatch

  /** A graph node as a file summary lists it. */
  datatype Node = Node(isFile: bool, name: string)

  /** What the tokens are checked against. Paths are looked up after the code's own normalization. */
  datatype World = World(
    vaultKnown: bool,
    vaultHas: string -> bool,
    inRepo: string -> bool,
    repoHas: string -> bool,
    readFile: string -> Option<string>,
    graphUp: bool,
    batchUp: bool,
    tidy: string -> string,
    graphPath: string -> string,
    query: string -> seq<Node>)

  // ---- taking a token apart ----

  function IndexOf(s: string, c: char): (i: nat)
    ensures i <= |s| && c !in s[..i] && (i < |s| ==> s[i] == c)
  {
    if s == "" || s[0] == c then 0
    else
      var j := IndexOf(s[1..], c);
      assert s[..1 + j] == [s[0]] + s[1..][..j];
      1 + j
  }

  function DoubleColon(s: string): (i: nat)
    ensures i <= |s| && (i < |s| ==> i + 1 < |s| && s[i] == ':' && s[i + 1] == ':')
  {
    if |s| < 2 then |s| else if s[0] == ':' && s[1] == ':' then 0 else 1 + DoubleColon(s[1..])
  }

  predicate HasGlob(path: string) {
    '*' in path || '?' in path || '[' in path
  }

  predicate IsWordChar(c: char) {
    'a' <= c <= 'z' || 'A' <= c <= 'Z' || '0' <= c <= '9' || c == '_'
  }

  /** `word` occurs in `text` and is not part of a longer identifier there. */
  predicate Mentions(text: string, word: string) {
    exists i :: 0 <= i <= |text| - |word| && WordAt(text, word, i)
  }

  predicate WordAt(text: string, word: string, i: nat)
    requires i + |word| <= |text|
  {
    && text[i..i + |word|] == word
    && (i > 0 ==> !IsWordChar(text[i - 1]))
    && (i + |word| < |text| ==> !IsWordChar(text[i + |word|]))
  }

  datatype Local = Final(reason: Option<Reason>) | Deferred(path: string, symbol: Option<string>)

  /** `_classify`: everything that can be said without the graph. */
  function Classify(w: World, token: Token): Local {
    if token.Other? || ':' !in token.text then Final(Some(Malformed))
    else
      var i := IndexOf(token.text, ':');
      assert i < |token.text| by { assert token.text[..|token.text|] == token.text; }
      var scheme, rest := token.text[..i], token.text[i + 1..];
      var k := DoubleColon(rest);
      var path := w.tidy(rest[..k]);
      var symbol := if k < |rest| then Some(rest[k + 2..]) else None;
      ClassifyParts(w, scheme, path, symbol)
  }

  function ClassifyParts(w: World, scheme: string, path: string, symbol: Option<string>): Local {
    if scheme == "vault" then Final(VaultReason(w, path, symbol))
    else if scheme == "file" then Final(FileReason(w, path, symbol))
    else if scheme == "crg" then
      if path == "" || HasGlob(path) || !w.inRepo(path) then Final(Some(Malformed))
      else if !w.graphUp then Final(Some(SourceUnavailable))
      else Deferred(path, symbol)
    else Final(Some(Malformed))
  }

  function VaultReason(w: World, path: string, symbol: Option<string>): Option<Reason> {
    if symbol.Some? || path == "" || HasGlob(path) then Some(Malformed)
    else if !w.vaultKnown then Some(SourceUnavailable)
    else if w.vaultHas(path) then None else Some(FileAbsent)
  }

  function FileReason(w: World, path: string, symbol: Option<string>): Option<Reason> {
    if path == "" || HasGlob(path) || !w.inRepo(path) then Some(Malformed)
    else if !w.repoHas(path) then Some(FileAbsent)
    else if symbol.None? then None
    else
      var text := w.readFile(path);
      if text.None? then Some(FileAbsent) else if Mentions(text.value, symbol.value) then None else Some(SymbolAbsent)
  }

  // ---- the graph lookup ----

  datatype Entry = Entry(fileResolved: bool, symbolPresent: Option<bool>, ambiguous: bool)

  function FileNames(results: seq<Node>): set<string> {
    set i | 0 <= i < |results| && results[i].isFile :: results[i].name
  }

  /** `_verdict`: the file is there once, and the symbol is one of its non-file nodes. */
  function Verdict(results: seq<Node>, symbol: Option<string>): Entry {
    var ambiguous := |FileNames(results)| > 1;
    var resolved := (exists i :: 0 <= i < |results| && results[i].isFile) && !ambiguous;
    var present := if symbol.None? then None else Some(
        exists i :: 0 <= i < |results| && !results[i].isFile && results[i].name == symbol.value);
    Entry(resolved, present, ambiguous)
  }

  function ReasonOf(entry: Entry, symbol: Option<string>): Option<Reason> {
    if entry.ambiguous then Some(AmbiguousMatch)
    else if !entry.fileResolved then Some(NotIndexed)
    else if symbol.Some? && entry.symbolPresent != Some(true) then Some(SymbolAbsent)
    else None
  }

  /** THE REFERENCE: one token, looked up alone. */
  function Alone(w: World, token: Token): Option<Reason> {
    match Classify(w, token)
    case Final(reason) => reason
    case Deferred(path, symbol) =>
      if !w.batchUp then Some(SourceUnavailable)
      else ReasonOf(Verdict(w.query(w.graphPath(path)), symbol), symbol)
  }

  /** A file token resolves when exactly one file answers and, with a symbol, the file has it. */
  lemma GraphTokenVerified(w: World, token: Token)
    requires Classify(w, token).Deferred? && w.batchUp
    ensures var l := Classify(w, token);
            var results := w.query(w.graphPath(l.path));
            Alone(w, token).None? <==>
              |FileNames(results)| == 1 &&
              (l.symbol.Some? ==>
                 exists i :: 0 <= i < |results| && !results[i].isFile && results[i].name == l.symbol.value)
  {
    var results := w.query(w.graphPath(Classify(w, token).path));
    if i :| 0 <= i < |results| && results[i].isFile {
      assert results[i].name in FileNames(results);
    } else {
      assert FileNames(results) == {};
    }
    if |FileNames(results)| == 1 {
      var name :| name in FileNames(results);
    }
  }

  /** With the graph or the batch down no graph token is verified. */
  lemma NothingFromADeadGraph(w: World, rest: string)
    requires !w.graphUp || !w.batchUp
    ensures Alone(w, Text("crg:" + rest)).Some?
  {
    var text := "crg:" + rest;
    assert text[3] == ':' && text[..3] == "crg";
    var i := IndexOf(text, ':');
    assert ':' !in text[..3];
    forall j | 0 <= j < i
      ensures text[j] != ':'
    {
      assert text[..i][j] in text[..i];
    }
    assert i == 3;
  }

  // ---- the batch ----

  datatype Request = Request(token: string, path: string, symbol: Option<string>)

  ghost predicate Lasts(requests: seq<Request>, i: nat)
    requires i < |requests|
  {
    forall j :: i < j < |requests| ==> requests[j].token != requests[i].token
  }

  ghost function Lookup(w: World, r: Request): Entry {
    Verdict(w.query(w.graphPath(r.path)), r.symbol)
  }

  ghost predicate Answers(w: World, requests: seq<Request>, results: map<string, Entry>, i: nat)
    requires i < |requests|
  {
    requests[i].token in results && (Lasts(requests, i) ==> results[requests[i].token] == Lookup(w, requests[i]))
  }

  ghost predicate AnswersAll(w: World, requests: seq<Request>, results: map<string, Entry>) {
    forall i :: 0 <= i < |requests| ==> Answers(w, requests, results, i)
  }

  lemma AnswerStays(w: World, requests: seq<Request>, r: Request, results: map<string, Entry>, entry: Entry, i: nat)
    requires i < |requests| && Answers(w, requests, results, i)
    ensures Answers(w, requests + [r], results[r.token := entry], i)
  {
    var next := requests + [r];
    if Lasts(next, i) {
      assert next[|requests|].token != next[i].token;
      forall j | i < j < |requests|
        ensures requests[j].token != requests[i].token
      {
        assert next[j].token != next[i].token;
      }
    }
  }

  lemma AnswerOneMore(w: World, requests: seq<Request>, r: Request, results: map<string, Entry>)
    requires AnswersAll(w, requests, results)
    ensures AnswersAll(w, requests + [r], results[r.token := Lookup(w, r)])
  {
    var next, entry := requests + [r], Lookup(w, r);
    var more := results[r.token := entry];
    forall i | 0 <= i < |requests|
      ensures Answers(w, next, more, i)
    {
      AnswerStays(w, requests, r, results, entry, i);
    }
  }

  /** The graph was asked for each distinct path of the requests, and for each of them once. */
  ghost predicate AskedOnce(w: World, requests: seq<Request>, asked: seq<string>) {
    NoDup(asked) && forall t :: t in asked <==> exists i :: 0 <= i < |requests| && w.graphPath(requests[i].path) == t
  }

  lemma AskedOneMore(w: World, requests: seq<Request>, r: Request, asked: seq<string>)
    requires AskedOnce(w, requests, asked)
    ensures AskedOnce(w, requests + [r], if w.graphPath(r.path) in asked then asked else asked + [w.graphPath(r.path)])
  {
    var more := requests + [r];
    NoDupAppend(asked, w.graphPath(r.path));
    assert more[|requests|] == r && forall i :: 0 <= i < |requests| ==> more[i] == requests[i];
  }

  /** `resolve_batch`: one graph query per distinct path, the same verdict per token as a lookup of its own. */
  method ResolveBatch(w: World, requests: seq<Request>) returns (results: map<string, Entry>, ghost asked: seq<string>)
    ensures AnswersAll(w, requests, results)
    ensures AskedOnce(w, requests, asked)
  {
    results, asked := map[], [];
    var byTarget: map<string, seq<Node>> := map[];
    for k := 0 to |requests|
      invariant AnswersAll(w, requests[..k], results)
      invariant AskedOnce(w, requests[..k], asked) && forall t :: t in byTarget <==> t in asked
      invariant forall t :: t in byTarget ==> byTarget[t] == w.query(t)
    {
      var target := w.graphPath(requests[k].path);
      AskedOneMore(w, requests[..k], requests[k], asked);
      if target !in byTarget {
        byTarget := byTarget[target := w.query(target)];
        asked := asked + [target];
      }
      AnswerOneMore(w, requests[..k], requests[k], results);
      results := results[requests[k].token := Verdict(byTarget[target], requests[k].symbol)];
      TakeNext(requests, k);
    }
    TakeWhole(requests);
  }

  // ---- the two phases ----

  /** What phase A writes down for one token. */
  datatype Slot = Done(token: Token, reason: Option<Reason>) | Waiting(name: string, symbol: Option<string>)

  datatype Failure = Failure(token: Token, reason: Reason)

  datatype Report = Report(verified: seq<Token>, unverified: seq<Failure>)

  /** One document's report, token by token in order, by the reference. */
  function Expected(w: World, tokens: seq<Token>): (r: Report) {
    if tokens == [] then Report([], [])
    else
      var before, token := Expected(w, tokens[..|tokens| - 1]), tokens[|tokens| - 1];
      match Alone(w, token)
      case None => Report(before.verified + [token], before.unverified)
      case Some(reason) => Report(before.verified, before.unverified + [Failure(token, reason)])
  }

  function Failed(failures: seq<Failure>): (tokens: seq<Token>)
    ensures |tokens| == |failures| && forall i :: 0 <= i < |tokens| ==> tokens[i] == failures[i].token
  {
    seq(|failures|, i requires 0 <= i < |failures| => failures[i].token)
  }

  lemma FailedMore(failures: seq<Failure>, f: Failure)
    ensures Failed(failures + [f]) == Failed(failures) + [f.token]
  {
  }

  /** Nothing lost, nothing invented: each token is on exactly one side, with its own verdict. */
  lemma {:induction false} ReportSplits(w: World, tokens: seq<Token>)
    ensures var r := Expected(w, tokens);
            multiset(r.verified) + multiset(Failed(r.unverified)) == multiset(tokens)
    ensures forall t :: t in Expected(w, tokens).verified ==> Alone(w, t).None?
    ensures forall f :: f in Expected(w, tokens).unverified ==> Alone(w, f.token) == Some(f.reason)
  {
    if tokens != [] {
      var init, last := tokens[..|tokens| - 1], tokens[|tokens| - 1];
      assert tokens == init + [last];
      ReportSplits(w, init);
      var before := Expected(w, init);
      if Alone(w, last).Some? { FailedMore(before.unverified, Failure(last, Alone(w, last).value)); }
    }
  }

  type Pending = map<string, (string, Option<string>)>

  ghost predicate SlotFor(w: World, token: Token, slot: Slot, deferred: Pending) {
    match Classify(w, token)
    case Final(reason) => slot == Done(token, reason)
    case Deferred(path, symbol) => token.Text? && slot == Waiting(token.text, symbol) && token.text in deferred
  }

  ghost predicate SlotsFor(w: World, tokens: seq<Token>, slots: seq<Slot>, deferred: Pending) {
    |slots| == |tokens| && forall i :: 0 <= i < |tokens| ==> SlotFor(w, tokens[i], slots[i], deferred)
  }

  /** What is deferred is what its own token says. */
  ghost predicate Honest(w: World, deferred: Pending) {
    forall t :: t in deferred ==> Classify(w, Text(t)) == Deferred(deferred[t].0, deferred[t].1)
  }

  /** Phase A over one document. */
  method SlotDocument(w: World, tokens: seq<Token>, deferred0: Pending) returns (slots: seq<Slot>, deferred: Pending)
    requires Honest(w, deferred0)
    ensures Honest(w, deferred) && deferred0.Keys <= deferred.Keys
    ensures SlotsFor(w, tokens, slots, deferred)
  {
    slots, deferred := [], deferred0;
    for i := 0 to |tokens|
      invariant Honest(w, deferred) && deferred0.Keys <= deferred.Keys
      invariant SlotsFor(w, tokens[..i], slots, deferred)
    {
      var local := Classify(w, tokens[i]);
      match local {
        case Final(reason) =>
          slots := slots + [Done(tokens[i], reason)];
        case Deferred(path, symbol) =>
          deferred := deferred[tokens[i].text := (path, symbol)];
          slots := slots + [Waiting(tokens[i].text, symbol)];
      }
    }
    TakeWhole(tokens);
  }

  ghost predicate Resolved(w: World, deferred: Pending, results: map<string, Entry>) {
    forall t :: t in deferred
        ==> t in results && results[t] == Verdict(w.query(w.graphPath(deferred[t].0)), deferred[t].1)
  }

  ghost predicate Requests(deferred: Pending, requests: seq<Request>) {
    && (forall i :: 0 <= i < |requests| ==>
        requests[i].token in deferred && deferred[requests[i].token] == (requests[i].path, requests[i].symbol))
    && (forall t :: t in deferred ==> exists i :: 0 <= i < |requests| && requests[i].token == t)
  }

  lemma {:induction false} SomeLast(requests: seq<Request>, t: string) returns (i: nat)
    requires exists k :: 0 <= k < |requests| && requests[k].token == t
    ensures i < |requests| && requests[i].token == t && Lasts(requests, i)
  {
    i := |requests| - 1;
    if requests[i].token != t {
      var init := requests[..i];
      var k :| 0 <= k < |requests| && requests[k].token == t;
      assert init[k].token == t;
      i := SomeLast(init, t);
    }
  }

  lemma AllResolved(w: World, deferred: Pending, requests: seq<Request>, results: map<string, Entry>)
    requires Requests(deferred, requests) && AnswersAll(w, requests, results)
    ensures Resolved(w, deferred, results)
  {
    forall t | t in deferred
      ensures t in results && results[t] == Verdict(w.query(w.graphPath(deferred[t].0)), deferred[t].1)
    {
      var i := SomeLast(requests, t);
      assert Answers(w, requests, results, i);
    }
  }

  /** The deferred tokens as one request list; a dict's own order does not matter to the batch. */
  method RequestList(deferred: Pending) returns (requests: seq<Request>)
    ensures Requests(deferred, requests)
  {
    requests := [];
    var left := deferred.Keys;
    while left != {}
      invariant left <= deferred.Keys
      invariant forall i :: 0 <= i < |requests| ==>
          requests[i].token in deferred && deferred[requests[i].token] == (requests[i].path, requests[i].symbol)
      invariant forall t :: t in deferred && t !in left ==> Listed(requests, t)
      decreases left
    {
      var t :| t in left;
      ListedMore(requests, Request(t, deferred[t].0, deferred[t].1));
      requests := requests + [Request(t, deferred[t].0, deferred[t].1)];
      left := left - {t};
    }
    assert forall t :: t in deferred ==> Listed(requests, t);
  }

  ghost predicate Listed(requests: seq<Request>, t: string) {
    exists i :: 0 <= i < |requests| && requests[i].token == t
  }

  lemma ListedMore(requests: seq<Request>, r: Request)
    ensures forall t :: Listed(requests, t) || t == r.token ==> Listed(requests + [r], t)
  {
    var more := requests + [r];
    assert more[|requests|].token == r.token;
    forall t | Listed(requests, t)
      ensures Listed(more, t)
    {
      var i :| 0 <= i < |requests| && requests[i].token == t;
      assert more[i].token == t;
    }
  }

  /** `_defer_reason`: a dead batch first, then the entry. */
  function DeferReason(batchUp: bool, results: map<string, Entry>, token: string,
                       symbol: Option<string>): Option<Reason> {
    if !batchUp || token !in results then Some(SourceUnavailable) else ReasonOf(results[token], symbol)
  }

  lemma SlotMeansAlone(w: World, token: Token, slot: Slot, deferred: Pending, results: map<string, Entry>)
    requires Honest(w, deferred) && SlotFor(w, token, slot, deferred) && (w.batchUp ==> Resolved(w, deferred, results))
    ensures slot.Done? ==> slot.token == token && slot.reason == Alone(w, token)
    ensures slot.Waiting?
        ==> token == Text(slot.name) && DeferReason(w.batchUp, results, slot.name, slot.symbol) == Alone(w, token)
  {
  }

  /** Phase C over one document. */
  method Assemble(w: World, ghost tokens: seq<Token>, slots: seq<Slot>, ghost deferred: Pending,
                  results: map<string, Entry>) returns (report: Report)
    requires Honest(w, deferred) && SlotsFor(w, tokens, slots, deferred) && (w.batchUp
        ==> Resolved(w, deferred, results))
    ensures report == Expected(w, tokens)
  {
    report := Report([], []);
    for i := 0 to |slots|
      invariant report == Expected(w, tokens[..i])
    {
      assert SlotFor(w, tokens[i], slots[i], deferred);
      SlotMeansAlone(w, tokens[i], slots[i], deferred, results);
      ExpectedMore(w, tokens, i);
      var token := match slots[i] case Done(t, _) => t case Waiting(name, _) => Text(name);
      var reason := match slots[i]
                    case Done(_, r) => r
                    case Waiting(name, symbol) => DeferReason(w.batchUp, results, name, symbol);
      report := if reason.None? then Report(report.verified + [token], report.unverified)
                else Report(report.verified, report.unverified + [Failure(token, reason.value)]);
    }
    TakeWhole(tokens);
  }

  lemma ExpectedMore(w: World, tokens: seq<Token>, i: nat)
    requires i < |tokens|
    ensures var before := Expected(w, tokens[..i]);
            Expected(w, tokens[..i + 1]) ==
              if Alone(w, tokens[i]).None? then Report(before.verified + [tokens[i]], before.unverified)
              else Report(before.verified, before.unverified + [Failure(tokens[i], Alone(w, tokens[i]).value)])
  {
    assert tokens[..i + 1][..i] == tokens[..i];
  }

  ghost predicate AllSlotted(w: World, docs: seq<seq<Token>>, slots: seq<seq<Slot>>, deferred: Pending) {
    |slots| == |docs| && forall d :: 0 <= d < |docs| ==> SlotsFor(w, docs[d], slots[d], deferred)
  }

  method SlotAll(w: World, docs: seq<seq<Token>>) returns (slots: seq<seq<Slot>>, deferred: Pending)
    ensures Honest(w, deferred) && AllSlotted(w, docs, slots, deferred)
  {
    slots, deferred := [], map[];
    for d := 0 to |docs|
      invariant Honest(w, deferred) && AllSlotted(w, docs[..d], slots, deferred)
    {
      var mine, more := SlotDocument(w, docs[d], deferred);
      slots, deferred := slots + [mine], more;
      TakeNext(docs, d);
    }
    TakeWhole(docs);
  }

  /**
   TWO PHASES, ONE ANSWER. However tokens and paths repeat within and across documents, each document's
   report is what looking up its tokens one by one would give.
  */
  method Verify(w: World, docs: seq<seq<Token>>) returns (reports: seq<Report>)
    ensures |reports| == |docs|
    ensures forall d :: 0 <= d < |docs| ==> reports[d] == Expected(w, docs[d])
  {
    var slots, deferred := SlotAll(w, docs);
    var results: map<string, Entry> := map[];
    if deferred != map[] && w.batchUp {
      var requests := RequestList(deferred);
      ghost var asked;
      results, asked := ResolveBatch(w, requests);
      AllResolved(w, deferred, requests, results);
    }
    reports := [];
    for d := 0 to |docs|
      invariant |reports| == d
      invariant forall e :: 0 <= e < d ==> reports[e] == Expected(w, docs[e])
    {
      assert SlotsFor(w, docs[d], slots[d], deferred);
      var report := Assemble(w, docs[d], slots[d], deferred, results);
      reports := reports + [report];
    }
  }
}
