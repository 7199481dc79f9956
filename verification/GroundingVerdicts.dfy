/** Exactly which tokens are verified, and why the others are not, in terms of what a token spells. */
module GroundingVerdicts {
  import opened Common
  import opened Grounding

  /** The first two colons in a row, if any, stand at place k or later. */
  predicate NoDoubleColonBefore(s: string, k: nat) {
    forall i :: 0 <= i < k && i + 1 < |s| ==> !(s[i] == ':' && s[i + 1] == ':')
  }

  function Tail(symbol: Option<string>): string {
    if symbol.Some? then "::" + symbol.value else ""
  }

  /** The text reads scheme, colon, path, and behind the first two colons in a row a symbol, if there are any. */
  predicate Reads(text: string, scheme: string, path: string, symbol: Option<string>) {
    && text == scheme + ":" + (path + Tail(symbol)) && ':' !in scheme
    && NoDoubleColonBefore(path + Tail(symbol), |path|)
  }

  lemma {:induction false} FirstIndex(s: string, c: char, i: nat)
    requires i < |s| && s[i] == c && c !in s[..i]
    ensures IndexOf(s, c) == i
  {
    if i > 0 {
      assert s[..i] == [s[0]] + s[1..][..i - 1];
      FirstIndex(s[1..], c, i - 1);
    }
  }

  lemma {:induction false} FirstDoubleColon(s: string, k: nat)
    requires k <= |s| && NoDoubleColonBefore(s, k)
    requires k < |s| ==> k + 1 < |s| && s[k] == ':' && s[k + 1] == ':'
    ensures DoubleColon(s) == k
    decreases s
  {
    if |s| >= 2 && k > 0 {
      var rest := s[1..];
      forall i | 0 <= i < k - 1 && i + 1 < |rest|
        ensures !(rest[i] == ':' && rest[i + 1] == ':')
      {
        assert rest[i] == s[i + 1] && rest[i + 1] == s[i + 2];
      }
      FirstDoubleColon(rest, k - 1);
    }
  }

  /** The token is taken apart the way it reads. */
  lemma TakenApart(text: string, scheme: string, path: string, symbol: Option<string>)
    requires Reads(text, scheme, path, symbol)
    ensures ':' in text && IndexOf(text, ':') == |scheme|
    ensures text[..|scheme|] == scheme && text[|scheme| + 1..] == path + Tail(symbol)
    ensures DoubleColon(path + Tail(symbol)) == |path| && (path + Tail(symbol))[..|path|] == path
    ensures symbol.Some? ==> |path| < |path + Tail(symbol)| && (path + Tail(symbol))[|path| + 2..] == symbol.value
    ensures symbol.None? ==> |path| == |path + Tail(symbol)|
  {
    assert text[|scheme|] == ':' && text[..|scheme|] == scheme;
    FirstIndex(text, ':', |scheme|);
    FirstDoubleColon(path + Tail(symbol), |path|);
  }

  /** Every text with a colon in it reads in some way. */
  lemma EveryTokenReads(text: string) returns (scheme: string, path: string, symbol: Option<string>)
    requires ':' in text
    ensures Reads(text, scheme, path, symbol)
  {
    var i := IndexOf(text, ':');
    assert text[..|text|] == text;
    var rest := text[i + 1..];
    assert text == text[..i] + ":" + rest;
    scheme := text[..i];
    path, symbol := RestReads(rest);
  }

  lemma RestReads(rest: string) returns (path: string, symbol: Option<string>)
    ensures rest == path + Tail(symbol) && NoDoubleColonBefore(rest, |path|)
  {
    var k := DoubleColon(rest);
    DoubleColonIsFirst(rest);
    path := rest[..k];
    symbol := if k < |rest| then Some(rest[k + 2..]) else None;
    assert k < |rest| ==> rest[k..k + 2] == "::";
    assert rest == path + Tail(symbol);
  }

  lemma {:induction false} DoubleColonIsFirst(s: string)
    ensures NoDoubleColonBefore(s, DoubleColon(s))
  {
    if |s| >= 2 && !(s[0] == ':' && s[1] == ':') {
      DoubleColonIsFirst(s[1..]);
      forall i | 0 <= i < DoubleColon(s) && i + 1 < |s|
        ensures !(s[i] == ':' && s[i + 1] == ':')
      {
        if i > 0 { assert s[1..][i - 1] == s[i] && s[1..][i] == s[i + 1]; }
      }
    }
  }

  // ---- what a path and a symbol must be like ----

  /** A path that can be a ground: it is there, and it is no pattern. */
  predicate Plain(path: string) {
    path != "" && forall i :: 0 <= i < |path| ==> path[i] != '*' && path[i] != '?' && path[i] != '['
  }

  lemma PlainMeans(path: string)
    ensures Plain(path) <==> path != "" && !HasGlob(path)
  {
  }

  /** A letter, a digit or an underscore. */
  predicate PartOfAWord(c: char) {
    c == '_' || 'a' <= c <= 'z' || 'A' <= c <= 'Z' || '0' <= c <= '9'
  }

  /** The symbol stands at place i of the text, with no letter, digit or underscore right before or behind it. */
  predicate StandsAt(text: string, symbol: string, i: int) {
    && 0 <= i <= |text| - |symbol| && text[i..i + |symbol|] == symbol
    && (i > 0 ==> !PartOfAWord(text[i - 1])) && (i + |symbol| < |text| ==> !PartOfAWord(text[i + |symbol|]))
  }

  lemma MentionsExactly(text: string, symbol: string)
    ensures Mentions(text, symbol) <==> exists i :: StandsAt(text, symbol, i)
  {
    if i :| StandsAt(text, symbol, i) { assert WordAt(text, symbol, i); }
    if Mentions(text, symbol) {
      var i :| 0 <= i <= |text| - |symbol| && WordAt(text, symbol, i);
      assert StandsAt(text, symbol, i);
    }
  }

  // ---- the verdicts ----

  /** Which rule a token falls under, by its scheme. */
  lemma ByScheme(w: World, text: string, scheme: string, raw: string, symbol: Option<string>)
    requires Reads(text, scheme, raw, symbol)
    ensures scheme == "vault" ==> Classify(w, Text(text)) == Final(VaultReason(w, w.tidy(raw), symbol))
    ensures scheme == "file" ==> Classify(w, Text(text)) == Final(FileReason(w, w.tidy(raw), symbol))
    ensures scheme == "crg" ==>
              Classify(w, Text(text)) ==
              if !(Plain(w.tidy(raw)) && w.inRepo(w.tidy(raw))) then Final(Some(Malformed))
              else if !w.graphUp then Final(Some(SourceUnavailable))
              else Deferred(w.tidy(raw), symbol)
    ensures scheme !in {"vault", "file", "crg"} ==> Classify(w, Text(text)) == Final(Some(Malformed))
  {
    AsItReads(w, text, scheme, raw, symbol);
    PlainMeans(w.tidy(raw));
  }

  lemma AsItReads(w: World, text: string, scheme: string, raw: string, symbol: Option<string>)
    requires Reads(text, scheme, raw, symbol)
    ensures Classify(w, Text(text)) == ClassifyParts(w, scheme, w.tidy(raw), symbol)
  {
    TakenApart(text, scheme, raw, symbol);
    CutUp(w, text, |scheme|, raw + Tail(symbol), |raw|, symbol);
  }

  lemma CutUp(w: World, text: string, i: nat, rest: string, k: nat, symbol: Option<string>)
    requires ':' in text && i == IndexOf(text, ':') && i < |text| && rest == text[i + 1..] && k == DoubleColon(rest)
    requires symbol == if k < |rest| then Some(rest[k + 2..]) else None
    ensures Classify(w, Text(text)) == ClassifyParts(w, text[..i], w.tidy(rest[..k]), symbol)
  {
  }

  /**
   A vault token is verified exactly when it has a plain path and no symbol, the vault is known, and the file is there.
  */
  lemma VaultTokenExactly(w: World, text: string, raw: string, symbol: Option<string>)
    requires Reads(text, "vault", raw, symbol)
    ensures var path, verdict := w.tidy(raw), Alone(w, Text(text));
            var proper := symbol.None? && Plain(path);
            && (verdict == None <==> proper && w.vaultKnown && w.vaultHas(path))
            && (verdict == Some(Malformed) <==> !proper)
            && (verdict == Some(SourceUnavailable) <==> proper && !w.vaultKnown)
            && (verdict == Some(FileAbsent) <==> proper && w.vaultKnown && !w.vaultHas(path))
  {
    ByScheme(w, text, "vault", raw, symbol);
    PlainMeans(w.tidy(raw));
  }

  /**
   A file token is verified exactly when its plain path leads to a file of the repository, and its symbol, if any,
   stands in the text of that file as a word of its own.
  */
  lemma FileTokenExactly(w: World, text: string, raw: string, symbol: Option<string>)
    requires Reads(text, "file", raw, symbol)
    ensures var path, verdict := w.tidy(raw), Alone(w, Text(text));
            var proper := Plain(path) && w.inRepo(path);
            var readable := symbol.Some? ==> w.readFile(path).Some?;
            var named := symbol.Some? && readable ==> exists i :: StandsAt(w.readFile(path).value, symbol.value, i);
            && (verdict == None <==> proper && w.repoHas(path) && readable && named)
            && (verdict == Some(Malformed) <==> !proper)
            && (verdict == Some(FileAbsent) <==> proper && !(w.repoHas(path) && readable))
            && (verdict == Some(SymbolAbsent) <==> proper && w.repoHas(path) && readable && !named)
  {
    ByScheme(w, text, "file", raw, symbol);
    PlainMeans(w.tidy(raw));
    if symbol.Some? && w.readFile(w.tidy(raw)).Some? {
      MentionsExactly(w.readFile(w.tidy(raw)).value, symbol.value);
    }
  }

  /** The graph lists a file, and lists no second one under another name. */
  predicate OneFile(results: seq<Node>) {
    (exists i :: 0 <= i < |results| && results[i].isFile) && !TwoFiles(results)
  }

  predicate TwoFiles(results: seq<Node>) {
    exists i, j :: 0 <= i < |results| && 0 <= j < |results| && OtherFiles(results[i], results[j])
  }

  predicate OtherFiles(a: Node, b: Node) {
    a.isFile && b.isFile && a.name != b.name
  }

  predicate Lists(results: seq<Node>, symbol: string) {
    exists i :: 0 <= i < |results| && !results[i].isFile && results[i].name == symbol
  }

  lemma TwoFilesMeans(results: seq<Node>)
    ensures TwoFiles(results) <==> |FileNames(results)| > 1
  {
    var names := FileNames(results);
    if TwoFiles(results) {
      var i, j :| 0 <= i < |results| && 0 <= j < |results| && OtherFiles(results[i], results[j]);
      assert {results[i].name, results[j].name} <= names;
      assert |{results[i].name, results[j].name}| == 2;
      Fewer({results[i].name, results[j].name}, names);
    }
    if |names| > 1 {
      var x :| x in names;
      var rest := names - {x};
      assert |rest| > 0;
      var y :| y in rest;
      var i :| 0 <= i < |results| && results[i].isFile && results[i].name == x;
      var j :| 0 <= j < |results| && results[j].isFile && results[j].name == y;
      assert OtherFiles(results[i], results[j]);
    }
  }

  lemma EntryMeans(results: seq<Node>, symbol: Option<string>)
    ensures var reason := ReasonOf(Verdict(results, symbol), symbol);
            var named := symbol.Some? ==> Lists(results, symbol.value);
            && (reason == None <==> OneFile(results) && named)
            && (reason == Some(AmbiguousMatch) <==> TwoFiles(results))
            && (reason == Some(NotIndexed) <==> !TwoFiles(results) && !OneFile(results))
            && (reason == Some(SymbolAbsent) <==> OneFile(results) && !named)
            && reason != Some(Malformed) && reason != Some(SourceUnavailable)
  {
    TwoFilesMeans(results);
  }

  lemma Fewer(a: set<string>, b: set<string>)
    requires a <= b
    ensures |a| <= |b|
  {
    assert b == a + (b - a);
  }

  /**
   A graph token is verified exactly when its plain path lies in the repository, graph and batch are up, one file and
   no other answers for it, and its symbol, if any, is listed there.
  */
  lemma GraphTokenExactly(w: World, text: string, raw: string, symbol: Option<string>)
    requires Reads(text, "crg", raw, symbol)
    ensures var path, verdict := w.tidy(raw), Alone(w, Text(text));
            var results := w.query(w.graphPath(path));
            var proper, up := Plain(path) && w.inRepo(path), w.graphUp && w.batchUp;
            var named := symbol.Some? ==> Lists(results, symbol.value);
            && (verdict == None <==> proper && up && OneFile(results) && named)
            && (verdict == Some(Malformed) <==> !proper)
            && (verdict == Some(SourceUnavailable) <==> proper && !up)
            && (verdict == Some(AmbiguousMatch) <==> proper && up && TwoFiles(results))
            && (verdict == Some(NotIndexed) <==> proper && up && !TwoFiles(results) && !OneFile(results))
            && (verdict == Some(SymbolAbsent) <==> proper && up && OneFile(results) && !named)
  {
    ByScheme(w, text, "crg", raw, symbol);
    EntryMeans(w.query(w.graphPath(w.tidy(raw))), symbol);
  }

  /** Everything else is malformed: what is no text, has no colon, or names another scheme. */
  lemma OtherTokensAreMalformed(w: World, token: Token)
    ensures (token.Other? || ':' !in token.text) ==> Alone(w, token) == Some(Malformed)
    ensures token.Text? ==>
              forall scheme, raw, symbol :: Reads(token.text, scheme, raw, symbol) ==>
                scheme !in {"vault", "file", "crg"} ==> Alone(w, token) == Some(Malformed)
  {
    if token.Text? {
      forall scheme, raw, symbol | Reads(token.text, scheme, raw, symbol) && scheme !in {"vault", "file", "crg"}
        ensures Alone(w, token) == Some(Malformed)
      {
        ByScheme(w, token.text, scheme, raw, symbol);
      }
    }
  }
}
