/**
 Text writes to one shared file: line-ending normalization, the compare-and-swap rewrite, the locked
 mutation, and the append that loops over short writes. Each runs under the file's lock, so a run of them is
 a sequence of steps.
*/
module VaultWrite {
  import opened Common

  type Byte = b: int | 0 <= b < 256

  type Bytes = seq<Byte>

  const CR: Byte := 13
  const LF: Byte := 10

  // ---- line endings ----

  /** `_normalize_eol`: every CRLF pair becomes LF; lone CRs stay. */
  function Normalize(data: Bytes): Bytes {
    if data == [] then []
    else if |data| >= 2 && data[0] == CR && data[1] == LF then [LF] + Normalize(data[2..])
    else [data[0]] + Normalize(data[1..])
  }

  /** Every LF becomes CRLF. */
  function Expand(data: Bytes): Bytes {
    if data == [] then []
    else (if data[0] == LF then [CR, LF] else [data[0]]) + Expand(data[1..])
  }

  predicate PairAt(data: Bytes, i: nat)
    requires i < |data|
  {
    i + 1 < |data| && data[i] == CR && data[i + 1] == LF
  }

  /** `_detect_eol` finds CRLF. */
  predicate HasCrlf(data: Bytes) {
    exists i :: 0 <= i < |data| && PairAt(data, i)
  }

  /** Normalizing undoes expanding, lone CRs and CRLF pairs in the text included. */
  lemma {:induction false} NormalizeUndoesExpand(data: Bytes)
    ensures Normalize(Expand(data)) == data
  {
    if data != [] {
      NormalizeUndoesExpand(data[1..]);
      var rest := Expand(data[1..]);
      if data[0] == LF {
        assert ([CR, LF] + rest)[2..] == rest;
      } else {
        assert ([data[0]] + rest)[1..] == rest;
      }
    }
  }

  /** Expand-after-normalize settles at once. */
  lemma ReapplyIsIdempotent(data: Bytes)
    ensures Expand(Normalize(Expand(Normalize(data)))) == Expand(Normalize(data))
  {
    NormalizeUndoesExpand(Normalize(data));
  }

  predicate TripleAt(data: Bytes, i: nat)
    requires i < |data|
  {
    i + 2 < |data| && data[i] == CR && data[i + 1] == CR && data[i + 2] == LF
  }

  predicate HasTriple(data: Bytes) {
    exists i :: 0 <= i < |data| && TripleAt(data, i)
  }

  lemma TailHasCrlf(data: Bytes, k: nat)
    requires k <= |data| && HasCrlf(data[k..])
    ensures HasCrlf(data)
  {
    var i :| 0 <= i < |data[k..]| && PairAt(data[k..], i);
    assert PairAt(data, k + i);
  }

  lemma {:induction false} NoCrlfIsFixed(data: Bytes)
    ensures !HasCrlf(data) <==> Normalize(data) == data
  {
    if data != [] {
      if PairAt(data, 0) {
        NormalizeShrinks(data[2..]);
      } else {
        NoCrlfIsFixed(data[1..]);
        assert Normalize(data) == [data[0]] + Normalize(data[1..]) && data == [data[0]] + data[1..];
        if HasCrlf(data[1..]) { TailHasCrlf(data, 1); }
        if HasCrlf(data) {
          var i :| 0 <= i < |data| && PairAt(data, i);
          assert PairAt(data[1..], i - 1);
        }
      }
    }
  }

  lemma {:induction false} NormalizeShrinks(data: Bytes)
    ensures |Normalize(data)| <= |data|
  {
    if data != [] {
      if PairAt(data, 0) { NormalizeShrinks(data[2..]); } else { NormalizeShrinks(data[1..]); }
    }
  }

  /** A CRLF is left after normalizing exactly where a CR stood before a CRLF. */
  lemma {:induction false} CrlfAfterNormalize(data: Bytes)
    ensures HasCrlf(Normalize(data)) <==> HasTriple(data)
  {
    if data != [] {
      if PairAt(data, 0) {
        CrlfAfterNormalize(data[2..]);
        ShiftCrlf(Normalize(data), LF, Normalize(data[2..]));
        ShiftTriple(data, 2);
        assert !TripleAt(data, 0) && !TripleAt(data, 1);
      } else {
        CrlfAfterNormalize(data[1..]);
        ShiftCrlf(Normalize(data), data[0], Normalize(data[1..]));
        ShiftTriple(data, 1);
      }
    }
  }

  lemma ShiftCrlf(whole: Bytes, first: Byte, rest: Bytes)
    requires whole == [first] + rest
    ensures HasCrlf(whole) <==> HasCrlf(rest) || PairAt(whole, 0)
  {
    if HasCrlf(rest) {
      assert whole[1..] == rest;
      TailHasCrlf(whole, 1);
    }
    if HasCrlf(whole) && !PairAt(whole, 0) {
      var i :| 0 <= i < |whole| && PairAt(whole, i);
      assert PairAt(rest, i - 1);
    }
  }

  lemma ShiftTriple(data: Bytes, k: nat)
    requires 1 <= k <= 2 && k <= |data|
    ensures HasTriple(data) <==> HasTriple(data[k..]) || TripleAt(data, 0) || (k == 2 && TripleAt(data, 1))
  {
    if HasTriple(data[k..]) {
      var i :| 0 <= i < |data[k..]| && TripleAt(data[k..], i);
      assert TripleAt(data, k + i);
    }
    if HasTriple(data) && !TripleAt(data, 0) && !(k == 2 && TripleAt(data, 1)) {
      var i :| 0 <= i < |data| && TripleAt(data, i);
      assert TripleAt(data[k..], i - k);
    }
  }

  /** Normalizing twice differs from normalizing once exactly on texts with CR CR LF in them. */
  lemma NormalizeTwice(data: Bytes)
    ensures Normalize(Normalize(data)) == Normalize(data) <==> !HasTriple(data)
  {
    NoCrlfIsFixed(Normalize(data));
    CrlfAfterNormalize(data);
  }

  /** CR CR LF: the first pass leaves a CRLF for the second one to take away. */
  lemma TwoCarriageReturns()
    ensures Normalize([CR, CR, LF]) == [CR, LF] && Normalize([CR, LF]) == [LF]
  {
    assert [CR, CR, LF][1..] == [CR, LF] && [CR, LF][2..] == [];
    assert Normalize([]) == [];
  }

  /** What is written for a text on a target with, or without, CRLF line endings. */
  function Saved(text: Bytes, crlf: bool): Bytes {
    if crlf then Expand(Normalize(text)) else text
  }

  /** Whatever the target's line endings, what is saved reads back as the text. */
  lemma SavedReadsBack(text: Bytes, crlf: bool)
    ensures Normalize(Saved(text, crlf)) == Normalize(text)
  {
    NormalizeUndoesExpand(Normalize(text));
  }

  /** Every LF stands behind a CR. */
  predicate AllCrlf(data: Bytes) {
    forall i :: 0 <= i < |data| && data[i] == LF ==> i > 0 && data[i - 1] == CR
  }

  /** On a target with a CRLF only CRLF is written, and on any other the text, byte for byte. */
  ghost predicate KeepsEndings(target: Bytes, text: Bytes, written: Bytes) {
    if exists i :: 0 <= i < |target| && PairAt(target, i) then AllCrlf(written) else written == text
  }

  /** What is saved on a CRLF target has CRLF line endings only, and on any other it is the text, byte for byte. */
  lemma SavedKeepsTheEndings(text: Bytes, crlf: bool)
    ensures crlf ==> AllCrlf(Saved(text, crlf))
    ensures !crlf ==> Saved(text, crlf) == text
  {
    var data := Normalize(text);
    forall i | 0 <= i < |Expand(data)| && Expand(data)[i] == LF
      ensures i > 0 && Expand(data)[i - 1] == CR
    {
      EveryLfHasItsCr(data, i);
    }
  }

  /** Line endings are kept: on a CRLF target every LF written has its CR. */
  lemma {:induction false} EveryLfHasItsCr(data: Bytes, i: nat)
    requires i < |Expand(data)| && Expand(data)[i] == LF
    ensures i > 0 && Expand(data)[i - 1] == CR
  {
    var head := if data[0] == LF then [CR, LF] else [data[0]];
    if i >= |head| { EveryLfHasItsCr(data[1..], i - |head|); }
  }

  // ---- the file ----

  /** A caller's change, as a function of the text it saw with line endings normalized. */
  type Edit = Bytes -> Bytes

  ghost predicate Committed(state: Bytes, edit: Edit, next: Bytes) {
    Normalize(next) == Normalize(edit(Normalize(state)))
  }

  /** The file went through these states by these edits, each applied to the state it replaced. */
  ghost predicate IsRun(states: seq<Bytes>, edits: seq<Edit>) {
    |states| == |edits| + 1 && forall k :: 0 <= k < |edits| ==> Committed(states[k], edits[k], states[k + 1])
  }

  ghost function Composed(text: Bytes, edits: seq<Edit>): Bytes {
    if edits == [] then text else Normalize(edits[|edits| - 1](Composed(text, edits[..|edits| - 1])))
  }

  /** NO LOST UPDATE: the text at the end is the committed edits applied one after another, none dropped. */
  lemma {:induction false} NoLostUpdate(states: seq<Bytes>, edits: seq<Edit>)
    requires IsRun(states, edits)
    ensures Normalize(states[|states| - 1]) == Composed(Normalize(states[0]), edits)
  {
    if edits != [] {
      var before, done := states[..|states| - 1], edits[..|edits| - 1];
      forall k | 0 <= k < |done|
        ensures Committed(before[k], done[k], before[k + 1])
      {
        assert Committed(states[k], edits[k], states[k + 1]);
      }
      NoLostUpdate(before, done);
      assert Committed(states[|edits| - 1], edits[|edits| - 1], states[|edits|]);
    }
  }

  class Target {
    /** The file's bytes, or nothing when it does not exist. */
    var content: Option<Bytes>
    ghost var states: seq<Bytes>
    ghost var edits: seq<Edit>

    function Current(): Bytes
      reads this
    {
      if content.Some? then content.value else []
    }

    ghost predicate Valid()
      reads this
    {
      IsRun(states, edits) && states[|states| - 1] == Current()
    }

    constructor (content: Option<Bytes>)
      ensures Valid() && this.content == content && states == [Current()] && edits == []
    {
      this.content := content;
      states, edits := [if content.Some? then content.value else []], [];
    }

    /** The atomic replace that ends a successful write. */
    method Replace(data: Bytes, ghost edit: Edit)
      requires Valid() && Committed(Current(), edit, data)
      modifies this
      ensures Valid() && content == Some(data)
      ensures states == old(states) + [data] && edits == old(edits) + [edit]
    {
      content := Some(data);
      states, edits := states + [data], edits + [edit];
    }

    /**
     `safe_rewrite_text`: writes the text only if the file still is, up to line endings, what the caller read
     before editing; otherwise refuses and touches nothing.
    */
    method Rewrite(text: Bytes, expected: Bytes, ghost edit: Edit) returns (ok: bool)
      requires Valid() && text == edit(Normalize(expected))
      modifies this
      ensures Valid()
      ensures ok <==> Normalize(old(Current())) == Normalize(expected)
      ensures !ok ==> content == old(content) && states == old(states) && edits == old(edits)
      ensures ok ==> content == Some(Saved(text, HasCrlf(if old(Current()) != [] then old(Current()) else expected)))
      ensures ok ==> KeepsEndings(if old(Current()) != [] then old(Current()) else expected, text, content.value)
      ensures ok ==> edits == old(edits) + [edit]
    {
      var current := Current();
      if Normalize(current) != Normalize(expected) {
        return false;
      }
      var crlf := HasCrlf(if current != [] then current else expected);
      SavedReadsBack(text, crlf);
      SavedKeepsTheEndings(text, crlf);
      Replace(Saved(text, crlf), edit);
      ok := true;
    }

    /** `safe_mutate_text`: the change is computed from the text under the lock; raising leaves the file alone. */
    method Mutate(mutate: Bytes -> Option<Bytes>, ghost edit: Edit) returns (ok: bool)
      requires Valid() && (mutate(Current()).Some? ==> mutate(Current()).value == edit(Normalize(Current())))
      modifies this
      ensures Valid()
      ensures ok <==> mutate(old(Current())).Some?
      ensures !ok ==> content == old(content) && states == old(states) && edits == old(edits)
      ensures ok ==> content == Some(Saved(mutate(old(Current())).value, HasCrlf(old(Current()))))
      ensures ok ==> KeepsEndings(old(Current()), mutate(old(Current())).value, content.value)
      ensures ok ==> edits == old(edits) + [edit]
    {
      var current := Current();
      var text := mutate(current);
      if text.None? {
        return false;
      }
      SavedReadsBack(text.value, HasCrlf(current));
      SavedKeepsTheEndings(text.value, HasCrlf(current));
      Replace(Saved(text.value, HasCrlf(current)), edit);
      ok := true;
    }
  }

  /**
   Two rewrites in a row, the second from the text of the first: if the first goes through, so does the second,
   and neither edit is lost.
  */
  method RewriteThenRewrite(target: Target, base: Bytes, first: Bytes, second: Bytes, ghost e: Edit, ghost f: Edit)
    returns (ok: bool, again: bool)
    requires target.Valid() && first == e(Normalize(base)) && second == f(Normalize(first))
    modifies target
    ensures target.Valid()
    ensures ok <==> Normalize(old(target.Current())) == Normalize(base)
    ensures ok ==> again && Normalize(target.Current()) == Normalize(second)
    ensures ok ==> target.edits == old(target.edits) + [e, f]
    ensures !ok ==> !again && target.content == old(target.content)
  {
    ok := target.Rewrite(first, base, e);
    if !ok {
      return false, false;
    }
    SavedReadsBack(first, HasCrlf(if old(target.Current()) != [] then old(target.Current()) else base));
    ghost var between := target.Current();
    again := target.Rewrite(second, first, f);
    SavedReadsBack(second, HasCrlf(if between != [] then between else first));
    assert old(target.edits) + [e] + [f] == old(target.edits) + [e, f];
  }

  // ---- append ----

  /** A file open for appending; `grants` is what each `write` call reports, in order, until one raises. */
  class Log {
    var content: Bytes

    constructor (content: Bytes)
      ensures this.content == content
    {
      this.content := content;
    }

    /** `safe_append_text`: loops over short writes to completion, or reports failure. */
    method Append(data: Bytes, grants: seq<int>) returns (ok: bool)
      modifies this
      ensures ok ==> content == old(content) + data
      ensures !ok ==> exists k :: 0 <= k < |data| && content == old(content) + data[..k]
      ensures ok <==> Suffices(grants, |data|)
    {
      var written, call := 0, 0;
      while written < |data|
        invariant 0 <= written <= |data| && 0 <= call <= |grants|
        invariant content == old(content) + data[..written]
        invariant Suffices(grants, |data|) <==> Suffices(grants[call..], |data| - written)
        decreases |data| - written
      {
        if call == |grants| || grants[call] <= 0 {
          return false;
        }
        var n := if grants[call] > |data| - written then |data| - written else grants[call];
        assert data[..written + n] == data[..written] + data[written..written + n];
        assert grants[call..][1..] == grants[call + 1..];
        content := content + data[written..written + n];
        written, call := written + n, call + 1;
      }
      assert data[..|data|] == data;
      ok := true;
    }
  }

  /** The write calls, each taking at least one byte, get through `n` bytes before one fails. */
  ghost predicate Suffices(grants: seq<int>, n: int) {
    n <= 0 || (grants != [] && grants[0] > 0 && Suffices(grants[1..], n - grants[0]))
  }
}
