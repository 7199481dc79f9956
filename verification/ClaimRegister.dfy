/**
 The claim seam shared by every backend: a write-once register per candidate.
 A register value is None or the claim it holds, and it never passes from one claim to another
 without being cleared in between.
*/
module ClaimRegister {
  import opened Common
  import opened Text

  /** The HELD body as far as the protocol looks at it. */
  datatype Body = Body(token: string, email: string)

  /** Addresses are compared stripped and case-folded. */
  function Norm(email: string): string {
    Lower(Strip(email))
  }

  /** One atomic change of the register: a create from nil, a clear, or nothing. */
  predicate Sticks<T(==)>(before: Option<T>, after: Option<T>) {
    before == after || before.None? || after.None?
  }

  ghost predicate Sticky<T>(values: seq<Option<T>>) {
    forall i :: 0 <= i < |values| - 1 ==> Sticks(values[i], values[i + 1])
  }

  /** A claim that is gone was cleared, and the clearing saw that very claim. */
  lemma {:induction false} ClearedBetween<T>(values: seq<Option<T>>, first: int, last: int, held: T) returns (at: int)
    requires Sticky(values) && 0 <= first < last < |values|
    requires values[first] == Some(held) && values[last] != Some(held)
    ensures first <= at < last
    ensures values[at] == Some(held) && values[at + 1] == None
    decreases last - first
  {
    assert Sticks(values[first], values[first + 1]);
    if values[first + 1] != Some(held) {
      return first;
    }
    at := ClearedBetween(values, first + 1, last, held);
  }
}
