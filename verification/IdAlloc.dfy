/** Identities with a number in them: formatting, reading back, and the floor a new number must clear. */
module IdAlloc {
  import opened Common
  import opened Decimal
  import Text

  const SCOPE := "PS-"
  const CANDIDATE := "SC-"

  /** `fmt`: `PS-007`, `SC-012`, `PS-1234`. */
  function Fmt(prefix: string, n: nat): string {
    prefix + Padded(n, 3)
  }

  /** `next_id`: the number that clears the counter and the floor, whatever either was set to by hand. */
  function Next(counter: int, floor: nat): (n: nat)
    ensures n > counter && n > floor && (n == counter + 1 || n == floor + 1)
  {
    (if counter > floor then counter else floor) + 1
  }

  /** The longest run of digits at the front. */
  function DigitRun(s: string): (r: string)
    ensures r <= s && AllDigits(r)
    ensures |r| < |s| ==> !IsDigit(s[|r|])
  {
    if s == "" || !IsDigit(s[0]) then "" else [s[0]] + DigitRun(s[1..])
  }

  /** `parse_num`: the number right after the prefix, whatever follows it; nothing on any other text. */
  function ParseNum(prefix: string, id: string): Option<nat> {
    if prefix <= id && DigitRun(id[|prefix|..]) != "" then Some(Value(DigitRun(id[|prefix|..]))) else None
  }

  lemma {:induction false} RunOfDigits(digits: string, tail: string)
    requires AllDigits(digits) && (tail != "" ==> !IsDigit(tail[0]))
    ensures DigitRun(digits + tail) == digits
  {
    if digits != "" {
      RunOfDigits(digits[1..], tail);
      assert (digits + tail)[1..] == digits[1..] + tail;
    } else {
      assert digits + tail == tail;
    }
  }

  /** Reading back what was formatted, even with a name appended to it. */
  lemma ParseFmt(prefix: string, n: nat, tail: string)
    requires tail != "" ==> !IsDigit(tail[0])
    ensures ParseNum(prefix, Fmt(prefix, n) + tail) == Some(n)
  {
    var id := Fmt(prefix, n) + tail;
    assert id == prefix + (Padded(n, 3) + tail);
    assert id[|prefix|..] == Padded(n, 3) + tail;
    RunOfDigits(Padded(n, 3), tail);
    ValueOfPadded(n, 3);
  }

  lemma ParseOwn(prefix: string, n: nat)
    ensures ParseNum(prefix, Fmt(prefix, n)) == Some(n)
  {
    ParseFmt(prefix, n, "");
    assert Fmt(prefix, n) + "" == Fmt(prefix, n);
  }

  lemma FmtIsTrimmed(prefix: string, n: nat)
    requires prefix != "" && !Text.IsSpace(prefix[0])
    ensures Text.Trimmed(Fmt(prefix, n))
  {
    var digits := Padded(n, 3);
    assert IsDigit(digits[|digits| - 1]);
  }

  lemma FmtInjective(prefix: string, m: nat, n: nat)
    ensures Fmt(prefix, m) == Fmt(prefix, n) ==> m == n
  {
    ParseOwn(prefix, m);
    ParseOwn(prefix, n);
  }

  /** The numbers of the ids of this kind, in order and with repetitions. */
  function Numbers(prefix: string, ids: seq<string>): (ns: seq<nat>)
    ensures forall n :: n in ns <==> exists i :: 0 <= i < |ids| && ParseNum(prefix, ids[i]) == Some(n)
  {
    if ids == [] then []
    else
      var last := ParseNum(prefix, ids[|ids| - 1]);
      assert ids == ids[..|ids| - 1] + [ids[|ids| - 1]];
      Numbers(prefix, ids[..|ids| - 1]) + (if last.Some? then [last.value] else [])
  }

  predicate AtMost(ns: seq<nat>, top: nat) {
    forall i :: 0 <= i < |ns| ==> ns[i] <= top
  }

  /** The largest number among the ids of this kind, 0 when there is none. */
  function Largest(prefix: string, ids: seq<string>): (top: nat)
    ensures AtMost(Numbers(prefix, ids), top)
    ensures top == 0 || top in Numbers(prefix, ids)
  {
    if ids == [] then 0
    else
      var before, n := Largest(prefix, ids[..|ids| - 1]), ParseNum(prefix, ids[|ids| - 1]);
      if n.Some? && n.value > before then n.value else before
  }

  lemma {:induction false} LargestOfBoth(prefix: string, a: seq<string>, b: seq<string>)
    ensures Largest(prefix, a + b) == Largest(prefix, a) || Largest(prefix, a + b) == Largest(prefix, b)
    ensures Largest(prefix, a + b) >= Largest(prefix, a) && Largest(prefix, a + b) >= Largest(prefix, b)
  {
    if b == [] {
      assert a + b == a;
    } else {
      var init := b[..|b| - 1];
      assert (a + b)[..|a + b| - 1] == a + init;
      LargestOfBoth(prefix, a, init);
    }
  }

  /** `scan_max`. */
  method ScanMax(prefix: string, ids: seq<string>) returns (top: nat)
    ensures top == Largest(prefix, ids)
    ensures AtMost(Numbers(prefix, ids), top)
    ensures top == 0 || top in Numbers(prefix, ids)
  {
    top := 0;
    for i := 0 to |ids|
      invariant top == Largest(prefix, ids[..i])
    {
      assert ids[..i + 1][..i] == ids[..i];
      var n := ParseNum(prefix, ids[i]);
      if n.Some? && n.value > top { top := n.value; }
    }
    assert ids[..|ids|] == ids;
  }
}
