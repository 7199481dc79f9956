/** Small shared vocabulary: optional values and the string operations the modelled code leans on. */
module Common {

  datatype Option<+T> = None | Some(value: T)

  datatype Result<+T> = Ok(value: T) | Err
}

/** ASCII counterparts of the Python string operations used by several modules. */
module Text {

  /** `str.isspace()` of one character. */
  predicate IsSpace(c: char) {
    var n := c as int;
    || 9 <= n <= 13 || 28 <= n <= 32 || n in {0x85, 0xa0, 0x1680, 0x2028, 0x2029, 0x202f, 0x205f, 0x3000}
    || 0x2000 <= n <= 0x200a
  }

  /** `str.lstrip()` */
  function StripLeft(s: string): (r: string)
    ensures r != [] ==> !IsSpace(r[0])
    ensures r <= s || |r| < |s|
  {
    if s != [] && IsSpace(s[0]) then StripLeft(s[1..]) else s
  }

  /** `str.rstrip()` */
  function StripRight(s: string): (r: string)
    ensures r <= s
    ensures r != [] ==> !IsSpace(r[|r| - 1])
  {
    if s != [] && IsSpace(s[|s| - 1]) then StripRight(s[..|s| - 1]) else s
  }

  /** `str.strip()` */
  function Strip(s: string): (r: string)
    ensures Trimmed(r)
  {
    StripRight(StripLeft(s))
  }

  predicate Trimmed(s: string) {
    s != [] ==> !IsSpace(s[0]) && !IsSpace(s[|s| - 1])
  }

  /** Stripping leaves exactly the trimmed strings alone. */
  lemma StripKeepsTheTrimmed(s: string)
    ensures Strip(s) == s <==> Trimmed(s)
  {
  }

  predicate Blanks(s: string) {
    forall i :: 0 <= i < |s| ==> IsSpace(s[i])
  }

  /** Stripping takes away the blanks at both ends and nothing else. */
  lemma StripTakesOnlyBlanks(s: string) returns (a: string, b: string)
    ensures s == a + Strip(s) + b && Blanks(a) && Blanks(b)
  {
    a := LeftBlanks(s);
    b := RightBlanks(StripLeft(s));
    assert s == a + (Strip(s) + b);
  }

  lemma {:induction false} LeftBlanks(s: string) returns (a: string)
    ensures s == a + StripLeft(s) && Blanks(a)
  {
    a := "";
    if s != [] && IsSpace(s[0]) {
      a := LeftBlanks(s[1..]);
      a := [s[0]] + a;
    }
  }

  lemma {:induction false} RightBlanks(s: string) returns (b: string)
    ensures s == StripRight(s) + b && Blanks(b)
  {
    b := "";
    if s != [] && IsSpace(s[|s| - 1]) {
      b := RightBlanks(s[..|s| - 1]);
      b := b + [s[|s| - 1]];
    }
  }

  /** However the blanks are told from the rest, what is left is the same. */
  lemma StripIs(s: string, a: string, core: string, b: string)
    requires s == a + core + b && Blanks(a) && Blanks(b) && Trimmed(core)
    ensures Strip(s) == core
  {
    if core == "" {
      NothingButBlanks(s);
    } else {
      LeftIs(a, core + b);
      assert s == a + (core + b);
      RightIs(core, b);
    }
  }

  lemma {:induction false} NothingButBlanks(s: string)
    requires Blanks(s)
    ensures StripLeft(s) == ""
  {
    if s != "" { NothingButBlanks(s[1..]); }
  }

  lemma {:induction false} LeftIs(a: string, rest: string)
    requires Blanks(a) && rest != "" && !IsSpace(rest[0])
    ensures StripLeft(a + rest) == rest
  {
    if a == "" {
      assert a + rest == rest;
    } else {
      assert (a + rest)[1..] == a[1..] + rest;
      LeftIs(a[1..], rest);
    }
  }

  lemma {:induction false} RightIs(core: string, b: string)
    requires Blanks(b) && core != "" && !IsSpace(core[|core| - 1])
    ensures StripRight(core + b) == core
  {
    if b == "" {
      assert core + b == core;
    } else {
      var init := b[..|b| - 1];
      assert (core + b)[..|core + b| - 1] == core + init;
      RightIs(core, init);
    }
  }

  function LowerChar(c: char): char {
    if 'A' <= c <= 'Z' then ((c as int) + 32) as char else c
  }

  lemma LettersLower(i: nat)
    requires i < 26
    ensures LowerChar((('A' as int) + i) as char) == (('a' as int) + i) as char
  {
  }

  /** The blanks a keyboard has are blanks, and no ASCII character that prints is one. */
  lemma KeyboardBlanks(c: char)
    ensures c == ' ' || c == '\t' || c == '\n' || c == '\r' ==> IsSpace(c)
    ensures '!' <= c <= '~' ==> !IsSpace(c)
  {
  }

  /** `str.lower()` / `str.casefold()` on ASCII. */
  function Lower(s: string): (r: string)
    ensures |r| == |s|
    ensures forall i :: 0 <= i < |s| ==> r[i] == LowerChar(s[i])
  {
    if s == [] then [] else [LowerChar(s[0])] + Lower(s[1..])
  }

  /** Strings by character code. */
  predicate NameLess(a: string, b: string) {
    b != "" && (a == "" || a[0] < b[0] || (a[0] == b[0] && NameLess(a[1..], b[1..])))
  }

  lemma {:induction false} NamesCompare(a: string, b: string)
    ensures a == b || NameLess(a, b) || NameLess(b, a)
    ensures !(NameLess(a, b) && NameLess(b, a))
    ensures !NameLess(a, a)
  {
    if a != "" {
      if b != "" {
        NamesCompare(a[1..], b[1..]);
        assert a == [a[0]] + a[1..] && b == [b[0]] + b[1..];
      } else {
        NamesCompare(a[1..], b);
      }
    }
  }

  lemma {:induction false} NamesChain(a: string, b: string, c: string)
    requires NameLess(a, b) && NameLess(b, c)
    ensures NameLess(a, c)
  {
    if a != "" && a[0] == b[0] && b[0] == c[0] { NamesChain(a[1..], b[1..], c[1..]); }
  }

  /** The order of names: they agree up to some place, where the first one ends or has the smaller character. */
  lemma {:induction false} NameLessExactly(a: string, b: string)
    ensures NameLess(a, b) <==> exists i :: FirstDiffers(a, b, i)
  {
    if NameLess(a, b) {
      var i := WhereSmaller(a, b);
    }
    forall i | FirstDiffers(a, b, i)
      ensures NameLess(a, b)
    {
      SmallerThere(a, b, i);
    }
  }

  ghost predicate FirstDiffers(a: string, b: string, i: nat) {
    i <= |a| && i < |b| && a[..i] == b[..i] && (i == |a| || a[i] < b[i])
  }

  lemma {:induction false} WhereSmaller(a: string, b: string) returns (i: nat)
    requires NameLess(a, b)
    ensures FirstDiffers(a, b, i)
  {
    i := 0;
    if a != "" && a[0] == b[0] {
      i := WhereSmaller(a[1..], b[1..]);
      assert a[..i + 1] == [a[0]] + a[1..][..i] && b[..i + 1] == [b[0]] + b[1..][..i];
      i := i + 1;
    }
  }

  lemma {:induction false} SmallerThere(a: string, b: string, i: nat)
    requires FirstDiffers(a, b, i)
    ensures NameLess(a, b)
  {
    if i > 0 {
      assert a[..i][0] == a[0] && b[..i][0] == b[0];
      assert a[1..][..i - 1] == a[..i][1..] && b[1..][..i - 1] == b[..i][1..];
      SmallerThere(a[1..], b[1..], i - 1);
    }
  }

  /** `s.replace(c, "")` for a single character. */
  function Without(s: string, c: char): (r: string)
    ensures c !in r
  {
    if s == [] then [] else (if s[0] == c then [] else [s[0]]) + Without(s[1..], c)
  }
}

module Seqs {

  predicate NoDup<T(==)>(s: seq<T>) {
    forall i, j {:trigger Differ(s, i, j)} :: 0 <= i < j < |s| ==> Differ(s, i, j)
  }

  predicate Differ<T(==)>(s: seq<T>, i: nat, j: nat)
    requires i < j < |s|
  {
    s[i] != s[j]
  }

  lemma NoDupAppend<T>(s: seq<T>, x: T)
    ensures NoDup(s + [x]) <==> NoDup(s) && x !in s
  {
    var more := s + [x];
    if NoDup(more) {
      forall i | 0 <= i < |s|
        ensures s[i] != x
      {
        assert Differ(more, i, |s|);
      }
      forall i, j | 0 <= i < j < |s|
        ensures Differ(s, i, j)
      {
        assert Differ(more, i, j);
      }
    }
    if NoDup(s) && x !in s {
      forall i, j | 0 <= i < j < |more|
        ensures Differ(more, i, j)
      {
        if j < |s| { assert Differ(s, i, j); } else { assert s[i] in s; }
      }
    }
  }

  lemma NoDupJoin<T>(a: seq<T>, b: seq<T>)
    ensures NoDup(a + b) <==> NoDup(a) && NoDup(b) && forall x :: x in a ==> x !in b
  {
    var both := a + b;
    if NoDup(both) {
      forall i, j | 0 <= i < j < |a|
        ensures Differ(a, i, j)
      {
        assert Differ(both, i, j);
      }
      forall i, j | 0 <= i < j < |b|
        ensures Differ(b, i, j)
      {
        assert Differ(both, |a| + i, |a| + j);
      }
      forall i, j | 0 <= i < |a| && 0 <= j < |b|
        ensures a[i] != b[j]
      {
        assert Differ(both, i, |a| + j);
      }
    }
    if NoDup(a) && NoDup(b) && forall x :: x in a ==> x !in b {
      forall i, j | 0 <= i < j < |both|
        ensures Differ(both, i, j)
      {
        if j < |a| {
          assert Differ(a, i, j);
        } else if |a| <= i {
          assert Differ(b, i - |a|, j - |a|);
        } else {
          assert a[i] in a && b[j - |a|] in b;
        }
      }
    }
  }

  lemma TakeNext<T>(s: seq<T>, i: nat)
    requires i < |s|
    ensures s[..i + 1] == s[..i] + [s[i]]
  {
  }

  lemma TakeWhole<T>(s: seq<T>)
    ensures s[..|s|] == s
  {
  }

  lemma Place<T>(s: seq<T>, x: T) returns (i: nat)
    requires x in s
    ensures i < |s| && s[i] == x
  {
    i :| 0 <= i < |s| && s[i] == x;
  }

  /** Strictly increasing. */
  ghost predicate Ascending(s: seq<nat>) {
    forall i, j :: 0 <= i < j < |s| ==> s[i] < s[j]
  }

  function Elements<T(==,!new)>(s: seq<T>): (all: set<T>)
    ensures forall x :: x in all <==> x in s
  {
    set x | x in s
  }

  lemma {:induction false} ElementsOfDistinct<T(!new)>(s: seq<T>)
    requires NoDup(s)
    ensures |Elements(s)| == |s|
  {
    if s != [] {
      var init, last := s[..|s| - 1], s[|s| - 1];
      NoDupAppend(init, last);
      assert s == init + [last];
      ElementsOfDistinct(init);
      assert Elements(s) == Elements(init) + {last};
    }
  }

  /** `list.remove` on a list without repetitions. */
  function Remove(s: seq<nat>, x: nat): (r: seq<nat>)
    ensures forall y :: y in r <==> y in s && y != x
    ensures |r| <= |s| && (x in s ==> |r| < |s|)
    ensures Ascending(s) ==> Ascending(r)
  {
    if s == [] then []
    else
      var init := Remove(s[..|s| - 1], x);
      assert s == s[..|s| - 1] + [s[|s| - 1]];
      assert forall i :: 0 <= i < |init| ==> init[i] in s[..|s| - 1];
      if s[|s| - 1] == x then init else init + [s[|s| - 1]]
  }

  lemma AscendingAppend(s: seq<nat>, x: nat)
    requires Ascending(s) && forall y :: y in s ==> y < x
    ensures Ascending(s + [x])
  {
    assert forall i :: 0 <= i < |s| ==> s[i] in s;
  }

  lemma InAppend<T>(s: seq<T>, x: T)
    ensures forall y :: y in s + [x] <==> y in s || y == x
  {
  }

  lemma AscendingIsNoDup(s: seq<nat>)
    requires Ascending(s)
    ensures NoDup(s)
  {
  }
}
