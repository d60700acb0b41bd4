/**
 * The comparison `_stricmp` performs on two C strings in the C locale:
 * characters are lowered one by one ('A'..'Z' only) and compared up to the
 * first NUL terminator.  A Dafny `string` stands for the bytes of a `char*`;
 * the end of the sequence acts as the terminator.
 */
module Ascii {

  /** `tolower` in the C locale: only 'A'..'Z' change. */
  function Lower(c: char): char {
    if 'A' <= c <= 'Z' then (c as int + 32) as char else c
  }

  /** The string with every character lowered. */
  function FoldCase(s: string): (r: string)
    ensures |r| == |s|
    ensures forall i :: 0 <= i < |s| ==> r[i] == Lower(s[i])
  {
    if s == [] then [] else [Lower(s[0])] + FoldCase(s[1..])
  }

  /** The C string that `s` denotes: its characters up to, not including, the first NUL. */
  function CString(s: string): (r: string)
    ensures |r| <= |s| && r == s[..|r|]
    ensures forall i :: 0 <= i < |r| ==> r[i] != '\0'
    ensures |r| < |s| ==> s[|r|] == '\0'
  {
    if s == [] || s[0] == '\0' then [] else [s[0]] + CString(s[1..])
  }

  /** Two C strings that are equal once case is folded. */
  predicate SameIgnoringCase(a: string, b: string) {
    FoldCase(CString(a)) == FoldCase(CString(b))
  }

  /** The lowered character `_stricmp` reads at the head of `s`; 0 (the terminator) once `s` is used up. */
  function HeadCode(s: string): int {
    if s == [] then 0 else Lower(s[0]) as int
  }

  /**
   * `_stricmp(a, b)`: negative, zero or positive as `a` sorts before, equal to
   * or after `b` once both are lowered.  Callers here only test it against 0.
   */
  function Stricmp(a: string, b: string): int
    decreases |a|
  {
    var c, d := HeadCode(a), HeadCode(b);
    if c != d then c - d
    else if c == 0 then 0
    else Stricmp(a[1..], b[1..])
  }

  /** `_stricmp` reports equality exactly when the C strings agree up to case. */
  lemma {:induction false} StricmpZeroIff(a: string, b: string)
    ensures Stricmp(a, b) == 0 <==> SameIgnoringCase(a, b)
    decreases |a|
  {
    if a == [] || a[0] == '\0' {
      assert CString(a) == [] && HeadCode(a) == 0;
      assert HeadCode(b) == 0 <==> CString(b) == [];
    } else if b == [] || b[0] == '\0' {
      assert CString(b) == [] && HeadCode(b) == 0;
      assert CString(a) != [] && HeadCode(a) != 0;
    } else {
      var ta, tb := CString(a[1..]), CString(b[1..]);
      assert CString(a) == [a[0]] + ta;
      assert CString(b) == [b[0]] + tb;
      FoldCons(a[0], ta);
      FoldCons(b[0], tb);
      ConsEq(Lower(a[0]), FoldCase(ta), Lower(b[0]), FoldCase(tb));
      assert HeadCode(a) == Lower(a[0]) as int != 0;
      assert HeadCode(b) == Lower(b[0]) as int;
      if Lower(a[0]) == Lower(b[0]) {
        assert Stricmp(a, b) == Stricmp(a[1..], b[1..]);
        StricmpZeroIff(a[1..], b[1..]);
      }
    }
  }

  lemma FoldCons(c: char, t: string)
    ensures FoldCase([c] + t) == [Lower(c)] + FoldCase(t)
  {
    assert ([c] + t)[1..] == t;
  }

  lemma ConsEq(x: char, s: string, y: char, t: string)
    ensures [x] + s == [y] + t <==> x == y && s == t
  {
    if [x] + s == [y] + t {
      assert ([x] + s)[0] == x && ([x] + s)[1..] == s;
      assert ([y] + t)[0] == y && ([y] + t)[1..] == t;
    }
  }

  /** Two query names that agree up to case are matched by exactly the same stored names. */
  lemma StricmpRespectsCase(stored: string, q1: string, q2: string)
    requires SameIgnoringCase(q1, q2)
    ensures Stricmp(stored, q1) == 0 <==> Stricmp(stored, q2) == 0
  {
    StricmpZeroIff(stored, q1);
    StricmpZeroIff(stored, q2);
  }
}
