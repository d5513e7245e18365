/**
 * The small part of the Java runtime the ledger's core leans on: null
 * references, and the `String` operations `trim`, `startsWith`, `contains`
 * and `replace` with a one-character target.
 */
module JavaLang {

  /** A Java reference that may be null: `None` is null. */
  datatype Option<+T> = None | Some(value: T)

  /** `String.startsWith`: case-sensitive, and true for the empty prefix. */
  predicate StartsWith(s: string, prefix: string) {
    |prefix| <= |s| && s[..|prefix|] == prefix
  }

  /** `String.contains`: `sub` occurs somewhere in `s` as a contiguous run. */
  ghost predicate Contains(s: string, sub: string) {
    exists i :: 0 <= i <= |s| && StartsWith(s[i..], sub)
  }

  /** A string contains whatever sits between its prefix and its suffix. */
  lemma {:induction false} ContainsInfix(a: string, b: string, c: string)
    ensures Contains(a + b + c, b)
  {
    var s := a + b + c;
    assert s[|a|..][..|b|] == b;
    assert StartsWith(s[|a|..], b);
  }

  /** Containment is transitive: a piece of a piece is a piece of the whole. */
  lemma {:induction false} ContainsTransitive(s: string, mid: string, sub: string)
    requires Contains(s, mid) && Contains(mid, sub)
    ensures Contains(s, sub)
  {
    var i :| 0 <= i <= |s| && StartsWith(s[i..], mid);
    var j :| 0 <= j <= |mid| && StartsWith(mid[j..], sub);
    forall k | 0 <= k < |sub|
      ensures s[i + j + k] == sub[k]
    {
      assert mid[j..][..|sub|][k] == sub[k];
      assert s[i..][..|mid|][j + k] == mid[j + k];
    }
    assert s[i + j..][..|sub|] == sub;
  }

  /** The characters `String.trim` strips: every code point up to and including the space. */
  predicate Blank(c: char) {
    c <= ' '
  }

  /** A string `String.trim` leaves alone: it is empty or starts and ends with a non-blank. */
  predicate Trimmed(s: string) {
    |s| == 0 || (!Blank(s[0]) && !Blank(s[|s| - 1]))
  }

  /** Number of blanks at the front of `s`. */
  function LeadingBlanks(s: string): (n: nat)
    ensures n <= |s|
    ensures forall i :: 0 <= i < n ==> Blank(s[i])
    ensures n < |s| ==> !Blank(s[n])
  {
    if |s| == 0 || !Blank(s[0]) then 0 else 1 + LeadingBlanks(s[1..])
  }

  /** Number of blanks at the back of `s`. */
  function TrailingBlanks(s: string): (n: nat)
    ensures n <= |s|
    ensures forall i :: |s| - n <= i < |s| ==> Blank(s[i])
    ensures n < |s| ==> !Blank(s[|s| - 1 - n])
  {
    if |s| == 0 || !Blank(s[|s| - 1]) then 0 else 1 + TrailingBlanks(s[..|s| - 1])
  }

  /**
   * `String.trim`: the infix of `s` left after dropping every blank at both
   * ends. Blanks inside the string are kept.
   */
  function Trim(s: string): (t: string)
    ensures Trimmed(t)
    ensures LeadingBlanks(s) + |t| <= |s|
    ensures t == s[LeadingBlanks(s)..LeadingBlanks(s) + |t|]
    ensures forall i :: LeadingBlanks(s) + |t| <= i < |s| ==> Blank(s[i])
  {
    var a := LeadingBlanks(s);
    if a == |s| then []
    else
      s[a..|s| - TrailingBlanks(s)]
  }

  /** A string that is already trimmed comes back from `trim` unchanged. */
  lemma {:induction false} TrimKeepsTrimmed(s: string)
    ensures Trimmed(s) ==> Trim(s) == s
  {
    if |s| > 0 && Trimmed(s) {
      assert LeadingBlanks(s) == 0;
      assert TrailingBlanks(s) == 0;
    }
  }

  /**
   * `String.replace(target, "")` for a one-character target `c`: every
   * occurrence of `c` is deleted and every other character keeps its place.
   */
  function DeleteChar(s: string, c: char): (r: string)
    ensures c !in r
    ensures |r| <= |s|
    ensures c !in s ==> r == s
  {
    if |s| == 0 then []
    else
      assert s == [s[0]] + s[1..];
      (if s[0] == c then [] else [s[0]]) + DeleteChar(s[1..], c)
  }

  /**
   * Only `c` is lost: every occurrence of it goes, and any other character
   * `d` survives as often as it occurred.
   */
  lemma {:induction false} DeleteCharCounts(s: string, c: char, d: char)
    ensures multiset(DeleteChar(s, c))[d] == if d == c then 0 else multiset(s)[d]
  {
    if |s| > 0 {
      var t, rest := s[1..], DeleteChar(s[1..], c);
      assert s == [s[0]] + t;
      DeleteCharCounts(t, c, d);
      CountCons(s[0], t, d);
      if s[0] == c {
        assert DeleteChar(s, c) == rest;
      } else {
        assert DeleteChar(s, c) == [s[0]] + rest;
        CountCons(s[0], rest, d);
      }
    }
  }

  /** Putting `x` in front of `t` adds one occurrence of `x` and none of anything else. */
  lemma {:induction false} CountCons(x: char, t: string, d: char)
    ensures multiset([x] + t)[d] == (if x == d then 1 else 0) + multiset(t)[d]
  {
    assert multiset([x] + t) == multiset([x]) + multiset(t);
  }

  /** Deleting a character distributes over concatenation, so the survivors keep their order. */
  lemma {:induction false} DeleteCharAppend(s: string, t: string, c: char)
    ensures DeleteChar(s + t, c) == DeleteChar(s, c) + DeleteChar(t, c)
  {
    if |s| == 0 {
      assert s + t == t;
    } else {
      var st := s + t;
      assert st[0] == s[0];
      assert st[1..] == s[1..] + t;
      DeleteCharAppend(s[1..], t, c);
      var h: string := if s[0] == c then [] else [s[0]];
      calc {
        DeleteChar(st, c);
        h + DeleteChar(s[1..] + t, c);
        h + (DeleteChar(s[1..], c) + DeleteChar(t, c));
        (h + DeleteChar(s[1..], c)) + DeleteChar(t, c);
      }
    }
  }

  /**
   * Deleting a blank character `c` (the newline is one) from a trimmed
   * string keeps it trimmed: its first and last characters are not `c`.
   */
  lemma {:induction false} DeleteBlankKeepsTrimmed(s: string, c: char)
    requires Blank(c)
    requires Trimmed(s)
    ensures Trimmed(DeleteChar(s, c))
  {
    if |s| > 0 {
      var last := s[|s| - 1];
      assert s == s[..|s| - 1] + [last];
      DeleteCharAppend(s[..|s| - 1], [last], c);
      assert DeleteChar([last], c) == [last];
    }
  }
}
