/**
 * The string primitives the client code relies on: `String.prototype.includes`,
 * `toLowerCase` (restricted to ASCII), `trim`, and a global literal
 * `replace` (a regular expression with the `g` flag whose source matches
 * one literal string).
 */
module Strings {

  // ---------------------------------------------------------------------------
  // includes

  /** JavaScript's `s.includes(t)`: `t` occurs in `s` as a contiguous piece. */
  function Contains(s: string, t: string): (b: bool)
    ensures t == [] ==> b
    ensures b ==> |t| <= |s|
  {
    t <= s || (s != [] && Contains(s[1..], t))
  }

  /** `t` starts at position `i` of `s`. */
  ghost predicate OccursAt(s: string, t: string, i: int) {
    0 <= i <= |s| - |t| && s[i..i + |t|] == t
  }

  /** A piece of the tail of `s` is the piece of `s` one position further on. */
  lemma TailSlice(s: string, i: nat, n: nat)
    requires 1 <= i && i + n <= |s|
    ensures s[i..i + n] == s[1..][i - 1..i - 1 + n]
  {
  }

  /** Where a contained piece starts. */
  lemma {:induction false} ContainsWitness(s: string, t: string) returns (i: int)
    requires Contains(s, t)
    ensures OccursAt(s, t, i)
    decreases |s|
  {
    if t <= s {
      i := 0;
      assert s[0..0 + |t|] == t;
    } else {
      var j := ContainsWitness(s[1..], t);
      TailSlice(s, j + 1, |t|);
      i := j + 1;
    }
  }

  /** A piece that starts somewhere is contained. */
  lemma {:induction false} OccursContains(s: string, t: string, i: int)
    requires OccursAt(s, t, i)
    ensures Contains(s, t)
    decreases i
  {
    if i == 0 {
      assert s[..|t|] == t;
    } else {
      TailSlice(s, i, |t|);
      OccursContains(s[1..], t, i - 1);
    }
  }

  /** The index form of `Contains`: there is a position where `t` starts in `s`. */
  lemma ContainsAt(s: string, t: string)
    ensures Contains(s, t) <==> exists i :: OccursAt(s, t, i)
  {
    if Contains(s, t) {
      var i := ContainsWitness(s, t);
    }
    forall i | OccursAt(s, t, i)
      ensures Contains(s, t)
    {
      OccursContains(s, t, i);
    }
  }

  /** A sequence that contains a non-empty piece contains its first element. */
  lemma {:induction false} ContainsFirst(s: string, t: string)
    requires t != []
    ensures Contains(s, t) ==> t[0] in s
  {
    ContainsAt(s, t);
    if Contains(s, t) {
      var i :| OccursAt(s, t, i);
      assert s[i] == t[0];
    }
  }

  /** A piece of a sequence that is contained in `t` occurs in every sequence that extends `t` on both sides. */
  lemma {:induction false} ContainsInContext(a: string, t: string, b: string, p: string)
    requires Contains(t, p)
    ensures Contains(a + t + b, p)
  {
    ContainsAt(t, p);
    var i :| OccursAt(t, p, i);
    assert (a + t + b)[|a| + i..|a| + i + |p|] == t[i..i + |p|];
    assert OccursAt(a + t + b, p, |a| + i);
    ContainsAt(a + t + b, p);
  }

  // ---------------------------------------------------------------------------
  // toLowerCase (ASCII only)

  function LowerChar(c: char): char {
    if 'A' <= c <= 'Z' then (c as int + 32) as char else c
  }

  /** `s.toLowerCase()` for the ASCII letters; every other character is kept. */
  function Lower(s: string): (r: string)
    ensures |r| == |s|
    ensures forall i :: 0 <= i < |s| ==> r[i] == LowerChar(s[i])
  {
    if s == [] then [] else [LowerChar(s[0])] + Lower(s[1..])
  }

  /** Lower-casing twice is lower-casing once, so a lower-cased query can be compared with lower-cased fields. */
  lemma LowerIdempotent(s: string)
    ensures Lower(Lower(s)) == Lower(s)
  {
  }

  // ---------------------------------------------------------------------------
  // trim

  /**
   * The characters `String.prototype.trim` removes: the WhiteSpace code
   * points of ECMAScript (tab, vertical tab, form feed, space, no-break
   * space, the byte-order mark and the space separators of Unicode
   * category Zs) and its LineTerminator code points.
   */
  const JsSpaces: set<char> := {
    '\t', '\U{000B}', '\U{000C}', ' ', '\U{00A0}', '\U{FEFF}',
    '\n', '\r', '\U{2028}', '\U{2029}',
    '\U{1680}', '\U{2000}', '\U{2001}', '\U{2002}', '\U{2003}', '\U{2004}', '\U{2005}',
    '\U{2006}', '\U{2007}', '\U{2008}', '\U{2009}', '\U{200A}', '\U{202F}', '\U{205F}', '\U{3000}'}

  predicate IsJsSpace(c: char) {
    c in JsSpaces
  }

  /** `s` without its leading white space. */
  function TrimStart(s: string): (r: string)
    ensures |r| <= |s|
  {
    if s != [] && IsJsSpace(s[0]) then TrimStart(s[1..]) else s
  }

  /** What `TrimStart` removes is white space, and what it keeps does not start with any. */
  lemma {:induction false} TrimStartSpec(s: string)
    ensures var r := TrimStart(s);
      && r == s[|s| - |r|..]
      && (forall i :: 0 <= i < |s| - |r| ==> IsJsSpace(s[i]))
      && (r == [] || !IsJsSpace(r[0]))
    decreases |s|
  {
    if s != [] && IsJsSpace(s[0]) {
      TrimStartSpec(s[1..]);
      var r := TrimStart(s[1..]);
      assert s[1..][|s| - 1 - |r|..] == s[|s| - |r|..];
      assert forall i :: 1 <= i < |s| - |r| ==> s[i] == s[1..][i - 1];
    }
  }

  /** `s` without its trailing white space. */
  function TrimEnd(s: string): (r: string)
    ensures |r| <= |s|
  {
    if s != [] && IsJsSpace(s[|s| - 1]) then TrimEnd(s[..|s| - 1]) else s
  }

  /** What `TrimEnd` removes is white space, and what it keeps does not end with any. */
  lemma {:induction false} TrimEndSpec(s: string)
    ensures var r := TrimEnd(s);
      && r == s[..|r|]
      && (forall i :: |r| <= i < |s| ==> IsJsSpace(s[i]))
      && (r == [] || !IsJsSpace(r[|r| - 1]))
    decreases |s|
  {
    if s != [] && IsJsSpace(s[|s| - 1]) {
      TrimEndSpec(s[..|s| - 1]);
      var r := TrimEnd(s[..|s| - 1]);
      assert s[..|s| - 1][..|r|] == s[..|r|];
      assert forall i :: |r| <= i < |s| - 1 ==> s[i] == s[..|s| - 1][i];
    }
  }

  /** `s.trim()`. */
  function Trim(s: string): string {
    TrimEnd(TrimStart(s))
  }

  /** White space at the end of a suffix of `s` is white space at the end of `s`. */
  lemma SpacesInSuffix(s: string, i: nat, a: string, lo: nat)
    requires i <= |s| && a == s[i..] && lo <= |a|
    requires forall k :: lo <= k < |a| ==> IsJsSpace(a[k])
    ensures forall k :: i + lo <= k < |s| ==> IsJsSpace(s[k])
  {
    forall k | i + lo <= k < |s|
      ensures IsJsSpace(s[k])
    {
      assert s[k] == a[k - i];
    }
  }

  /** Where the piece `trim` keeps starts and ends in `s`. */
  lemma TrimBounds(s: string) returns (i: nat, j: nat)
    ensures i <= j <= |s| && Trim(s) == s[i..j]
    ensures forall k :: 0 <= k < i ==> IsJsSpace(s[k])
    ensures forall k :: j <= k < |s| ==> IsJsSpace(s[k])
  {
    var a := TrimStart(s);
    var r := TrimEnd(a);
    TrimStartSpec(s);
    TrimEndSpec(a);
    i := |s| - |a|;
    j := i + |r|;
    assert a == s[i..];
    assert r == a[..|r|];
    assert forall k :: 0 <= k < |r| ==> r[k] == s[i..j][k];
    assert r == s[i..j];
    SpacesInSuffix(s, i, a, |r|);
  }

  /** An empty trim means a string of white space only. */
  lemma TrimEmpty(s: string)
    ensures Trim(s) == [] <==> forall k :: 0 <= k < |s| ==> IsJsSpace(s[k])
  {
    var i, j := TrimBounds(s);
    TrimStartSpec(s);
  }

  /**
   * What `trim` promises: the result is the piece of `s` left after removing
   * white space from both ends, it neither starts nor ends with white space,
   * and it is empty exactly when `s` is white space only.
   */
  lemma TrimSpec(s: string)
    ensures exists i, j :: (0 <= i <= j <= |s| && Trim(s) == s[i..j]
      && (forall k :: 0 <= k < i ==> IsJsSpace(s[k]))
      && (forall k :: j <= k < |s| ==> IsJsSpace(s[k])))
    ensures Trim(s) == [] || (!IsJsSpace(Trim(s)[0]) && !IsJsSpace(Trim(s)[|Trim(s)| - 1]))
    ensures Trim(s) == [] <==> forall k :: 0 <= k < |s| ==> IsJsSpace(s[k])
  {
    var i, j := TrimBounds(s);
    var a := TrimStart(s);
    TrimStartSpec(s);
    TrimEndSpec(a);
    if Trim(s) != [] {
      assert Trim(s)[0] == a[0];
    }
    TrimEmpty(s);
  }

  /** Trimming is idempotent. */
  lemma TrimIdempotent(s: string)
    ensures Trim(Trim(s)) == Trim(s)
  {
    var r := Trim(s);
    TrimSpec(s);
    assert TrimStart(r) == r;
    assert TrimEnd(r) == r;
  }

  // ---------------------------------------------------------------------------
  // replace with a global, literal pattern

  /**
   * `s.replace(new RegExp(literal(p), 'g'), r)`: every occurrence of `p` is
   * replaced by `r`, scanning left to right, matches do not overlap, and the
   * text of a replacement is never scanned again.
   */
  function ReplaceAll(s: string, p: string, r: string): string
    requires p != []
    decreases |s|
  {
    if s == [] then []
    else if p <= s then r + ReplaceAll(s[|p|..], p, r)
    else [s[0]] + ReplaceAll(s[1..], p, r)
  }

  /** A pattern that does not occur leaves the string as it is. */
  lemma {:induction false} ReplaceAllAbsent(s: string, p: string, r: string)
    requires p != [] && !Contains(s, p)
    ensures ReplaceAll(s, p, r) == s
    decreases |s|
  {
    if s != [] {
      ReplaceAllAbsent(s[1..], p, r);
    }
  }

  /** A pattern that does occur is replaced at least once. */
  lemma {:induction false} ReplaceAllInserts(s: string, p: string, r: string)
    requires p != [] && Contains(s, p)
    ensures Contains(ReplaceAll(s, p, r), r)
    decreases |s|
  {
    if p <= s {
      assert r <= ReplaceAll(s, p, r);
    } else {
      ReplaceAllInserts(s[1..], p, r);
      ContainsInContext([s[0]], ReplaceAll(s[1..], p, r), [], r);
      assert [s[0]] + ReplaceAll(s[1..], p, r) + [] == ReplaceAll(s, p, r);
    }
  }

  /**
   * Up to any length, a global replace either agrees with its input or has
   * already begun a replacement.
   */
  lemma {:induction false} ReplaceAllPrefix(s: string, p: string, r: string, n: nat)
    requires p != [] && r != []
    requires n <= |ReplaceAll(s, p, r)|
    ensures (n <= |s| && ReplaceAll(s, p, r)[..n] == s[..n]) || r[0] in ReplaceAll(s, p, r)[..n]
    decreases |s|
  {
    if s == [] || n == 0 {
    } else if p <= s {
      assert ReplaceAll(s, p, r)[..n][0] == r[0];
    } else {
      var t := ReplaceAll(s[1..], p, r);
      ReplaceAllPrefix(s[1..], p, r, n - 1);
      assert ReplaceAll(s, p, r)[..n] == [s[0]] + t[..n - 1];
      if n - 1 <= |s| - 1 && t[..n - 1] == s[1..][..n - 1] {
        assert s[..n] == [s[0]] + s[1..][..n - 1];
      }
    }
  }

  /** A pattern found in neither part, and that no end character of `a` can start, is not found across them. */
  lemma ConcatLeavesNone(a: string, b: string, p: string)
    requires p != [] && a != [] && a[|a| - 1] !in p
    requires !Contains(a, p) && !Contains(b, p)
    ensures !Contains(a + b, p)
  {
    var u := a + b;
    ContainsAt(a, p);
    ContainsAt(b, p);
    forall i | 0 <= i <= |u| - |p|
      ensures !OccursAt(u, p, i)
    {
      if i + |p| <= |a| {
        assert u[i..i + |p|] == a[i..i + |p|];
        assert !OccursAt(a, p, i);
      } else if i >= |a| {
        assert u[i..i + |p|] == b[i - |a|..i - |a| + |p|];
        assert !OccursAt(b, p, i - |a|);
      } else {
        assert u[i..i + |p|][|a| - 1 - i] == a[|a| - 1];
      }
    }
    ContainsAt(u, p);
  }

  /**
   * Where a stretch is skipped, the pattern cannot start at it in the
   * result either: what follows in the result is either the input itself
   * or reaches a replacement within the length of the pattern.
   */
  lemma NoStartAtSkip(s: string, p: string, r: string)
    requires p != [] && r != [] && r[0] !in p
    requires s != [] && !(p <= s)
    ensures !(p <= [s[0]] + ReplaceAll(s[1..], p, r))
  {
    var t := ReplaceAll(s[1..], p, r);
    var u := [s[0]] + t;
    if |p| <= |u| {
      ReplaceAllPrefix(s[1..], p, r, |p| - 1);
      if |p| - 1 <= |s| - 1 && t[..|p| - 1] == s[1..][..|p| - 1] {
        assert u[..|p|] == s[..|p|];
      } else {
        var k :| 0 <= k < |p| - 1 && t[..|p| - 1][k] == r[0];
        assert u[..|p|][k + 1] == r[0];
      }
    }
  }

  /** A pattern not found in `t`, and not at the start of `[c] + t`, is not found in `[c] + t`. */
  lemma ConsLeavesNone(c: char, t: string, p: string)
    requires p != [] && !Contains(t, p) && !(p <= [c] + t)
    ensures !Contains([c] + t, p)
  {
    assert ([c] + t)[1..] == t;
  }

  /**
   * The replace is global: when the replacement neither contains the pattern
   * nor starts or ends with one of its characters, no occurrence of the
   * pattern is left. An occurrence cannot lie inside a replacement, cannot
   * straddle the edge of one, and cannot lie in a stretch that was skipped.
   */
  lemma {:induction false} ReplaceAllLeavesNone(s: string, p: string, r: string)
    requires p != [] && r != []
    requires r[0] !in p && r[|r| - 1] !in p && !Contains(r, p)
    ensures !Contains(ReplaceAll(s, p, r), p)
    decreases |s|
  {
    if s == [] {
    } else if p <= s {
      ReplaceAllLeavesNone(s[|p|..], p, r);
      ConcatLeavesNone(r, ReplaceAll(s[|p|..], p, r), p);
    } else {
      var t := ReplaceAll(s[1..], p, r);
      ReplaceAllLeavesNone(s[1..], p, r);
      NoStartAtSkip(s, p, r);
      ConsLeavesNone(s[0], t, p);
    }
  }

  /**
   * When the replacement starts with a character found neither in `s` nor
   * in `p`, replacing every replacement by `m` afterwards is the same as
   * replacing every occurrence of `p` by `m` directly.
   */
  lemma {:induction false} ReplaceAllThrough(s: string, p: string, r: string, m: string)
    requires p != [] && r != []
    requires r[0] !in s && r[0] !in p
    ensures ReplaceAll(ReplaceAll(s, p, r), r, m) == ReplaceAll(s, p, m)
    decreases |s|
  {
    if s == [] {
    } else if p <= s {
      var t := ReplaceAll(s[|p|..], p, r);
      ReplaceAllThrough(s[|p|..], p, r, m);
      assert (r + t)[|r|..] == t;
    } else {
      var t := ReplaceAll(s[1..], p, r);
      ReplaceAllThrough(s[1..], p, r, m);
      assert ([s[0]] + t)[1..] == t;
      assert !(r <= [s[0]] + t) by {
        assert ([s[0]] + t)[0] != r[0];
      }
    }
  }

  /**
   * When the replacement starts with a character that occurs neither in `s`
   * nor in `p`, replacing every replacement back by `p` restores `s`: each
   * occurrence of `p` became one replacement, and nothing else was touched.
   */
  lemma {:induction false} ReplaceAllUndo(s: string, p: string, r: string)
    requires p != [] && r != []
    requires r[0] !in s && r[0] !in p
    ensures ReplaceAll(ReplaceAll(s, p, r), r, p) == s
    decreases |s|
  {
    if s == [] {
    } else if p <= s {
      var t := ReplaceAll(s[|p|..], p, r);
      ReplaceAllUndo(s[|p|..], p, r);
      assert (r + t)[|r|..] == t;
      assert s == p + s[|p|..];
    } else {
      var t := ReplaceAll(s[1..], p, r);
      ReplaceAllUndo(s[1..], p, r);
      assert ([s[0]] + t)[1..] == t;
      assert !(r <= [s[0]] + t) by {
        assert ([s[0]] + t)[0] != r[0];
      }
      assert s == [s[0]] + s[1..];
    }
  }
}
