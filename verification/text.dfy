/** The JavaScript string operations the icon generator relies on: `trim`,
    `includes`, `join`, global literal `replace`, ASCII `toUpperCase`, and
    decimal rendering of numbers inside template literals. */
module Text {

  /** The characters that both `String.prototype.trim` and the regular
      expression class `\s` treat as white space: the WhiteSpace and
      LineTerminator productions of ECMAScript (tab, vertical tab, form feed,
      space, no-break space, byte order mark, the Unicode space separators,
      line feed, carriage return, line and paragraph separators). */
  predicate IsWhitespace(c: char) {
    || c == ' ' || c == '\t' || c == '\n' || c == '\r'
    || c == '\U{000B}' || c == '\U{000C}'
    || c == '\U{00A0}' || c == '\U{1680}'
    || ('\U{2000}' <= c <= '\U{200A}')
    || c == '\U{2028}' || c == '\U{2029}'
    || c == '\U{202F}' || c == '\U{205F}' || c == '\U{3000}' || c == '\U{FEFF}'
  }

  /** Every character of `s` is white space (the empty string included). */
  predicate Blank(s: string) {
    forall i :: 0 <= i < |s| ==> IsWhitespace(s[i])
  }

  /** No leading or trailing white space. */
  predicate Trimmed(s: string) {
    s == [] || (!IsWhitespace(s[0]) && !IsWhitespace(s[|s| - 1]))
  }

  /** Leading white space removed: what is left is a suffix of `s`, and what
      was dropped is all white space. */
  function TrimStart(s: string): (r: string)
    ensures |r| <= |s| && r == s[|s| - |r|..]
    ensures Blank(s[..|s| - |r|])
    ensures r == [] || !IsWhitespace(r[0])
    decreases |s|
  {
    if |s| > 0 && IsWhitespace(s[0]) then
      var r := TrimStart(s[1..]);
      assert s[..|s| - |r|] == [s[0]] + s[1..][..|s| - 1 - |r|];
      r
    else
      s
  }

  /** Trailing white space removed: what is left is a prefix of `s`, and what
      was dropped is all white space. */
  function TrimEnd(s: string): (r: string)
    ensures |r| <= |s| && r == s[..|r|]
    ensures Blank(s[|r|..])
    ensures r == [] || !IsWhitespace(r[|r| - 1])
    decreases |s|
  {
    if |s| > 0 && IsWhitespace(s[|s| - 1]) then
      var r := TrimEnd(s[..|s| - 1]);
      assert s[|r|..] == s[..|s| - 1][|r|..] + [s[|s| - 1]];
      r
    else
      s
  }

  /** `String.prototype.trim`. */
  function Trim(s: string): (r: string)
    ensures Trimmed(r)
    ensures |r| <= |s|
  {
    TrimEnd(TrimStart(s))
  }

  /** `trim` keeps exactly the middle of `s`: it cuts a blank prefix and a
      blank suffix and nothing else. */
  lemma TrimIsMiddle(s: string)
    ensures exists i, j :: 0 <= i <= j <= |s| && Trim(s) == s[i..j]
                           && Blank(s[..i]) && Blank(s[j..])
  {
    var t := TrimStart(s);
    var i := |s| - |t|;
    var j := i + |TrimEnd(t)|;
    assert t[|TrimEnd(t)|..] == s[j..];
    assert Trim(s) == s[i..j];
  }

  /** A string trims to nothing exactly when it is all white space — the
      "blank prompt" test `prompt.trim().length === 0`. */
  lemma TrimEmptyIffBlank(s: string)
    ensures Trim(s) == [] <==> Blank(s)
  {
    var t := TrimStart(s);
    if Trim(s) == [] {
      assert Blank(t[0..]);
      assert t == [];
      assert s[..|s|] == s;
    }
  }

  /** A string without white space at either end is its own trim. */
  lemma TrimOfTrimmed(s: string)
    requires Trimmed(s)
    ensures Trim(s) == s
  {
  }

  /** Trimming twice is trimming once. */
  lemma TrimIdempotent(s: string)
    ensures Trim(Trim(s)) == Trim(s)
  {
    TrimOfTrimmed(Trim(s));
  }

  /** `s.endsWith(t)`. */
  predicate EndsWith(s: string, t: string) {
    |t| <= |s| && s[|s| - |t|..] == t
  }

  /** `t` occurs in `s` starting at index `i`. */
  predicate OccursAt(s: string, t: string, i: int) {
    0 <= i && i + |t| <= |s| && s[i..i + |t|] == t
  }

  /** `s.includes(t)`: `t` occurs in `s` as a contiguous block. */
  predicate Contains(s: string, t: string) {
    exists i | 0 <= i <= |s| :: OccursAt(s, t, i)
  }

  /** An occurrence in `a` is still an occurrence after appending. */
  lemma ContainsAppend(a: string, b: string, t: string)
    requires Contains(a, t)
    ensures Contains(a + b, t)
  {
    var i :| OccursAt(a, t, i);
    assert OccursAt(a, t, i);
    assert (a + b)[i..i + |t|] == a[i..i + |t|];
    assert OccursAt(a + b, t, i);
  }

  /** An occurrence in `b` is still an occurrence after prepending. */
  lemma ContainsPrepend(a: string, b: string, t: string)
    requires Contains(b, t)
    ensures Contains(a + b, t)
  {
    var i :| OccursAt(b, t, i);
    assert OccursAt(b, t, i);
    assert (a + b)[|a| + i..|a| + i + |t|] == b[i..i + |t|];
    assert OccursAt(a + b, t, |a| + i);
  }

  /** A text lacking some character of `t` cannot contain `t`. */
  lemma MissingChar(s: string, t: string, k: nat)
    requires k < |t| && t[k] !in s
    ensures !Contains(s, t)
  {
    forall i | 0 <= i <= |s|
      ensures !OccursAt(s, t, i)
    {
      if i + |t| <= |s| {
        assert s[i..i + |t|][k] == s[i + k];
        assert s[i + k] in s;
      }
    }
  }

  /** `t` occurs in any string that has it as a middle part. */
  lemma ContainsMiddle(a: string, t: string, b: string)
    ensures Contains(a + t + b, t)
  {
    assert (a + t + b)[|a|..|a| + |t|] == t;
    assert OccursAt(a + t + b, t, |a|);
  }

  /** `t` occurs in `s` exactly when it begins `s` or occurs in the rest. */
  lemma ContainsCons(s: string, t: string)
    ensures Contains(s, t) <==> t <= s || (s != [] && Contains(s[1..], t))
  {
    if t <= s {
      assert s[0..|t|] == t;
      assert OccursAt(s, t, 0);
    } else if s != [] {
      if Contains(s[1..], t) {
        ContainsPrepend([s[0]], s[1..], t);
        assert [s[0]] + s[1..] == s;
      }
      if Contains(s, t) {
        var i :| OccursAt(s, t, i);
        assert OccursAt(s, t, i);
        assert i != 0;
        assert s[1..][i - 1..i - 1 + |t|] == s[i..i + |t|];
        assert OccursAt(s[1..], t, i - 1);
      }
    }
  }

  /** Nothing longer than `s` occurs in `s`. */
  lemma ContainsNonEmptyNeedsLength(s: string, t: string)
    requires Contains(s, t)
    ensures |t| <= |s|
  {
  }

  /** Containment is transitive: what occurs in a part occurs in the whole. */
  lemma ContainsTrans(s: string, u: string, t: string)
    requires Contains(s, u) && Contains(u, t)
    ensures Contains(s, t)
  {
    var i :| OccursAt(s, u, i);
    assert OccursAt(s, u, i);
    var j :| OccursAt(u, t, j);
    assert OccursAt(u, t, j);
    assert forall k :: 0 <= k < |u| ==> u[k] == s[i + k];
    assert s[i + j..i + j + |t|] == u[j..j + |t|];
    assert OccursAt(s, t, i + j);
  }

  /** What a text lacks, each of its parts lacks. */
  lemma ContainsWithin(s: string, u: string, t: string)
    requires Contains(s, u) && !Contains(s, t)
    ensures !Contains(u, t)
  {
    if Contains(u, t) {
      ContainsTrans(s, u, t);
    }
  }

  /** A text shorter than `t` cannot hold it. */
  lemma ShortLacks(s: string, t: string)
    requires |s| < |t|
    ensures !Contains(s, t)
  {
    if Contains(s, t) {
      ContainsNonEmptyNeedsLength(s, t);
    }
  }

  /** A character `t` lacks splits a text into two parts that must each
      lack `t`. */
  lemma SplitLacks(a: string, c: char, b: string, t: string)
    requires c !in t && !Contains(a, t) && !Contains(b, t)
    ensures !Contains(a + [c] + b, t)
  {
    ContainsSplitAt(a, c, b, t);
  }

  /** `SplitLacks` at index `n` of `s`. */
  lemma SplitLacksAt(s: string, n: nat, t: string)
    requires n < |s| && s[n] !in t && !Contains(s[..n], t) && !Contains(s[n + 1..], t)
    ensures !Contains(s, t)
  {
    assert s == s[..n] + [s[n]] + s[n + 1..];
    SplitLacks(s[..n], s[n], s[n + 1..], t);
  }

  /** A text without `b` has no `a + b` either. */
  lemma ContainsSuffixOf(s: string, a: string, b: string)
    requires Contains(s, a + b)
    ensures Contains(s, b)
  {
    ContainsMiddle(a, b, []);
    assert a + b + [] == a + b;
    ContainsTrans(s, a + b, b);
  }

  /** No occurrence of `t` starts inside a prefix lacking `t`'s first
      character. */
  lemma ContainsSkip(a: string, b: string, t: string)
    requires t != [] && t[0] !in a
    ensures Contains(a + b, t) <==> Contains(b, t)
  {
    if Contains(a + b, t) {
      var i :| OccursAt(a + b, t, i);
      assert OccursAt(a + b, t, i);
      assert (a + b)[i] == t[0];
      assert (a + b)[i..i + |t|] == b[i - |a|..i - |a| + |t|];
      assert OccursAt(b, t, i - |a|);
    }
    if Contains(b, t) {
      ContainsPrepend(a, b, t);
    }
  }

  /** An occurrence of `t` that covers the position of `c` holds `c`. */
  lemma OccursAcross(a: string, c: char, b: string, t: string, i: int)
    requires OccursAt(a + [c] + b, t, i) && i <= |a| < i + |t|
    ensures c in t
  {
    var s := a + [c] + b;
    assert s[|a|] == c;
    assert t[|a| - i] == s[i..i + |t|][|a| - i] == s[|a|];
  }

  /** A character that `t` lacks splits the text: every occurrence of `t`
      lies wholly on one side of it. */
  lemma ContainsSplitAt(a: string, c: char, b: string, t: string)
    requires c !in t
    ensures Contains(a + [c] + b, t) ==> Contains(a, t) || Contains(b, t)
  {
    var s := a + [c] + b;
    if Contains(s, t) {
      var i :| OccursAt(s, t, i);
      assert OccursAt(s, t, i);
      if i + |t| <= |a| {
        assert s[i..i + |t|] == a[i..i + |t|];
        assert OccursAt(a, t, i);
      } else {
        if i <= |a| {
          OccursAcross(a, c, b, t, i);
        }
        assert s[i..i + |t|] == b[i - |a| - 1..i - |a| - 1 + |t|];
        assert OccursAt(b, t, i - |a| - 1);
      }
    }
  }

  /** No non-empty proper prefix of `t` ends `x`: an occurrence of `t` cannot
      begin in `x` and run past its end. */
  predicate NoOverhangLeft(x: string, t: string) {
    forall k :: 0 < k < |t| && k <= |x| ==> x[|x| - k..] != t[..k]
  }

  /** No non-empty proper suffix of `t` begins `y`. */
  predicate NoOverhangRight(y: string, t: string) {
    forall k :: 0 < k < |t| && k <= |y| ==> y[..k] != t[|t| - k..]
  }

  /** A prefix of `t` that ends `x1 + x2` either begins inside `x2` or
      holds all of it. */
  lemma OverhangLeftAt(x1: string, x2: string, t: string, k: int)
    requires 0 < k < |t| && k <= |x1 + x2|
    requires (x1 + x2)[|x1 + x2| - k..] == t[..k]
    ensures t[0] in x2 || Contains(t, x2)
  {
    var x := x1 + x2;
    if k <= |x2| {
      assert t[0] == x[|x| - k] == x2[|x2| - k];
    } else {
      assert t[k - |x2|..k] == x[|x| - k..][k - |x2|..] == x2;
      assert OccursAt(t, x2, k - |x2|);
    }
  }

  /** A suffix of `t` that begins `y1 + y2` either ends inside `y1` or
      holds all of it. */
  lemma OverhangRightAt(y1: string, y2: string, t: string, k: int)
    requires 0 < k < |t| && k <= |y1 + y2|
    requires (y1 + y2)[..k] == t[|t| - k..]
    ensures t[|t| - 1] in y1 || Contains(t, y1)
  {
    var y := y1 + y2;
    if k <= |y1| {
      assert t[|t| - 1] == y[k - 1] == y1[k - 1];
    } else {
      assert t[|t| - k..|t| - k + |y1|] == y[..k][..|y1|] == y1;
      assert OccursAt(t, y1, |t| - k);
    }
  }

  /** `x1 + x2` cannot be overhung by `t` when `t` does not start inside
      `x2` and does not contain all of `x2`. */
  lemma OverhangLeftBy(x1: string, x2: string, t: string)
    requires t != [] && t[0] !in x2 && !Contains(t, x2)
    ensures NoOverhangLeft(x1 + x2, t)
  {
    var x := x1 + x2;
    forall k | 0 < k < |t| && k <= |x|
      ensures x[|x| - k..] != t[..k]
    {
      if x[|x| - k..] == t[..k] {
        OverhangLeftAt(x1, x2, t, k);
      }
    }
  }

  /** `y1 + y2` cannot be overhung by `t` when `t` does not end inside `y1`
      and does not contain all of `y1`. */
  lemma OverhangRightBy(y1: string, y2: string, t: string)
    requires t != [] && t[|t| - 1] !in y1 && !Contains(t, y1)
    ensures NoOverhangRight(y1 + y2, t)
  {
    var y := y1 + y2;
    forall k | 0 < k < |t| && k <= |y|
      ensures y[..k] != t[|t| - k..]
    {
      if y[..k] == t[|t| - k..] {
        OverhangRightAt(y1, y2, t, k);
      }
    }
  }

  /** `OverhangLeftBy` with `x2` the suffix of `x` from index `n`. */
  lemma NoOverhangLeftFrom(x: string, n: nat, t: string)
    requires n < |x| && t != [] && t[0] !in x[n..] && !Contains(t, x[n..])
    ensures NoOverhangLeft(x, t)
  {
    OverhangLeftBy(x[..n], x[n..], t);
    assert x[..n] + x[n..] == x;
  }

  /** No overhang either: `x` ends in a character outside `t`'s first
      `m - 1` and does not hold `t`'s first `m`. */
  lemma NoOverhangLeftBefore(x: string, t: string, m: nat)
    requires 0 < m <= |t| && x != [] && x[|x| - 1] !in t[..m - 1] && !Contains(x, t[..m])
    ensures NoOverhangLeft(x, t)
  {
    forall k | 0 < k < |t| && k <= |x|
      ensures x[|x| - k..] != t[..k]
    {
      if k < m {
        assert x[|x| - k..][k - 1] == x[|x| - 1];
        assert t[..k][k - 1] == t[..m - 1][k - 1];
      } else {
        assert x[|x| - k..][..m] == x[|x| - k..|x| - k + m];
        assert t[..k][..m] == t[..m];
        assert !OccursAt(x, t[..m], |x| - k);
      }
    }
  }

  /** `OverhangRightBy` with `y1` the first `n` characters of `y`. */
  lemma NoOverhangRightUpTo(y: string, n: nat, t: string)
    requires 0 < n <= |y| && t != [] && t[|t| - 1] !in y[..n] && !Contains(t, y[..n])
    ensures NoOverhangRight(y, t)
  {
    OverhangRightBy(y[..n], y[n..], t);
    assert y[..n] + y[n..] == y;
  }

  /** An occurrence in `x + r` that lies in neither part begins in `x` and
      runs past its end. */
  lemma NoCrossingLeft(x: string, r: string, t: string)
    requires !Contains(x, t) && !Contains(r, t) && NoOverhangLeft(x, t)
    ensures !Contains(x + r, t)
  {
    var s := x + r;
    if Contains(s, t) {
      var i :| OccursAt(s, t, i);
      assert OccursAt(s, t, i);
      var e := i + |t|;
      if e <= |x| {
        assert s[i..e] == x[i..e];
        assert OccursAt(x, t, i);
      } else if i < |x| {
        CrossingLeft(x, r, t, i);
      } else {
        assert s[i..e] == r[i - |x|..e - |x|];
        assert OccursAt(r, t, i - |x|);
      }
    }
  }

  /** The mirror image: an occurrence in `l + y` that lies in neither part
      ends in `y` and begins before it. */
  lemma NoCrossingRight(l: string, y: string, t: string)
    requires !Contains(l, t) && !Contains(y, t) && NoOverhangRight(y, t)
    ensures !Contains(l + y, t)
  {
    var s := l + y;
    if Contains(s, t) {
      var i :| OccursAt(s, t, i);
      assert OccursAt(s, t, i);
      var e := i + |t|;
      if e <= |l| {
        assert s[i..e] == l[i..e];
        assert OccursAt(l, t, i);
      } else if i < |l| {
        CrossingRight(l, y, t, i);
      } else {
        assert s[i..e] == y[i - |l|..e - |l|];
        assert OccursAt(y, t, i - |l|);
      }
    }
  }

  /** An occurrence of `t` that begins in `x` and ends in `r` overhangs `x`. */
  lemma CrossingLeft(x: string, r: string, t: string, i: int)
    requires OccursAt(x + r, t, i) && i < |x| < i + |t|
    ensures !NoOverhangLeft(x, t)
  {
    var s := x + r;
    var k := |x| - i;
    assert s[i..|x|] == s[i..i + |t|][..k];
    assert s[i..|x|] == x[|x| - k..];
  }

  /** An occurrence of `t` that begins in `l` and ends in `y` overhangs `y`. */
  lemma CrossingRight(l: string, y: string, t: string, i: int)
    requires OccursAt(l + y, t, i) && i < |l| < i + |t|
    ensures !NoOverhangRight(y, t)
  {
    var s := l + y;
    var k := i + |t| - |l|;
    assert s[|l|..i + |t|] == s[i..i + |t|][|t| - k..];
    assert s[|l|..i + |t|] == y[..k];
  }

  /** A prefix of `a + [c] + b` longer than `a` holds `c`. */
  lemma PrefixAcross(pat: string, a: string, c: char, b: string)
    requires pat <= a + [c] + b && !(pat <= a)
    ensures c in pat
  {
    assert (a + [c] + b)[|a|] == c;
    assert pat[|a|] == c;
  }

  /** Text put between two contexts creates no new occurrence of `t` when
      none of the three parts holds one and neither context can be overhung. */
  lemma NoStraddle(x: string, m: string, y: string, t: string)
    requires !Contains(x, t) && !Contains(m, t) && !Contains(y, t)
    requires NoOverhangLeft(x, t) && NoOverhangRight(y, t)
    ensures !Contains(x + m + y, t)
  {
    NoCrossingRight(m, y, t);
    NoCrossingLeft(x, m + y, t);
    assert x + m + y == x + (m + y);
  }

  /** `s.replace(/pat/g, rep)` for a pattern without regular expression
      meta-characters: occurrences are found left to right, do not overlap,
      and each is replaced by the literal `rep`. */
  function ReplaceAll(s: string, pat: string, rep: string): string
    requires pat != []
    decreases |s|
  {
    if pat <= s then rep + ReplaceAll(s[|pat|..], pat, rep)
    else if s == [] then []
    else [s[0]] + ReplaceAll(s[1..], pat, rep)
  }

  /** One step of `ReplaceAll` at an occurrence that begins the text. */
  lemma ReplaceAllHit(s: string, pat: string, rep: string)
    requires pat != [] && pat <= s
    ensures ReplaceAll(s, pat, rep) == rep + ReplaceAll(s[|pat|..], pat, rep)
  {
  }

  /** One step of `ReplaceAll` past a character that begins no occurrence. */
  lemma ReplaceAllMiss(s: string, pat: string, rep: string)
    requires pat != [] && s != [] && !(pat <= s)
    ensures ReplaceAll(s, pat, rep) == [s[0]] + ReplaceAll(s[1..], pat, rep)
  {
  }

  /** Without an occurrence of the pattern, replacing changes nothing. */
  lemma {:induction false} ReplaceAllAbsent(s: string, pat: string, rep: string)
    requires pat != []
    requires !Contains(s, pat)
    ensures ReplaceAll(s, pat, rep) == s
    decreases |s|
  {
    ContainsCons(s, pat);
    if s != [] {
      ReplaceAllAbsent(s[1..], pat, rep);
      assert [s[0]] + s[1..] == s;
    }
  }

  /** Replacing a pattern by itself changes nothing. */
  lemma {:induction false} ReplaceAllSelf(s: string, pat: string)
    requires pat != []
    ensures ReplaceAll(s, pat, pat) == s
    decreases |s|
  {
    if pat <= s {
      ReplaceAllSelf(s[|pat|..], pat);
      assert pat + s[|pat|..] == s;
    } else if s != [] {
      ReplaceAllSelf(s[1..], pat);
      assert [s[0]] + s[1..] == s;
    }
  }

  /** Matching is left to right and non-overlapping: in "aaa" only the first
      "aa" is replaced. */
  lemma ReplaceAllNonOverlapping()
    ensures ReplaceAll("aaa", "aa", "b") == "ba"
  {
    assert "aa" <= "aaa";
    assert "aaa"[2..] == "a";
    assert !("aa" <= "a");
    assert "a"[1..] == [];
  }

  /** The leftmost occurrence decides: when `pat` first occurs at `i`, the
      text before it is kept, that occurrence becomes `rep`, and replacing
      resumes right after it. */
  lemma {:induction false} ReplaceAllFirstMatch(s: string, pat: string, rep: string, i: nat)
    requires pat != []
    requires FirstOccurrence(s, pat, i)
    ensures ReplaceAll(s, pat, rep) == s[..i] + rep + ReplaceAll(s[i + |pat|..], pat, rep)
    decreases i
  {
    if i == 0 {
      assert pat <= s;
      ReplaceAllHit(s, pat, rep);
      assert s[..0] == [];
    } else {
      assert !OccursAt(s, pat, 0);
      assert !(pat <= s);
      ReplaceAllMiss(s, pat, rep);
      TailOccurrences(s, pat, i);
      ReplaceAllFirstMatch(s[1..], pat, rep, i - 1);
      TailSlices(s, |pat|, i);
      PrependStep(ReplaceAll(s, pat, rep), s[0], ReplaceAll(s[1..], pat, rep), s[1..][..i - 1], s[..i], rep,
                  ReplaceAll(s[1..][i - 1 + |pat|..], pat, rep), ReplaceAll(s[i + |pat|..], pat, rep));
    }
  }

  /** Putting a character back in front of a replaced tail. */
  lemma PrependStep(whole: string, c: char, tail: string, u: string, v: string, rep: string, r: string, r': string)
    requires whole == [c] + tail && tail == u + rep + r && [c] + u == v && r == r'
    ensures whole == v + rep + r'
  {
  }

  /** `t` occurs in `s` at `i` and nowhere before. */
  predicate FirstOccurrence(s: string, t: string, i: nat) {
    OccursAt(s, t, i) && forall j :: 0 <= j < i ==> !OccursAt(s, t, j)
  }

  /** Dropping the first character moves every occurrence one place left. */
  lemma TailOccurrences(s: string, pat: string, i: nat)
    requires 0 < i && FirstOccurrence(s, pat, i)
    ensures FirstOccurrence(s[1..], pat, i - 1)
  {
    var t := s[1..];
    forall j | 0 <= j < i - 1
      ensures !OccursAt(t, pat, j)
    {
      assert t[j..j + |pat|] == s[j + 1..j + 1 + |pat|];
      assert !OccursAt(s, pat, j + 1);
    }
    assert t[i - 1..i - 1 + |pat|] == s[i..i + |pat|];
  }

  /** The slices of `s[1..]` around position `i - 1` are those of `s`
      around `i`. */
  lemma TailSlices(s: string, k: nat, i: nat)
    requires 0 < i && i + k <= |s|
    ensures s[1..][i - 1 + k..] == s[i + k..]
    ensures [s[0]] + s[1..][..i - 1] == s[..i]
  {
  }

  /** Concatenation regroups. */
  lemma SeqAssoc3(a: string, b: string, c: string, d: string)
    ensures a + (b + c + d) == a + b + c + d
  {
  }

  /** Replacing skips a prefix that lacks the pattern's first character. */
  lemma {:induction false} ReplaceAllSkip(a: string, b: string, pat: string, rep: string)
    requires pat != [] && pat[0] !in a
    ensures ReplaceAll(a + b, pat, rep) == a + ReplaceAll(b, pat, rep)
    decreases |a|
  {
    if a == [] {
      assert a + b == b;
    } else {
      var s := a + b;
      assert s[0] == a[0];
      assert !(pat <= s);
      ReplaceAllMiss(s, pat, rep);
      assert pat[0] !in a[1..];
      ReplaceAllSkip(a[1..], b, pat, rep);
      assert s[1..] == a[1..] + b;
      assert [a[0]] + a[1..] == a;
    }
  }

  /** Replacing distributes over a character the pattern lacks. */
  lemma {:induction false} ReplaceAllSplitAt(a: string, c: char, b: string, pat: string, rep: string)
    requires pat != [] && c !in pat
    ensures ReplaceAll(a + [c] + b, pat, rep) == ReplaceAll(a, pat, rep) + [c] + ReplaceAll(b, pat, rep)
    decreases |a|
  {
    var s := a + [c] + b;
    if pat <= a {
      ReplaceAllSplitAt(a[|pat|..], c, b, pat, rep);
      SplitAtHit(a, c, b, pat, rep);
    } else if pat <= s {
      PrefixAcross(pat, a, c, b);
    } else if a == [] {
      ReplaceAllMiss(s, pat, rep);
      assert s[0] == c && s[1..] == b;
      assert ReplaceAll(a, pat, rep) == [];
      assert ReplaceAll(s[1..], pat, rep) == ReplaceAll(b, pat, rep);
    } else {
      ReplaceAllSplitAt(a[1..], c, b, pat, rep);
      SplitAtMiss(a, c, b, pat, rep);
    }
  }

  /** The step of `ReplaceAllSplitAt` at an occurrence that begins `a`. */
  lemma SplitAtHit(a: string, c: char, b: string, pat: string, rep: string)
    requires pat != [] && pat <= a
    requires ReplaceAll(a[|pat|..] + [c] + b, pat, rep)
          == ReplaceAll(a[|pat|..], pat, rep) + [c] + ReplaceAll(b, pat, rep)
    ensures ReplaceAll(a + [c] + b, pat, rep) == ReplaceAll(a, pat, rep) + [c] + ReplaceAll(b, pat, rep)
  {
    var s := a + [c] + b;
    assert s[..|pat|] == a[..|pat|];
    ReplaceAllHit(s, pat, rep);
    ReplaceAllHit(a, pat, rep);
    assert s[|pat|..] == a[|pat|..] + [c] + b;
    FrontStep(ReplaceAll(s, pat, rep), rep, ReplaceAll(s[|pat|..], pat, rep),
              ReplaceAll(a[|pat|..] + [c] + b, pat, rep), ReplaceAll(a, pat, rep),
              ReplaceAll(a[|pat|..], pat, rep), [c], ReplaceAll(b, pat, rep));
  }

  /** The step of `ReplaceAllSplitAt` past a first character of `a` that
      begins no occurrence. */
  lemma SplitAtMiss(a: string, c: char, b: string, pat: string, rep: string)
    requires pat != [] && a != [] && !(pat <= a) && !(pat <= a + [c] + b)
    requires ReplaceAll(a[1..] + [c] + b, pat, rep)
          == ReplaceAll(a[1..], pat, rep) + [c] + ReplaceAll(b, pat, rep)
    ensures ReplaceAll(a + [c] + b, pat, rep) == ReplaceAll(a, pat, rep) + [c] + ReplaceAll(b, pat, rep)
  {
    var s := a + [c] + b;
    ReplaceAllMiss(s, pat, rep);
    ReplaceAllMiss(a, pat, rep);
    assert s[0] == a[0];
    assert s[1..] == a[1..] + [c] + b;
    FrontStep(ReplaceAll(s, pat, rep), [a[0]], ReplaceAll(s[1..], pat, rep),
              ReplaceAll(a[1..] + [c] + b, pat, rep), ReplaceAll(a, pat, rep),
              ReplaceAll(a[1..], pat, rep), [c], ReplaceAll(b, pat, rep));
  }

  /** Regrouping after one step of replacing: a front put before a tail
      that splits in three joins the first of the three parts. */
  lemma FrontStep(whole: string, front: string, tail: string, tail': string,
                  left: string, left': string, mid: string, right: string)
    requires whole == front + tail && tail == tail' && tail' == left' + mid + right
    requires left == front + left'
    ensures whole == left + mid + right
  {
  }

  /** A pattern that neither occurs in `x` nor overhangs its end is first
      found right after `x`: with no other occurrence after it, it is the
      only one replaced. */
  lemma ReplaceOnce(x: string, pat: string, y: string, rep: string)
    requires pat != [] && !Contains(x, pat) && NoOverhangLeft(x, pat) && !Contains(y, pat)
    ensures ReplaceAll(x + pat + y, pat, rep) == x + rep + y
  {
    var s := x + pat + y;
    assert s[|x|..|x| + |pat|] == pat;
    forall i | 0 <= i < |x|
      ensures !OccursAt(s, pat, i)
    {
      if i + |pat| <= |x| {
        assert s[i..i + |pat|] == x[i..i + |pat|];
        assert !OccursAt(x, pat, i);
      } else if OccursAt(s, pat, i) {
        assert s == x + (pat + y);
        CrossingLeft(x, pat + y, pat, i);
      }
    }
    assert FirstOccurrence(s, pat, |x|);
    ReplaceAllFirstMatch(s, pat, rep, |x|);
    assert s[..|x|] == x && s[|x| + |pat|..] == y;
    ReplaceAllAbsent(y, pat, rep);
  }

  /** A text without the pattern's first character neither holds the
      pattern nor overhangs into it. */
  lemma FirstCharOutside(x: string, pat: string)
    requires pat != [] && pat[0] !in x
    ensures !Contains(x, pat) && NoOverhangLeft(x, pat)
  {
    MissingChar(x, pat, 0);
    forall k | 0 < k < |pat| && k <= |x|
      ensures x[|x| - k..] != pat[..k]
    {
      assert x[|x| - k..][0] == x[|x| - k] && x[|x| - k] in x;
      assert pat[..k][0] == pat[0];
    }
  }
  /** A text without the pattern's last character neither holds the
      pattern nor begins with a proper suffix of it. */
  lemma LastCharOutside(y: string, pat: string)
    requires pat != [] && pat[|pat| - 1] !in y
    ensures !Contains(y, pat) && NoOverhangRight(y, pat)
  {
    MissingChar(y, pat, |pat| - 1);
    forall k | 0 < k < |pat| && k <= |y|
      ensures y[..k] != pat[|pat| - k..]
    {
      assert y[..k][k - 1] == y[k - 1] && y[k - 1] in y;
      assert pat[|pat| - k..][k - 1] == pat[|pat| - 1];
    }
  }


  /** `xs.join(sep)`. */
  function Join(xs: seq<string>, sep: string): string
    decreases |xs|
  {
    if |xs| == 0 then []
    else if |xs| == 1 then xs[0]
    else xs[0] + sep + Join(xs[1..], sep)
  }

  /** Joining two non-empty lists is joining each and putting the separator
      between. */
  lemma {:induction false} JoinConcat(us: seq<string>, vs: seq<string>, sep: string)
    requires |us| > 0 && |vs| > 0
    ensures Join(us + vs, sep) == Join(us, sep) + sep + Join(vs, sep)
    decreases |us|
  {
    assert (us + vs)[0] == us[0];
    if |us| == 1 {
      assert (us + vs)[1..] == vs;
    } else {
      assert (us + vs)[1..] == us[1..] + vs;
      JoinConcat(us[1..], vs, sep);
    }
  }

  /** A joined list seen around one item. */
  lemma JoinAroundOne(front: seq<string>, v: string, back: seq<string>, sep: string)
    requires |front| > 0 && |back| > 0
    ensures Join(front + [v] + back, sep) == Join(front, sep) + sep + v + sep + Join(back, sep)
  {
    var rest := [v] + back;
    assert front + [v] + back == front + rest;
    JoinConcat(front, rest, sep);
    assert rest[0] == v && rest[1..] == back;
    assert Join(rest, sep) == v + sep + Join(back, sep);
  }

  /** A joined list seen around two neighbouring items. */
  lemma JoinAroundPair(xs: seq<string>, j: nat, sep: string)
    requires 0 < j && j + 2 < |xs|
    ensures Join(xs, sep)
         == Join(xs[..j], sep) + sep + xs[j] + sep + xs[j + 1] + sep + Join(xs[j + 2..], sep)
  {
    var back := xs[j + 1..];
    assert xs == xs[..j] + [xs[j]] + back;
    JoinAroundOne(xs[..j], xs[j], back, sep);
    assert back[0] == xs[j + 1] && back[1..] == xs[j + 2..];
    assert Join(back, sep) == xs[j + 1] + sep + Join(xs[j + 2..], sep);
  }

  /** A pattern that spans the separator between items `j` and `j + 1`,
      as `x + pat`, and occurs nowhere else: replacing it merges the two
      items into `x + rep`. */
  lemma JoinReplaceAcross(xs: seq<string>, sep: string, j: nat, x: string, pat: string, rep: string)
    requires 0 < j && j + 2 < |xs| && pat != []
    requires xs[j] + sep + xs[j + 1] == x + pat
    requires !Contains(Join(xs[..j], sep) + sep + x, pat)
    requires NoOverhangLeft(Join(xs[..j], sep) + sep + x, pat)
    requires !Contains(sep + Join(xs[j + 2..], sep), pat)
    ensures ReplaceAll(Join(xs, sep), pat, rep) == Join(xs[..j] + [x + rep] + xs[j + 2..], sep)
  {
    var X, Y := Join(xs[..j], sep) + sep + x, sep + Join(xs[j + 2..], sep);
    var F, B := Join(xs[..j], sep), Join(xs[j + 2..], sep);
    JoinAroundPair(xs, j, sep);
    Regroup(F, sep, xs[j], xs[j + 1], B);
    Regroup(F, sep, x, pat, B);
    ReplaceOnce(X, pat, Y, rep);
    JoinAroundOne(xs[..j], x + rep, xs[j + 2..], sep);
    Regroup(F, sep, x, rep, B);
  }

  /** Four concatenated strings regrouped. */
  lemma Regroup3(a: string, b: string, c: string, d: string)
    ensures (a + b) + c + d == a + (b + c + d)
  {
  }

  /** The concatenations `f sep a sep b sep g` and `f sep (a b) sep g`
      regrouped. */
  lemma Regroup(f: string, sep: string, a: string, b: string, g: string)
    ensures f + sep + a + sep + b + sep + g == f + sep + (a + sep + b) + sep + g
    ensures f + sep + (a + b) + sep + g == (f + sep + a) + b + (sep + g)
  {
  }

  /** Every joined element occurs in the joined string. */
  lemma {:induction false} JoinContainsEach(xs: seq<string>, sep: string)
    ensures forall i :: 0 <= i < |xs| ==> Contains(Join(xs, sep), xs[i])
    decreases |xs|
  {
    if |xs| == 1 {
      ContainsMiddle([], xs[0], []);
      assert [] + xs[0] + [] == xs[0];
    } else if |xs| > 1 {
      JoinContainsEach(xs[1..], sep);
      var rest := Join(xs[1..], sep);
      forall i | 0 <= i < |xs|
        ensures Contains(Join(xs, sep), xs[i])
      {
        if i == 0 {
          ContainsMiddle([], xs[0], sep + rest);
          assert [] + xs[0] + (sep + rest) == Join(xs, sep);
        } else {
          assert xs[i] == xs[1..][i - 1];
          ContainsPrepend(xs[0] + sep, rest, xs[i]);
        }
      }
    }
  }

  /** A separator that keeps `t` inside the joined elements: `t` lacks the
      separator's first character and does not start inside the rest of it. */
  predicate SeparatesFor(sep: string, t: string) {
    t != [] && sep != [] && sep[0] !in t && t[0] !in sep[1..]
  }

  /** With such a separator, a joined string holds `t` only if an element
      does. */
  lemma {:induction false} JoinLacks(xs: seq<string>, sep: string, t: string)
    requires SeparatesFor(sep, t)
    requires forall i :: 0 <= i < |xs| ==> !Contains(xs[i], t)
    ensures !Contains(Join(xs, sep), t)
    decreases |xs|
  {
    if |xs| == 0 {
      assert Join(xs, sep) == [];
    } else if |xs| > 1 {
      var rest := Join(xs[1..], sep);
      JoinLacks(xs[1..], sep, t);
      ContainsSkip(sep[1..], rest, t);
      ContainsSplitAt(xs[0], sep[0], sep[1..] + rest, t);
      assert Join(xs, sep) == xs[0] + [sep[0]] + (sep[1..] + rest);
    }
  }

  /** Each element with every occurrence of `pat` replaced. */
  function ReplaceInEach(xs: seq<string>, pat: string, rep: string): (r: seq<string>)
    requires pat != []
    ensures |r| == |xs|
    ensures forall i :: 0 <= i < |xs| ==> r[i] == ReplaceAll(xs[i], pat, rep)
  {
    seq(|xs|, i requires 0 <= i < |xs| => ReplaceAll(xs[i], pat, rep))
  }

  /** With such a separator, replacing in the joined string is replacing in
      every element: no occurrence spans a separator. */
  lemma {:induction false} JoinReplaceAll(xs: seq<string>, sep: string, pat: string, rep: string)
    requires SeparatesFor(sep, pat)
    ensures ReplaceAll(Join(xs, sep), pat, rep) == Join(ReplaceInEach(xs, pat, rep), sep)
    decreases |xs|
  {
    var ys := ReplaceInEach(xs, pat, rep);
    if |xs| == 0 {
      assert Join(xs, sep) == [];
    } else if |xs| > 1 {
      var rest := Join(xs[1..], sep);
      JoinReplaceAll(xs[1..], sep, pat, rep);
      assert ReplaceInEach(xs[1..], pat, rep) == ys[1..];
      var r0 := ReplaceAll(xs[0], pat, rep);
      var rr := ReplaceAll(rest, pat, rep);
      calc {
        ReplaceAll(Join(xs, sep), pat, rep);
        { JoinSplitSep(xs[0], sep, rest); }
        ReplaceAll(xs[0] + [sep[0]] + (sep[1..] + rest), pat, rep);
        { ReplaceAllSplitAt(xs[0], sep[0], sep[1..] + rest, pat, rep); }
        r0 + [sep[0]] + ReplaceAll(sep[1..] + rest, pat, rep);
        { ReplaceAllSkip(sep[1..], rest, pat, rep); }
        r0 + [sep[0]] + (sep[1..] + rr);
        { JoinSplitSep(r0, sep, rr); }
        r0 + sep + rr;
      }
    }
  }

  /** A separator is its first character followed by the rest. */
  lemma JoinSplitSep(a: string, sep: string, b: string)
    requires sep != []
    ensures a + sep + b == a + [sep[0]] + (sep[1..] + b)
  {
    assert [sep[0]] + sep[1..] == sep;
  }

  /** When only element `j` holds `pat`, replacing in the joined string
      rewrites that element alone. */
  lemma JoinReplaceOne(xs: seq<string>, sep: string, pat: string, rep: string, j: nat)
    requires SeparatesFor(sep, pat) && j < |xs|
    requires forall i :: 0 <= i < |xs| && i != j ==> !Contains(xs[i], pat)
    ensures ReplaceAll(Join(xs, sep), pat, rep) == Join(xs[j := ReplaceAll(xs[j], pat, rep)], sep)
  {
    JoinReplaceAll(xs, sep, pat, rep);
    var ys := ReplaceInEach(xs, pat, rep);
    forall i | 0 <= i < |xs| && i != j
      ensures ys[i] == xs[i]
    {
      ReplaceAllAbsent(xs[i], pat, rep);
    }
    assert ys == xs[j := ReplaceAll(xs[j], pat, rep)];
  }

  /** The one element holding `pat`, given as `x + pat + y` with the
      occurrence after `x` the only one, has it replaced in the joined
      string; the other elements stay as they are. */
  lemma JoinReplaceAt(xs: seq<string>, sep: string, pat: string, rep: string, j: nat, x: string, y: string)
    requires SeparatesFor(sep, pat) && j < |xs|
    requires xs[j] == x + pat + y
    requires !Contains(x, pat) && NoOverhangLeft(x, pat) && !Contains(y, pat)
    requires forall i :: 0 <= i < |xs| && i != j ==> !Contains(xs[i], pat)
    ensures ReplaceAll(Join(xs, sep), pat, rep) == Join(xs[j := x + rep + y], sep)
  {
    JoinReplaceOne(xs, sep, pat, rep, j);
    ReplaceOnce(x, pat, y, rep);
  }

  /** When no element holds `pat`, replacing in the joined string changes
      nothing. */
  lemma JoinReplaceNone(xs: seq<string>, sep: string, pat: string, rep: string)
    requires SeparatesFor(sep, pat)
    requires forall i :: 0 <= i < |xs| ==> !Contains(xs[i], pat)
    ensures ReplaceAll(Join(xs, sep), pat, rep) == Join(xs, sep)
  {
    JoinLacks(xs, sep, pat);
    ReplaceAllAbsent(Join(xs, sep), pat, rep);
  }

  /** The ASCII part of `toUpperCase`: 'a'..'z' become 'A'..'Z'. */
  function UpperChar(c: char): char {
    if 'a' <= c <= 'z' then (c as int - 32) as char else c
  }

  predicate IsLowerAscii(c: char) {
    'a' <= c <= 'z'
  }

  /** `toUpperCase`, restricted to ASCII letters. */
  function ToUpper(s: string): (r: string)
    ensures |r| == |s|
    ensures forall i :: 0 <= i < |s| ==> r[i] == UpperChar(s[i])
    decreases |s|
  {
    if s == [] then [] else [UpperChar(s[0])] + ToUpper(s[1..])
  }

  /** Upper-casing one character leaves no lower-case letter and neither
      creates nor removes white space. */
  lemma UpperCharFacts(c: char)
    ensures !IsLowerAscii(UpperChar(c))
    ensures IsWhitespace(UpperChar(c)) <==> IsWhitespace(c)
    ensures UpperChar(UpperChar(c)) == UpperChar(c)
  {
  }

  /** Upper-casing distributes over a leading character. */
  lemma ToUpperCons(c: char, s: string)
    ensures ToUpper([c] + s) == [UpperChar(c)] + ToUpper(s)
  {
    assert ([c] + s)[1..] == s;
  }

  /** After upper-casing no lower-case ASCII letter is left, white space
      stays where it was, and a second upper-casing changes nothing. */
  lemma ToUpperFacts(s: string)
    ensures forall i :: 0 <= i < |s| ==> !IsLowerAscii(ToUpper(s)[i])
    ensures forall i :: 0 <= i < |s| ==> (IsWhitespace(ToUpper(s)[i]) <==> IsWhitespace(s[i]))
    ensures ToUpper(ToUpper(s)) == ToUpper(s)
  {
    forall i | 0 <= i < |s|
      ensures !IsLowerAscii(ToUpper(s)[i])
      ensures IsWhitespace(ToUpper(s)[i]) <==> IsWhitespace(s[i])
    {
      UpperCharFacts(s[i]);
    }
    var u := ToUpper(s);
    forall i | 0 <= i < |u|
      ensures ToUpper(u)[i] == u[i]
    {
      UpperCharFacts(s[i]);
    }
  }

  predicate IsDigit(c: char) {
    '0' <= c <= '9'
  }

  predicate AllDigits(s: string) {
    forall i :: 0 <= i < |s| ==> IsDigit(s[i])
  }

  function DigitChar(d: nat): (c: char)
    requires d < 10
    ensures IsDigit(c) && c as int - '0' as int == d
  {
    ('0' as int + d) as char
  }

  /** The decimal text JavaScript produces for a non-negative integer inside
      a template literal, such as `${index + 1}`. */
  function NatToString(n: nat): (r: string)
    ensures r != [] && AllDigits(r)
    decreases n
  {
    if n < 10 then [DigitChar(n)] else NatToString(n / 10) + [DigitChar(n % 10)]
  }

  /** Reads back a decimal digit string. */
  function ParseNat(s: string): nat
    requires AllDigits(s)
    decreases |s|
  {
    if s == [] then 0
    else 10 * ParseNat(s[..|s| - 1]) + (s[|s| - 1] as int - '0' as int)
  }

  /** Decimal rendering loses nothing: reading it back gives the number. */
  lemma {:induction false} ParseNatToString(n: nat)
    ensures ParseNat(NatToString(n)) == n
    decreases n
  {
    if n >= 10 {
      var r := NatToString(n);
      ParseNatToString(n / 10);
      assert r[..|r| - 1] == NatToString(n / 10);
    }
  }

  /** Distinct numbers render as distinct strings. */
  lemma NatToStringInjective(m: nat, n: nat)
    requires NatToString(m) == NatToString(n)
    ensures m == n
  {
    ParseNatToString(m);
    ParseNatToString(n);
  }

  /** `String(n)` for an integer. */
  function IntToString(n: int): (r: string)
    ensures r != []
  {
    if n < 0 then "-" + NatToString(-n) else NatToString(n)
  }
}
