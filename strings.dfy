/** The ECMAScript string operations the web part relies on, stated over
    `seq<char>`: `trim`, `split` on a one-character separator, `Array.join`,
    `indexOf`/`includes` on a substring, and `replace` with a string pattern
    (first occurrence only, with the `$` substitution patterns of its
    replacement argument). */
module Strings {

  datatype Option<+T> = None | Some(value: T)

  // ---------------------------------------------------------------------
  // Whitespace and trim
  // ---------------------------------------------------------------------

  /** The characters `String.prototype.trim` strips: the WhiteSpace and
      LineTerminator code points of ECMAScript (TAB, VT, FF, SPACE, NBSP,
      ZWNBSP, the Zs space separators, LF, CR, LS, PS). */
  predicate IsWhitespace(c: char) {
    var n := c as int;
    n == 0x09 || n == 0x0A || n == 0x0B || n == 0x0C || n == 0x0D || n == 0x20 ||
    n == 0xA0 || n == 0x1680 || (0x2000 <= n <= 0x200A) || n == 0x2028 ||
    n == 0x2029 || n == 0x202F || n == 0x205F || n == 0x3000 || n == 0xFEFF
  }

  /** Removes leading whitespace; the result is a suffix of `s`. */
  function TrimStart(s: string): (r: string)
    ensures |r| <= |s| && r == s[|s| - |r|..]
    ensures r == [] || !IsWhitespace(r[0])
    ensures forall i :: 0 <= i < |s| - |r| ==> IsWhitespace(s[i])
  {
    if |s| > 0 && IsWhitespace(s[0]) then TrimStart(s[1..]) else s
  }

  /** Removes trailing whitespace; the result is a prefix of `s`. */
  function TrimEnd(s: string): (r: string)
    ensures |r| <= |s| && r == s[..|r|]
    ensures r == [] || !IsWhitespace(r[|r| - 1])
    ensures forall i :: |r| <= i < |s| ==> IsWhitespace(s[i])
  {
    if |s| > 0 && IsWhitespace(s[|s| - 1]) then TrimEnd(s[..|s| - 1]) else s
  }

  /** `String.prototype.trim`: whitespace removed from both ends. */
  function Trim(s: string): (r: string)
    ensures |r| <= |s|
    ensures r == [] || (!IsWhitespace(r[0]) && !IsWhitespace(r[|r| - 1]))
  {
    TrimEnd(TrimStart(s))
  }

  /** The trim is the slice `s[i..j]` with only whitespace outside it. */
  lemma TrimIsSlice(s: string) returns (i: nat, j: nat)
    ensures i <= j <= |s| && Trim(s) == s[i..j]
    ensures forall k :: 0 <= k < i ==> IsWhitespace(s[k])
    ensures forall k :: j <= k < |s| ==> IsWhitespace(s[k])
  {
    var t := TrimStart(s);
    var r := TrimEnd(t);
    i := |s| - |t|;
    j := i + |r|;
    SliceOfSuffix(s, i, |r|);
    forall k | j <= k < |s| ensures IsWhitespace(s[k]) {
      assert s[k] == t[k - i];
    }
  }

  lemma SliceOfSuffix(s: string, i: nat, m: nat)
    requires i + m <= |s|
    ensures s[i..][..m] == s[i..i + m]
  {
  }

  /** The trimmed string keeps no character that `s` does not have. */
  lemma TrimKeepsOnly(s: string, c: char)
    ensures c !in s ==> c !in Trim(s)
  {
    var i, j := TrimIsSlice(s);
    SliceKeepsOnly(s, i, j, c);
  }

  /** A slice keeps no character that `s` does not have. */
  lemma SliceKeepsOnly(s: string, i: nat, j: nat, c: char)
    requires i <= j <= |s|
    ensures c !in s ==> c !in s[i..j]
  {
    if c in s[i..j] {
      var k :| 0 <= k < j - i && s[i..j][k] == c;
      assert s[i + k] == c;
    }
  }

  /** Only whitespace before and after `text`. */
  predicate AllWhitespace(s: string) {
    forall k :: 0 <= k < |s| ==> IsWhitespace(s[k])
  }

  /** `trim` strips whitespace padding and nothing else. */
  lemma TrimPadded(pre: string, text: string, post: string)
    requires AllWhitespace(pre) && AllWhitespace(post)
    requires text != [] && !IsWhitespace(text[0]) && !IsWhitespace(text[|text| - 1])
    ensures Trim(pre + text + post) == text
  {
    ConcatAssoc(pre, text, post);
    TrimStartSkips(pre, text + post);
    TrimEndSkips(text, post);
  }

  lemma {:induction false} TrimStartSkips(pre: string, x: string)
    requires AllWhitespace(pre)
    requires x != [] && !IsWhitespace(x[0])
    ensures TrimStart(pre + x) == x
    decreases |pre|
  {
    if pre == [] {
      assert pre + x == x;
    } else {
      assert (pre + x)[0] == pre[0];
      assert (pre + x)[1..] == pre[1..] + x;
      TrimStartSkips(pre[1..], x);
    }
  }

  lemma {:induction false} TrimEndSkips(x: string, post: string)
    requires AllWhitespace(post)
    requires x != [] && !IsWhitespace(x[|x| - 1])
    ensures TrimEnd(x + post) == x
    decreases |post|
  {
    if post == [] {
      assert x + post == x;
    } else {
      var n := |x + post|;
      assert (x + post)[n - 1] == post[|post| - 1];
      assert (x + post)[..n - 1] == x + post[..|post| - 1];
      TrimEndSkips(x, post[..|post| - 1]);
    }
  }

  /** A string with no whitespace on either end is its own trim. */
  lemma TrimOfTrimmed(s: string)
    requires s == [] || (!IsWhitespace(s[0]) && !IsWhitespace(s[|s| - 1]))
    ensures Trim(s) == s
  {
  }

  /** `trim().length > 0` holds exactly when some character is not whitespace. */
  lemma TrimEmptyIffBlank(s: string)
    ensures Trim(s) == [] <==> forall k :: 0 <= k < |s| ==> IsWhitespace(s[k])
  {
    var i, j := TrimIsSlice(s);
    if Trim(s) != [] {
      assert s[i] == Trim(s)[0];
    }
  }

  // ---------------------------------------------------------------------
  // Characters, split and join
  // ---------------------------------------------------------------------

  /** Number of occurrences of `c` in `s`. */
  function Count(s: string, c: char): nat {
    if s == [] then 0 else (if s[0] == c then 1 else 0) + Count(s[1..], c)
  }

  /** Index of the first `c` in `s`, or `|s|` when there is none. */
  function FirstIndexOf(s: string, c: char): (r: nat)
    ensures r <= |s|
    ensures r < |s| ==> s[r] == c
    ensures forall j :: 0 <= j < r ==> s[j] != c
  {
    if s == [] then 0 else if s[0] == c then 0 else 1 + FirstIndexOf(s[1..], c)
  }

  /** `s.split(c)` for a one-character separator: the pieces between the
      occurrences of `c`, always at least one (`"".split(";")` is `[""]`). */
  function Split(s: string, c: char): (r: seq<string>)
    ensures |r| >= 1
    ensures forall k :: 0 <= k < |r| ==> c !in r[k]
    decreases |s|
  {
    var i := FirstIndexOf(s, c);
    if i == |s| then [s] else [s[..i]] + Split(s[i + 1..], c)
  }

  /** `parts.join(sep)`. */
  function Join(parts: seq<string>, sep: string): string {
    if |parts| == 0 then ""
    else if |parts| == 1 then parts[0]
    else parts[0] + sep + Join(parts[1..], sep)
  }

  lemma JoinTwo(x: string, y: string, sep: string)
    ensures Join([x, y], sep) == x + sep + y
  {
    assert [x, y][1..] == [y];
  }

  /** Prefix of `s` before its first `c` (all of `s` when there is none). */
  function BeforeFirst(s: string, c: char): (r: string)
    ensures c !in r
    ensures |r| <= |s| && r == s[..|r|]
    ensures c !in s ==> r == s
    ensures c in s ==> |r| < |s| && s[|r|] == c
  {
    if c in s then Split(s, c)[0] else s
  }

  /** The part before the first `c` of `p + [c] + rest`, for a `c`-free `p`. */
  lemma BeforeFirstOfPrefix(p: string, rest: string, c: char)
    requires c !in p
    ensures BeforeFirst(p + [c] + rest, c) == p
  {
    var s := p + [c] + rest;
    assert s[|p|] == c;
    assert forall j :: 0 <= j < |p| ==> s[j] == p[j];
    FirstIndexOfIs(s, c, |p|);
    assert Split(s, c)[0] == s[..|p|] == p;
  }

  lemma {:induction false} CountAfterFirst(s: string, c: char, i: nat)
    requires i < |s| && s[i] == c
    requires forall j :: 0 <= j < i ==> s[j] != c
    ensures Count(s, c) == 1 + Count(s[i + 1..], c)
  {
    if i > 0 {
      assert s[1..][i..] == s[i + 1..];
      CountAfterFirst(s[1..], c, i - 1);
    }
  }

  lemma {:induction false} CountAbsent(s: string, c: char)
    requires c !in s
    ensures Count(s, c) == 0
  {
    if s != [] {
      assert s[0] != c;
      CountAbsent(s[1..], c);
    }
  }

  /** There is one more piece than there are separators. */
  lemma {:induction false} SplitLength(s: string, c: char)
    ensures |Split(s, c)| == Count(s, c) + 1
    decreases |s|
  {
    var i := FirstIndexOf(s, c);
    if i == |s| {
      CountAbsent(s, c);
    } else {
      CountAfterFirst(s, c, i);
      SplitLength(s[i + 1..], c);
    }
  }

  /** The index meeting `FirstIndexOf`'s contract is the one it returns. */
  lemma FirstIndexOfIs(s: string, c: char, i: nat)
    requires i <= |s| && (i < |s| ==> s[i] == c)
    requires forall j :: 0 <= j < i ==> s[j] != c
    ensures FirstIndexOf(s, c) == i
  {
  }

  /** A split at the first `c`, found at `i`. */
  lemma SplitAt(s: string, c: char, i: nat)
    requires i < |s| && s[i] == c
    requires forall j :: 0 <= j < i ==> s[j] != c
    ensures Split(s, c) == [s[..i]] + Split(s[i + 1..], c)
  {
    FirstIndexOfIs(s, c, i);
  }

  lemma ConcatAssoc<T>(x: seq<T>, p: seq<T>, q: seq<T>)
    ensures x + (p + q) == (x + p) + q
  {
  }

  /** The split of `a + [c] + b` is the split of `a` followed by that of `b`. */
  lemma {:induction false} SplitAppend(a: string, b: string, c: char)
    ensures Split(a + [c] + b, c) == Split(a, c) + Split(b, c)
    decreases |a|
  {
    if FirstIndexOf(a, c) == |a| {
      SplitAppendFirst(a, b, c);
    } else {
      var i := FirstIndexOf(a, c);
      SplitAppendStep(a, b, c, i);
      SplitAppend(a[i + 1..], b, c);
      ConcatAssoc([a[..i]], Split(a[i + 1..], c), Split(b, c));
    }
  }

  /** `a` without `c`: the first piece of `a + [c] + b` is `a`. */
  lemma SplitAppendFirst(a: string, b: string, c: char)
    requires FirstIndexOf(a, c) == |a|
    ensures Split(a + [c] + b, c) == Split(a, c) + Split(b, c)
  {
    var s := a + [c] + b;
    assert forall j :: 0 <= j < |a| ==> s[j] == a[j];
    SplitAt(s, c, |a|);
    assert s[..|a|] == a;
    assert s[|a| + 1..] == b;
  }

  /** `a` with its first `c` at `i`: the split of `a + [c] + b` starts with
      `a[..i]` and goes on with the split of `a[i + 1..] + [c] + b`. */
  lemma SplitAppendStep(a: string, b: string, c: char, i: nat)
    requires i < |a| && FirstIndexOf(a, c) == i
    ensures Split(a, c) == [a[..i]] + Split(a[i + 1..], c)
    ensures Split(a + [c] + b, c) == [a[..i]] + Split(a[i + 1..] + [c] + b, c)
  {
    SplitAt(a, c, i);
    ConcatAssoc(a, [c], b);
    ConcatAssoc(a[i + 1..], [c], b);
    SplitOfExtension(a, [c] + b, c, i);
  }

  /** The first `c` of `p` is the first of `p + q`. */
  lemma SplitOfExtension(p: string, q: string, c: char, i: nat)
    requires i < |p| && FirstIndexOf(p, c) == i
    ensures Split(p + q, c) == [p[..i]] + Split(p[i + 1..] + q, c)
  {
    var s := p + q;
    assert s[i] == c;
    assert forall j :: 0 <= j < i ==> s[j] == p[j];
    SplitAt(s, c, i);
    assert s[..i] == p[..i];
    assert s[i + 1..] == p[i + 1..] + q;
  }

  /** Joining the pieces of a split with the separator gives back the string. */
  lemma {:induction false} JoinSplit(s: string, c: char)
    ensures Join(Split(s, c), [c]) == s
    decreases |s|
  {
    var i := FirstIndexOf(s, c);
    if i < |s| {
      var rest := Split(s[i + 1..], c);
      JoinSplit(s[i + 1..], c);
      assert Split(s, c) == [s[..i]] + rest;
      assert ([s[..i]] + rest)[1..] == rest;
      assert s == s[..i] + [c] + s[i + 1..];
    }
  }

  /** Splitting a join of separator-free pieces gives back the pieces. */
  lemma {:induction false} SplitJoin(parts: seq<string>, c: char)
    requires |parts| >= 1
    requires forall k :: 0 <= k < |parts| ==> c !in parts[k]
    ensures Split(Join(parts, [c]), c) == parts
  {
    var p := parts[0];
    assert forall j :: 0 <= j < |p| ==> p[j] != c;
    FirstIndexOfIs(p, c, |p|);
    if |parts| == 1 {
      assert Join(parts, [c]) == p;
    } else {
      var tail := Join(parts[1..], [c]);
      assert Join(parts, [c]) == p + [c] + tail;
      SplitAppendFirst(p, tail, c);
      SplitJoin(parts[1..], c);
      assert parts == [p] + parts[1..];
    }
  }

  /** A character absent from every piece and from the separator is absent
      from the join. */
  lemma {:induction false} JoinExcludes(parts: seq<string>, sep: string, c: char)
    requires c !in sep
    requires forall k :: 0 <= k < |parts| ==> c !in parts[k]
    ensures c !in Join(parts, sep)
  {
    if |parts| > 1 {
      JoinExcludes(parts[1..], sep, c);
    }
  }

  /** Where piece `k` starts in `Join(parts, sep)`: the lengths of the
      pieces before it, each followed by a separator. */
  function JoinOffset(parts: seq<string>, sep: string, k: nat): nat {
    if k == 0 || |parts| == 0 then 0
    else |parts[0]| + |sep| + JoinOffset(parts[1..], sep, k - 1)
  }

  // ---------------------------------------------------------------------
  // Substrings
  // ---------------------------------------------------------------------

  /** `pat` occurs in `s` starting at index `i`. */
  predicate OccursAt(s: string, pat: string, i: nat) {
    i + |pat| <= |s| && s[i..i + |pat|] == pat
  }

  /** First occurrence of `pat` in `s` at or after `from`. */
  function IndexOfFrom(s: string, pat: string, from: nat): (r: Option<nat>)
    ensures r.Some? ==>
              && from <= r.value && OccursAt(s, pat, r.value)
              && forall j :: from <= j < r.value ==> !OccursAt(s, pat, j)
    ensures r.None? ==> forall j :: from <= j ==> !OccursAt(s, pat, j)
    decreases |s| - from
  {
    if from + |pat| > |s| then None
    else if s[from..from + |pat|] == pat then Some(from)
    else IndexOfFrom(s, pat, from + 1)
  }

  /** `s.indexOf(pat)`, with `None` for JavaScript's -1. */
  function IndexOf(s: string, pat: string): (r: Option<nat>)
    ensures r.Some? ==>
              && OccursAt(s, pat, r.value)
              && forall j :: 0 <= j < r.value ==> !OccursAt(s, pat, j)
    ensures r.None? ==> forall j :: !OccursAt(s, pat, j)
  {
    IndexOfFrom(s, pat, 0)
  }

  /** `s.includes(pat)`: true exactly when `pat` occurs somewhere in `s`. */
  predicate Contains(s: string, pat: string) {
    IndexOf(s, pat).Some?
  }

  lemma ContainsIff(s: string, pat: string)
    ensures Contains(s, pat) <==> exists i: nat :: OccursAt(s, pat, i)
  {
  }

  /** `b` occurs in `a + b + c` right after `a`. */
  lemma OccursInMiddle(a: string, b: string, c: string)
    ensures OccursAt(a + b + c, b, |a|)
  {
    assert (a + b + c)[|a|..|a| + |b|] == b;
  }

  /** An occurrence in `b` is an occurrence in `a + b + c`, shifted by `|a|`. */
  lemma OccursWithin(a: string, b: string, c: string, pat: string, i: nat)
    requires OccursAt(b, pat, i)
    ensures OccursAt(a + b + c, pat, |a| + i)
  {
    var s := a + b + c;
    assert s[|a| + i..|a| + i + |pat|] == b[i..i + |pat|];
  }

  /** An occurrence at or after `a` is an occurrence in the suffix `s[a..]`. */
  lemma OccursInSuffix(s: string, pat: string, a: nat, j: nat)
    requires a <= j && OccursAt(s, pat, j)
    ensures OccursAt(s[a..], pat, j - a)
  {
    assert s[a..][j - a..j - a + |pat|] == s[j..j + |pat|];
  }

  /** An occurrence in `c` is an occurrence in `a + b + c`, shifted. */
  lemma OccursShifted(a: string, b: string, c: string, pat: string, i: nat)
    requires OccursAt(c, pat, i)
    ensures OccursAt(a + b + c, pat, |a| + |b| + i)
  {
    var s := a + b + c;
    var o := |a| + |b|;
    assert s[o + i..o + i + |pat|] == c[i..i + |pat|];
  }

  // ---------------------------------------------------------------------
  // String.prototype.replace with a string pattern
  // ---------------------------------------------------------------------

  /** The replacement text of `replace(pattern, replacement)` (GetSubstitution,
      section 22.1.3.19.1 of ECMA-262, with no capture groups): `$$` gives
      `$`, `$&` the matched text, `` $` `` the text before the match, `$'`
      the text after it; every other character, `$` included, is copied. */
  function Substitution(replacement: string, matched: string, before: string, after: string): string
    decreases |replacement|
  {
    if |replacement| == 0 then ""
    else if replacement[0] == '$' && |replacement| >= 2 && replacement[1] == '$' then
      "$" + Substitution(replacement[2..], matched, before, after)
    else if replacement[0] == '$' && |replacement| >= 2 && replacement[1] == '&' then
      matched + Substitution(replacement[2..], matched, before, after)
    else if replacement[0] == '$' && |replacement| >= 2 && replacement[1] == '`' then
      before + Substitution(replacement[2..], matched, before, after)
    else if replacement[0] == '$' && |replacement| >= 2 && replacement[1] == '\'' then
      after + Substitution(replacement[2..], matched, before, after)
    else
      [replacement[0]] + Substitution(replacement[1..], matched, before, after)
  }

  /** Without a `$`, the replacement is inserted literally. */
  lemma {:induction false} SubstitutionLiteral(replacement: string, matched: string, before: string, after: string)
    requires '$' !in replacement
    ensures Substitution(replacement, matched, before, after) == replacement
    decreases |replacement|
  {
    if |replacement| > 0 {
      assert replacement[0] != '$';
      SubstitutionLiteral(replacement[1..], matched, before, after);
      assert replacement == [replacement[0]] + replacement[1..];
    }
  }

  /** A replacement that does not start with `$` keeps its first character. */
  lemma SubstitutionHead(replacement: string, matched: string, before: string, after: string)
    requires |replacement| > 0 && replacement[0] != '$'
    ensures var r := Substitution(replacement, matched, before, after);
      |r| > 0 && r[0] == replacement[0]
  {
  }

  /** `s.replace(pat, replacement)`: only the first occurrence of `pat` is
      replaced; a string without `pat` is returned unchanged. */
  function ReplaceFirst(s: string, pat: string, replacement: string): (r: string)
    ensures IndexOf(s, pat).None? ==> r == s
  {
    match IndexOf(s, pat)
    case None => s
    case Some(i) =>
      s[..i] + Substitution(replacement, pat, s[..i], s[i + |pat|..]) + s[i + |pat|..]
  }

  /** A replacement that does not start with `$` leaves a non-empty result. */
  lemma ReplaceFirstNonEmpty(s: string, pat: string, replacement: string)
    requires Contains(s, pat)
    requires |replacement| > 0 && replacement[0] != '$'
    ensures ReplaceFirst(s, pat, replacement) != ""
  {
    var i := IndexOf(s, pat).value;
    var before, after := s[..i], s[i + |pat|..];
    SubstitutionHead(replacement, pat, before, after);
    assert ReplaceFirst(s, pat, replacement) == before + Substitution(replacement, pat, before, after) + after;
  }

  /** With a `$`-free replacement, `replace` cuts out the first occurrence of
      `pat` and puts `replacement` in its place, leaving the rest untouched. */
  lemma ReplaceFirstLiteral(s: string, pat: string, replacement: string)
    requires '$' !in replacement
    requires Contains(s, pat)
    ensures var i := IndexOf(s, pat).value;
      s == s[..i] + pat + s[i + |pat|..] &&
      ReplaceFirst(s, pat, replacement) == s[..i] + replacement + s[i + |pat|..]
  {
    var i := IndexOf(s, pat).value;
    SubstitutionLiteral(replacement, pat, s[..i], s[i + |pat|..]);
    assert s == s[..i] + s[i..i + |pat|] + s[i + |pat|..];
  }

  /** Piece `k` of a join sits at `JoinOffset(parts, sep, k)`: the pieces
      appear in the join in their original order. */
  lemma {:induction false} JoinPieceAt(parts: seq<string>, sep: string, k: nat)
    requires k < |parts|
    ensures OccursAt(Join(parts, sep), parts[k], JoinOffset(parts, sep, k))
  {
    if |parts| == 1 {
      assert Join(parts, sep) == parts[0];
      assert Join(parts, sep)[0..|parts[0]|] == parts[0];
    } else {
      var rest := Join(parts[1..], sep);
      assert Join(parts, sep) == parts[0] + sep + rest;
      if k == 0 {
        OccursInMiddle([], parts[0], sep + rest);
        assert [] + parts[0] + (sep + rest) == Join(parts, sep);
      } else {
        var o := JoinOffset(parts[1..], sep, k - 1);
        assert JoinOffset(parts, sep, k) == |parts[0]| + |sep| + o;
        assert parts[1..][k - 1] == parts[k];
        JoinPieceAt(parts[1..], sep, k - 1);
        OccursShifted(parts[0], sep, rest, parts[k], o);
      }
    }
  }

  /** Every piece but the last is followed by the separator. */
  lemma {:induction false} JoinSeparatorAfter(parts: seq<string>, sep: string, k: nat)
    requires k + 1 < |parts|
    ensures OccursAt(Join(parts, sep), sep, JoinOffset(parts, sep, k) + |parts[k]|)
  {
    var rest := Join(parts[1..], sep);
    assert Join(parts, sep) == parts[0] + sep + rest;
    if k == 0 {
      assert JoinOffset(parts, sep, k) == 0;
      OccursInMiddle(parts[0], sep, rest);
    } else {
      var o := JoinOffset(parts[1..], sep, k - 1);
      assert JoinOffset(parts, sep, k) == |parts[0]| + |sep| + o;
      assert parts[1..][k - 1] == parts[k];
      JoinSeparatorAfter(parts[1..], sep, k - 1);
      OccursShifted(parts[0], sep, rest, sep, o + |parts[k]|);
    }
  }

  /** The join ends with its last piece. */
  lemma {:induction false} JoinLength(parts: seq<string>, sep: string)
    requires |parts| >= 1
    ensures |Join(parts, sep)| == JoinOffset(parts, sep, |parts| - 1) + |parts[|parts| - 1]|
  {
    if |parts| == 1 {
      assert Join(parts, sep) == parts[0];
      assert JoinOffset(parts, sep, 0) == 0;
    } else {
      var rest := parts[1..];
      JoinLength(rest, sep);
      assert Join(parts, sep) == parts[0] + sep + Join(rest, sep);
      assert JoinOffset(parts, sep, |parts| - 1) == |parts[0]| + |sep| + JoinOffset(rest, sep, |rest| - 1);
      assert rest[|rest| - 1] == parts[|parts| - 1];
    }
  }

  /** `replace` leaves every later occurrence of the pattern in place,
      shifted by the change in length. */
  lemma ReplaceFirstKeepsLater(s: string, pat: string, replacement: string, j: nat)
    requires '$' !in replacement
    requires Contains(s, pat)
    requires j >= IndexOf(s, pat).value + |pat| && OccursAt(s, pat, j)
    ensures OccursAt(ReplaceFirst(s, pat, replacement), pat, j - |pat| + |replacement|)
  {
    var i := IndexOf(s, pat).value;
    var rest := s[i + |pat|..];
    ReplaceFirstLiteral(s, pat, replacement);
    OccursInSuffix(s, pat, i + |pat|, j);
    OccursShifted(s[..i], replacement, rest, pat, j - (i + |pat|));
    assert |s[..i]| + |replacement| + (j - (i + |pat|)) == j - |pat| + |replacement|;
  }
}
