/**
 * The slice of JavaScript string semantics the modelled code relies on:
 * the regular-expression character classes it uses (without the `u` flag),
 * `trim`, `split` on one character, `join`, `indexOf` and number formatting.
 * Strings are sequences of Unicode code points.
 */
module JsStrings {
  import opened Wrappers

  /** JavaScript's LineTerminator set: what `.` refuses and where multiline `^` and `$` anchor. */
  predicate IsLineTerminator(c: char) {
    c == '\n' || c == '\r' || c == '\U{2028}' || c == '\U{2029}'
  }

  /** The `\s` class, which is also the set that `String.prototype.trim` removes. */
  predicate IsSpace(c: char) {
    || ('\t' <= c <= '\r') || c == ' ' || c == '\U{00A0}' || c == '\U{1680}'
    || ('\U{2000}' <= c <= '\U{200A}') || ('\U{2028}' <= c <= '\U{2029}')
    || c == '\U{202F}' || c == '\U{205F}' || c == '\U{3000}' || c == '\U{FEFF}'
  }

  predicate IsAsciiLetter(c: char) {
    ('a' <= c <= 'z') || ('A' <= c <= 'Z')
  }

  predicate IsDigit(c: char) {
    '0' <= c <= '9'
  }

  /** The `\w` class: ASCII letters, digits and underscore (no `u` flag). */
  predicate IsWordChar(c: char) {
    IsAsciiLetter(c) || IsDigit(c) || c == '_'
  }

  lemma LineTerminatorIsSpace(c: char)
    ensures IsLineTerminator(c) ==> IsSpace(c)
  {
  }

  /** The character class `[\w\u4e00-\u9fff-]` of tag names. */
  predicate IsTagChar(c: char) {
    IsWordChar(c) || ('\U{4E00}' <= c <= '\U{9FFF}') || c == '-'
  }

  /** The character class `[0-9a-zA-Z-]` of block identifiers. */
  predicate IsIdChar(c: char) {
    IsAsciiLetter(c) || IsDigit(c) || c == '-'
  }

  /** The character classes the modelled regular expressions repeat greedily. */
  datatype CharClass = Space | Dot | Hash | Newline | NotCloseBrace | NotCloseBracket | TagChar | IdChar
  {
    predicate Has(c: char) {
      match this
      case Space => IsSpace(c)
      case Dot => !IsLineTerminator(c)
      case Hash => c == '#'
      case Newline => c == '\n'
      case NotCloseBrace => c != '}'
      case NotCloseBracket => c != ']'
      case TagChar => IsTagChar(c)
      case IdChar => IsIdChar(c)
    }
  }

  /** Length of the longest run of class `cls` in `t` starting at index `i` (a greedy `[...]*`). */
  function Run(cls: CharClass, t: string, i: nat): (n: nat)
    requires i <= |t|
    ensures i + n <= |t|
    ensures i + n < |t| ==> !cls.Has(t[i + n])
    decreases |t| - i
  {
    if i == |t| || !cls.Has(t[i]) then 0 else 1 + Run(cls, t, i + 1)
  }

  /** Every character of the run is in the class. */
  lemma {:induction false} RunPrefix(cls: CharClass, t: string, i: nat)
    requires i <= |t|
    ensures forall k :: i <= k < i + Run(cls, t, i) ==> cls.Has(t[k])
    decreases |t| - i
  {
    if i < |t| && cls.Has(t[i]) {
      RunPrefix(cls, t, i + 1);
    }
  }

  /** A stretch of the class that the class does not continue is the run. */
  lemma {:induction false} RunExact(cls: CharClass, t: string, i: nat, n: nat)
    requires i + n <= |t| && forall k :: i <= k < i + n ==> cls.Has(t[k])
    requires i + n < |t| ==> !cls.Has(t[i + n])
    ensures Run(cls, t, i) == n
    decreases n
  {
    if n > 0 {
      RunExact(cls, t, i + 1, n - 1);
    }
  }

  /** A run inside `b` is the same run inside `a + b`. */
  lemma {:induction false} RunShift(cls: CharClass, a: string, b: string, i: nat)
    requires i <= |b|
    ensures Run(cls, a + b, |a| + i) == Run(cls, b, i)
    decreases |b| - i
  {
    if i < |b| {
      assert (a + b)[|a| + i] == b[i];
      RunShift(cls, a, b, i + 1);
    }
  }

  /** The run of `[c] + x` extends the run of `x` exactly when `c` is in the class. */
  lemma RunCons(cls: CharClass, c: char, x: string)
    ensures Run(cls, [c] + x, 0) == if cls.Has(c) then 1 + Run(cls, x, 0) else 0
  {
    RunShift(cls, [c], x, 0);
  }

  /** `k` occurs in `s` starting at index `i`. */
  predicate OccursAt(s: string, i: nat, k: string) {
    i + |k| <= |s| && s[i..i + |k|] == k
  }

  /** `s` has no occurrence of `k` at all. */
  predicate Lacks(s: string, k: string) {
    forall i :: 0 <= i <= |s| ==> !OccursAt(s, i, k)
  }

  /** An occurrence in a suffix is an occurrence in the whole string, shifted. */
  lemma OccursInSuffix(s: string, d: nat, j: nat, k: string)
    requires d <= |s| && OccursAt(s[d..], j, k)
    ensures OccursAt(s, d + j, k)
  {
    assert s[d..][j..j + |k|] == s[d + j..d + j + |k|];
  }

  /** The first index at or after `from` where `k` occurs in `s`. */
  function IndexFrom(s: string, k: string, from: nat): (r: Option<nat>)
    requires |k| > 0
    ensures r.Some? ==> from <= r.value && OccursAt(s, r.value, k)
    ensures r.Some? ==> forall j: nat :: from <= j < r.value ==> !OccursAt(s, j, k)
    ensures r.None? ==> forall j: nat :: from <= j ==> !OccursAt(s, j, k)
    decreases |s| - from
  {
    if from + |k| > |s| then None
    else if s[from..from + |k|] == k then Some(from)
    else IndexFrom(s, k, from + 1)
  }

  /** `s.indexOf(k)`, with `None` for -1. */
  function IndexOf(s: string, k: string): (r: Option<nat>)
    requires |k| > 0
    ensures r.Some? ==> OccursAt(s, r.value, k)
    ensures r.Some? ==> forall j: nat :: j < r.value ==> !OccursAt(s, j, k)
    ensures r.None? <==> Lacks(s, k)
  {
    IndexFrom(s, k, 0)
  }

  /**
   * An occurrence of `k` in `x + sep + y` lies within `x` or within `y`
   * when no character of the separator appears in `k`.
   */
  lemma LacksAroundSeparator(x: string, sep: string, y: string, k: string)
    requires Lacks(x, k) && Lacks(y, k) && |k| > 0 && |sep| > 0
    requires forall j :: 0 <= j < |sep| ==> sep[j] !in k
    ensures Lacks(x + sep + y, k)
  {
    var s := x + sep + y;
    forall i | 0 <= i <= |s|
      ensures !OccursAt(s, i, k)
    {
      if i + |k| <= |x| {
        assert s[i..i + |k|] == x[i..i + |k|];
        assert !OccursAt(x, i, k);
      } else if i >= |x| + |sep| {
        if i + |k| <= |s| {
          assert s[i..i + |k|] == y[i - |x| - |sep|..i - |x| - |sep| + |k|];
          assert !OccursAt(y, i - |x| - |sep|, k);
        }
      } else if i + |k| <= |s| {
        var m := if i < |x| then |x| else i;
        assert s[m] == sep[m - |x|];
        assert s[i..i + |k|][m - i] !in k;
      }
    }
  }

  /** Removes leading `\s` characters. */
  function TrimStart(s: string): (r: string)
    ensures |r| <= |s| && r == s[|s| - |r|..]
    ensures forall k :: 0 <= k < |s| - |r| ==> IsSpace(s[k])
    ensures |r| > 0 ==> !IsSpace(r[0])
  {
    if |s| > 0 && IsSpace(s[0]) then TrimStart(s[1..]) else s
  }

  /** Removes trailing `\s` characters. */
  function TrimEnd(s: string): (r: string)
    ensures |r| <= |s| && r == s[..|r|]
    ensures forall k :: |r| <= k < |s| ==> IsSpace(s[k])
    ensures |r| > 0 ==> !IsSpace(r[|r| - 1])
  {
    if |s| > 0 && IsSpace(s[|s| - 1]) then TrimEnd(s[..|s| - 1]) else s
  }

  /** `String.prototype.trim`. */
  function Trim(s: string): (r: string) {
    TrimEnd(TrimStart(s))
  }

  /** The value carries no surrounding whitespace. */
  predicate Untrimmed(s: string) {
    |s| == 0 || (!IsSpace(s[0]) && !IsSpace(s[|s| - 1]))
  }

  lemma TrimKeepsUntrimmed(s: string)
    requires Untrimmed(s)
    ensures Trim(s) == s
  {
    assert TrimStart(s) == s;
  }

  lemma TrimDropsLeadingSpace(c: char, s: string)
    requires IsSpace(c)
    ensures Trim([c] + s) == Trim(s)
  {
    assert ([c] + s)[1..] == s;
  }

  /** `parts.join(sep)`. */
  function Join(parts: seq<string>, sep: string): (r: string) {
    if |parts| == 0 then []
    else if |parts| == 1 then parts[0]
    else parts[0] + sep + Join(parts[1..], sep)
  }

  /** `s.split(sep)` for a one-character separator: the pieces between separators. */
  function Split(s: string, sep: char): (r: seq<string>)
    ensures |r| >= 1
    ensures forall k :: 0 <= k < |r| ==> sep !in r[k]
    ensures Join(r, [sep]) == s
  {
    if |s| == 0 then [[]]
    else
      var rest := Split(s[1..], sep);
      if s[0] == sep then
        assert Join([[]] + rest, [sep]) == [sep] + Join(rest, [sep]);
        [[]] + rest
      else
        var r := [[s[0]] + rest[0]] + rest[1..];
        assert |rest| > 1 ==> rest == [rest[0]] + rest[1..];
        assert Join(r, [sep]) == [s[0]] + Join(rest, [sep]);
        r
  }

  lemma {:induction false} SplitOfPiece(p: string, sep: char)
    requires sep !in p
    ensures Split(p, sep) == [p]
    decreases |p|
  {
    if |p| > 0 {
      SplitOfPiece(p[1..], sep);
      assert [p[0]] + p[1..] == p;
    }
  }

  lemma {:induction false} SplitAfterPiece(p: string, sep: char, rest: string)
    requires sep !in p
    ensures Split(p + [sep] + rest, sep) == [p] + Split(rest, sep)
    decreases |p|
  {
    if |p| == 0 {
      assert (p + [sep] + rest)[1..] == rest;
    } else {
      assert (p + [sep] + rest)[1..] == p[1..] + [sep] + rest;
      SplitAfterPiece(p[1..], sep, rest);
      assert [p[0]] + p[1..] == p;
    }
  }

  /** Splitting undoes joining when no piece holds the separator. */
  lemma {:induction false} SplitJoin(parts: seq<string>, sep: char)
    requires |parts| >= 1
    requires forall k :: 0 <= k < |parts| ==> sep !in parts[k]
    ensures Split(Join(parts, [sep]), sep) == parts
    decreases |parts|
  {
    if |parts| == 1 {
      SplitOfPiece(parts[0], sep);
    } else {
      SplitJoin(parts[1..], sep);
      SplitAfterPiece(parts[0], sep, Join(parts[1..], [sep]));
      assert parts == [parts[0]] + parts[1..];
    }
  }

  /** Joining a concatenation puts one separator between the two joined halves. */
  lemma {:induction false} JoinAppend(a: seq<string>, b: seq<string>, sep: string)
    requires |a| >= 1 && |b| >= 1
    ensures Join(a + b, sep) == Join(a, sep) + sep + Join(b, sep)
    decreases |a|
  {
    if |a| == 1 {
      assert (a + b)[1..] == b;
    } else {
      assert (a + b)[1..] == a[1..] + b;
      JoinAppend(a[1..], b, sep);
    }
  }

  /** The pieces of a join around one chosen part. */
  lemma JoinAround(parts: seq<string>, idx: nat, sep: string)
    requires idx < |parts|
    ensures Join(parts, sep) ==
      (if idx == 0 then [] else Join(parts[..idx], sep) + sep)
      + parts[idx]
      + (if idx + 1 == |parts| then [] else sep + Join(parts[idx + 1..], sep))
  {
    var tail := [parts[idx]] + parts[idx + 1..];
    assert parts == parts[..idx] + tail;
    if idx + 1 < |parts| {
      JoinAppend([parts[idx]], parts[idx + 1..], sep);
    } else {
      assert tail == [parts[idx]];
    }
    if idx > 0 {
      JoinAppend(parts[..idx], tail, sep);
    }
  }

  /** Joining pieces that lack `k` with a separator foreign to `k` creates no occurrence. */
  lemma {:induction false} JoinLacks(parts: seq<string>, sep: string, k: string)
    requires forall j :: 0 <= j < |parts| ==> Lacks(parts[j], k)
    requires |k| > 0 && |sep| > 0 && forall j :: 0 <= j < |sep| ==> sep[j] !in k
    ensures Lacks(Join(parts, sep), k)
    decreases |parts|
  {
    if |parts| == 0 {
      assert forall i :: 0 <= i <= 0 ==> !OccursAt([], i, k);
    } else if |parts| > 1 {
      JoinLacks(parts[1..], sep, k);
      LacksAroundSeparator(parts[0], sep, Join(parts[1..], sep), k);
    }
  }

  /** Every character of a joined string comes from a part or from the separator. */
  lemma {:induction false} JoinChars(parts: seq<string>, sep: string, c: char)
    requires c !in sep
    requires forall j :: 0 <= j < |parts| ==> c !in parts[j]
    ensures c !in Join(parts, sep)
    decreases |parts|
  {
    if |parts| > 1 {
      JoinChars(parts[1..], sep, c);
    }
  }

  /** Decimal rendering of a natural number. */
  function NatToString(n: nat): (r: string)
    ensures |r| >= 1
    ensures forall k :: 0 <= k < |r| ==> IsDigit(r[k])
  {
    var d := ['0', '1', '2', '3', '4', '5', '6', '7', '8', '9'][n % 10];
    if n < 10 then [d] else NatToString(n / 10) + [d]
  }

  /** Template-literal rendering of an integer (`${n}`). */
  function IntToString(n: int): (r: string)
    ensures |r| >= 1
    ensures n >= 0 ==> forall k :: 0 <= k < |r| ==> IsDigit(r[k])
    ensures n < 0 ==> r[0] == '-'
  {
    if n < 0 then "-" + NatToString(-n) else NatToString(n)
  }

  /**
   * `a` is obtained from `b` by deleting characters (order kept).
   * Defined from the end so that it composes with concatenation.
   */
  predicate IsSubsequence(a: string, b: string)
    decreases |b|
  {
    if |b| == 0 then |a| == 0
    else
      || (|a| > 0 && a[|a| - 1] == b[|b| - 1] && IsSubsequence(a[..|a| - 1], b[..|b| - 1]))
      || IsSubsequence(a, b[..|b| - 1])
  }

  lemma {:induction false} SubsequenceOfEmpty(b: string)
    ensures IsSubsequence([], b)
    decreases |b|
  {
    if |b| > 0 {
      SubsequenceOfEmpty(b[..|b| - 1]);
    }
  }

  lemma {:induction false} SubsequenceReflexive(a: string)
    ensures IsSubsequence(a, a)
    decreases |a|
  {
    if |a| > 0 {
      SubsequenceReflexive(a[..|a| - 1]);
    }
  }

  lemma {:induction false} SubsequenceLength(a: string, b: string)
    requires IsSubsequence(a, b)
    ensures |a| <= |b|
    decreases |b|
  {
    if |b| > 0 {
      if |a| > 0 && a[|a| - 1] == b[|b| - 1] && IsSubsequence(a[..|a| - 1], b[..|b| - 1]) {
        SubsequenceLength(a[..|a| - 1], b[..|b| - 1]);
      } else {
        SubsequenceLength(a, b[..|b| - 1]);
      }
    }
  }

  lemma {:induction false} SubsequenceConcat(a1: string, b1: string, a2: string, b2: string)
    requires IsSubsequence(a1, b1) && IsSubsequence(a2, b2)
    ensures IsSubsequence(a1 + a2, b1 + b2)
    decreases |b2|
  {
    if |b2| == 0 {
      assert a1 + a2 == a1 && b1 + b2 == b1;
    } else {
      var b := b1 + b2;
      assert b[..|b| - 1] == b1 + b2[..|b2| - 1];
      if |a2| > 0 && a2[|a2| - 1] == b2[|b2| - 1] && IsSubsequence(a2[..|a2| - 1], b2[..|b2| - 1]) {
        SubsequenceConcat(a1, b1, a2[..|a2| - 1], b2[..|b2| - 1]);
        var a := a1 + a2;
        assert a[..|a| - 1] == a1 + a2[..|a2| - 1];
      } else {
        SubsequenceConcat(a1, b1, a2, b2[..|b2| - 1]);
      }
    }
  }

  lemma ConcatAssoc(x: string, y: string, z: string)
    ensures x + y + z == x + (y + z)
  {
  }

  /** `SubsequenceConcat` for strings already known to be the two concatenations. */
  lemma SubsequenceJoin(a1: string, b1: string, a2: string, b2: string, a: string, b: string)
    requires a == a1 + a2 && b == b1 + b2
    requires IsSubsequence(a1, b1) && IsSubsequence(a2, b2)
    ensures IsSubsequence(a, b)
  {
    SubsequenceConcat(a1, b1, a2, b2);
  }

  lemma {:induction false} SubsequenceTransitive(a: string, b: string, c: string)
    requires IsSubsequence(a, b) && IsSubsequence(b, c)
    ensures IsSubsequence(a, c)
    decreases |c|
  {
    if |c| == 0 {
    } else if IsSubsequence(b, c[..|c| - 1]) {
      SubsequenceTransitive(a, b, c[..|c| - 1]);
    } else {
      assert |b| > 0 && b[|b| - 1] == c[|c| - 1] && IsSubsequence(b[..|b| - 1], c[..|c| - 1]);
      if |a| > 0 && a[|a| - 1] == b[|b| - 1] && IsSubsequence(a[..|a| - 1], b[..|b| - 1]) {
        SubsequenceTransitive(a[..|a| - 1], b[..|b| - 1], c[..|c| - 1]);
      } else {
        SubsequenceTransitive(a, b[..|b| - 1], c[..|c| - 1]);
      }
    }
  }
}
