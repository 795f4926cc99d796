/**
 * The regular expressions of the Kramdown converter, each written out as an
 * explicit matcher that reproduces the backtracking engine's choice, and the
 * one global-replace loop (`String.prototype.replace` with the `g` flag) that
 * every stage shares.
 *
 * A matcher sees the character before the current position (for the `(?<!\w)`
 * lookbehind and the multiline `^`) and the rest of the input; matching always
 * runs against the ORIGINAL string, never against already-replaced text.
 */
module KramdownRegex {
  import opened Wrappers
  import opened JsStrings

  /** The global regular expressions of the converter, by the stage that uses them. */
  datatype Pattern =
    | HeadingId      // /^(#{1,6})\s+(.+?)\s*\{#[^}]+\}\s*$/gm  replaced by '$1 $2'
    | TagRemove      // /(?<!\w)#[\w\u4e00-\u9fff-]+/g          replaced by ''
    | TagEscape      // /^(#{1,6}\s)(#[\w\u4e00-\u9fff-]+)/gm   replaced by '$1\\$2'
    | BlockRef       // /\(\(([0-9a-zA-Z-]+)\)\)/g              replaced by '[块引用](siyuan://$1)'
    | BlockEmbed     // /!\(\(([0-9a-zA-Z-]+)\)\)/g             replaced by ''
    | EmptyComment   // /<!--\s*-->/g                           replaced by ''
    | BlankLines     // /\n{3,}/g                               replaced by '\n\n'
  {
    /** The character every match of this pattern starts with. */
    function Lead(): (r: char) {
      match this
      case HeadingId => '#'
      case TagRemove => '#'
      case TagEscape => '#'
      case BlockRef => '('
      case BlockEmbed => '!'
      case EmptyComment => '<'
      case BlankLines => '\n'
    }

    /** Patterns whose replacement only deletes characters of the match. */
    predicate Deletes() {
      TagRemove? || BlockEmbed? || EmptyComment? || BlankLines?
    }

    /** A preceding character `c` behaves like the start of the input for this pattern. */
    predicate ActsAsStart(c: char) {
      match this
      case HeadingId => IsLineTerminator(c)
      case TagEscape => IsLineTerminator(c)
      case TagRemove => !IsWordChar(c)
      case _ => true
    }
  }

  /** One match: how many characters it spans and the text that replaces them. */
  datatype Match = Match(len: nat, repl: string)

  /** Multiline `^`: at the start of input or right after a line terminator. */
  predicate AtLineStart(prev: Option<char>) {
    prev.None? || IsLineTerminator(prev.value)
  }

  /** Multiline `$`: at the end of input or right before a line terminator. */
  predicate AtLineEnd(t: string, j: nat)
    requires j <= |t|
  {
    j == |t| || IsLineTerminator(t[j])
  }

  /** The identifier length of a `((id))` at the start of `t`. */
  function BlockId(t: string): (r: Option<nat>)
    ensures r.Some? ==> r.value >= 1 && r.value + 4 <= |t|
    ensures r.Some? ==> t[..2] == "((" && t[r.value + 2..r.value + 4] == "))"
  {
    if |t| >= 2 && t[0] == '(' && t[1] == '(' then
      var n := Run(IdChar, t, 2);
      if n >= 1 && n + 4 <= |t| && t[n + 2] == ')' && t[n + 3] == ')' then Some(n) else None
    else None
  }

  /** A block reference is `((`, a nonempty identifier of `[0-9a-zA-Z-]`, then `))`; and any such prefix is one. */
  lemma BlockIdShape(t: string, n: nat)
    ensures BlockId(t) == Some(n) <==>
      && n >= 1 && n + 4 <= |t| && t[..2] == "((" && t[n + 2..n + 4] == "))"
      && forall k :: 2 <= k < n + 2 ==> IsIdChar(t[k])
  {
    if |t| >= 2 {
      RunPrefix(IdChar, t, 2);
      if && n >= 1 && n + 4 <= |t| && t[..2] == "((" && t[n + 2..n + 4] == "))"
         && forall k :: 2 <= k < n + 2 ==> IsIdChar(t[k])
      {
        assert t[n + 2..n + 4][0] == t[n + 2] && t[n + 2..n + 4][1] == t[n + 3];
        assert t[..2][0] == t[0] && t[..2][1] == t[1];
        assert t[0] == '(' && t[1] == '(' && t[n + 2] == ')' && t[n + 3] == ')';
        RunExact(IdChar, t, 2, n);
      }
    }
  }

  // ---------------------------------------------------------------------------
  // The heading-ID regex /^(#{1,6})\s+(.+?)\s*\{#[^}]+\}\s*$/ at a line start.
  // `#{1,6}` can only end at the end of the run of '#' (a shorter run is
  // followed by '#', which `\s` refuses); `\s+` is greedy, `.+?` is lazy; the
  // `\s*\{#[^}]+\}` tail has a single way to match; the final `\s*$` keeps the
  // longest whitespace run that ends at a line end, so it may cross newlines.
  // ---------------------------------------------------------------------------

  /** The end of the greedy `\s*$`: the largest `a + k` (k at most `w`) at a line end. */
  function LineEndWithin(t: string, a: nat, w: nat): (r: Option<nat>)
    requires a + w <= |t|
    ensures r.Some? ==> a <= r.value <= a + w && AtLineEnd(t, r.value)
    decreases w
  {
    if AtLineEnd(t, a + w) then Some(a + w)
    else if w == 0 then None
    else LineEndWithin(t, a, w - 1)
  }

  /** Where the heading tail `\s*\{#[^}]+\}\s*$` can match from `q`: the brace and the match end. */
  function HeadingTail(t: string, q: nat): (r: Option<(nat, nat)>)
    requires q <= |t|
    ensures r.Some? ==> q <= r.value.0 && r.value.0 + 4 <= r.value.1 <= |t|
    ensures r.Some? ==> t[r.value.0] == '{' && t[r.value.0 + 1] == '#' && AtLineEnd(t, r.value.1)
  {
    var b := q + Run(Space, t, q);
    if b + 2 <= |t| && t[b] == '{' && t[b + 1] == '#' then
      var c := b + 2 + Run(NotCloseBrace, t, b + 2);
      if c > b + 2 && c < |t| then
        var e := LineEndWithin(t, c + 1, Run(Space, t, c + 1));
        if e.Some? then Some((b, e.value)) else None
      else None
    else None
  }

  /** The lazy `(.+?)` from `start`, trying text lengths `n`, `n + 1`, ... */
  function HeadingText(t: string, start: nat, n: nat): (r: Option<(nat, nat, nat)>)
    requires 1 <= n && start + n <= |t| + 1
    ensures r.Some? ==> n <= r.value.0 && start + r.value.0 <= r.value.1 && r.value.1 + 4 <= r.value.2 <= |t|
    decreases |t| + 1 - (start + n)
  {
    if start + n > |t| then None
    else if IsLineTerminator(t[start + n - 1]) then None
    else
      var tail := HeadingTail(t, start + n);
      if tail.Some? then Some((n, tail.value.0, tail.value.1)) else HeadingText(t, start, n + 1)
  }

  /** The greedy `\s+` after the hashes, trying gap widths `w`, `w - 1`, ..., 1. */
  function HeadingGap(t: string, h: nat, w: nat): (r: Option<(nat, nat, nat, nat)>)
    requires h + w <= |t|
    ensures r.Some? ==> 1 <= r.value.0 <= w && 1 <= r.value.1
    ensures r.Some? ==> h + r.value.0 + r.value.1 <= r.value.2 && r.value.2 + 4 <= r.value.3 <= |t|
    decreases w
  {
    if w == 0 then None
    else
      var text := HeadingText(t, h + w, 1);
      if text.Some? then Some((w, text.value.0, text.value.1, text.value.2)) else HeadingGap(t, h, w - 1)
  }

  /** The parts of a heading-ID match at the start of `t`. */
  datatype HeadingParts = HeadingParts(hashes: nat, gap: nat, textLen: nat, brace: nat, len: nat)

  function HeadingMatch(t: string): (r: Option<HeadingParts>)
    ensures r.Some? ==> r.value.hashes + r.value.gap + r.value.textLen <= r.value.brace
    ensures r.Some? ==> r.value.brace + 4 <= r.value.len <= |t| && 1 <= r.value.textLen
  {
    var h := Run(Hash, t, 0);
    if 1 <= h <= 6 then
      var gap := HeadingGap(t, h, Run(Space, t, h));
      if gap.Some? then
        var (w, n, b, e) := gap.value;
        Some(HeadingParts(h, w, n, b, e))
      else None
    else None
  }

  /** Where the `}` that closes the identifier after the `{#` at `b` stands. */
  function CloseBrace(t: string, b: nat): (c: nat)
    requires b + 2 <= |t|
    ensures b + 2 <= c <= |t|
  {
    b + 2 + Run(NotCloseBrace, t, b + 2)
  }

  /**
   * The tail from `q`: whitespace up to an opening `{#`, a nonempty identifier without `}`,
   * the closing `}`, and whitespace up to a match end at a line end.
   */
  predicate TailFacts(t: string, q: nat, b: nat, e: nat) {
    && q <= b && b + 4 <= e <= |t|
    && t[b] == '{' && t[b + 1] == '#' && AtLineEnd(t, e)
    && (forall k :: q <= k < b ==> IsSpace(t[k]))
    && b + 2 < CloseBrace(t, b) < e && t[CloseBrace(t, b)] == '}'
    && (forall k :: b + 2 <= k < CloseBrace(t, b) ==> t[k] != '}')
    && (forall k :: CloseBrace(t, b) < k < e ==> IsSpace(t[k]))
  }

  lemma HeadingTailShape(t: string, q: nat, b: nat, e: nat)
    requires q <= |t| && HeadingTail(t, q) == Some((b, e))
    ensures TailFacts(t, q, b, e)
  {
    RunPrefix(Space, t, q);
    var c := CloseBrace(t, b);
    RunPrefix(NotCloseBrace, t, b + 2);
    RunPrefix(Space, t, c + 1);
  }

  /** The lazy text found from length `n` ends where the tail matches. */
  lemma {:induction false} HeadingTextEnds(t: string, start: nat, n: nat, len: nat, b: nat, e: nat)
    requires 1 <= n && start + n <= |t| + 1 && HeadingText(t, start, n) == Some((len, b, e))
    ensures TailFacts(t, start + len, b, e)
    decreases |t| + 1 - (start + n)
  {
    assert start + n <= |t| && !IsLineTerminator(t[start + n - 1]);
    if HeadingTail(t, start + n).None? {
      HeadingTextEnds(t, start, n + 1, len, b, e);
    } else {
      HeadingTailShape(t, start + n, b, e);
    }
  }

  /** The lazy text tried from length `n` holds no line terminator from index `start + n - 1` on. */
  lemma {:induction false} HeadingTextLine(t: string, start: nat, n: nat, len: nat, b: nat, e: nat, k: nat)
    requires 1 <= n && start + n <= |t| + 1 && HeadingText(t, start, n) == Some((len, b, e))
    requires start + n - 1 <= k < start + len
    ensures k < |t| && !IsLineTerminator(t[k])
    decreases |t| + 1 - (start + n)
  {
    assert start + n <= |t| && !IsLineTerminator(t[start + n - 1]);
    if k != start + n - 1 {
      HeadingTextLine(t, start, n + 1, len, b, e, k);
    }
  }

  /** The text, the whitespace and the `{#` that a heading match found after its gap. */
  predicate TextFacts(t: string, start: nat, len: nat, b: nat, e: nat) {
    && TailFacts(t, start + len, b, e)
    && (forall k :: start <= k < start + len ==> !IsLineTerminator(t[k]))
  }

  /** The lazy text search from length 1 stays on one line and ends where the tail matches. */
  lemma HeadingTextFacts(t: string, start: nat, len: nat, b: nat, e: nat)
    requires start + 1 <= |t| + 1 && HeadingText(t, start, 1) == Some((len, b, e))
    ensures TextFacts(t, start, len, b, e)
  {
    HeadingTextEnds(t, start, 1, len, b, e);
    forall k | start <= k < start + len
      ensures !IsLineTerminator(t[k])
    {
      HeadingTextLine(t, start, 1, len, b, e, k);
    }
  }

  /** The greedy gap found from width `w` is followed by a text and tail of the right shape. */
  lemma {:induction false} HeadingGapShape(t: string, h: nat, w: nat, g: (nat, nat, nat, nat))
    requires h + w <= |t| && HeadingGap(t, h, w) == Some(g)
    ensures 1 <= g.0 <= w && TextFacts(t, h + g.0, g.1, g.2, g.3)
    decreases w
  {
    if HeadingText(t, h + w, 1).None? {
      HeadingGapShape(t, h, w - 1, g);
    } else {
      HeadingTextFacts(t, h + w, g.1, g.2, g.3);
    }
  }

  /** What a heading match is made of, stated as facts about the characters of `t`. */
  predicate HeadingFacts(t: string, m: HeadingParts) {
    && m.hashes == Run(Hash, t, 0) && 1 <= m.hashes <= 6
    && 1 <= m.gap <= Run(Space, t, m.hashes)
    && TextFacts(t, m.hashes + m.gap, m.textLen, m.brace, m.len)
  }

  /** Each part of a heading match has the shape its sub-pattern demands. */
  lemma HeadingMatchParts(t: string, m: HeadingParts)
    requires HeadingMatch(t) == Some(m)
    ensures HeadingFacts(t, m)
  {
    var h := Run(Hash, t, 0);
    var w := Run(Space, t, h);
    var g := HeadingGap(t, h, w).value;
    HeadingGapShape(t, h, w, g);
    assert m == HeadingParts(h, g.0, g.1, g.2, g.3);
  }

  /** The heading marker: a run of one to six '#' that the gap's whitespace follows. */
  lemma HeadingMarker(t: string, m: HeadingParts)
    requires HeadingFacts(t, m)
    ensures forall k :: 0 <= k < m.hashes ==> t[k] == '#'
    ensures m.hashes < |t| ==> t[m.hashes] != '#'
    ensures forall k :: m.hashes <= k < m.hashes + m.gap ==> IsSpace(t[k])
  {
    RunPrefix(Hash, t, 0);
    RunPrefix(Space, t, m.hashes);
  }

  /**
   * The characters of a heading line with an identifier: `h` hashes, `g` whitespace,
   * an `n`-character text without `{` that starts and ends with a non-space, whitespace,
   * then `{#` at `b` and the closing `}` at `c`.
   */
  predicate HeadingLayout(t: string, h: nat, g: nat, n: nat, b: nat, c: nat) {
    && 1 <= h <= 6 && 1 <= g && 1 <= n && h + g + n <= b && b + 2 < c < |t|
    && (forall k :: 0 <= k < h ==> t[k] == '#')
    && (forall k :: h <= k < h + g ==> IsSpace(t[k]))
    && !IsSpace(t[h + g]) && !IsSpace(t[h + g + n - 1])
    && (forall k :: h + g <= k < h + g + n ==> !IsLineTerminator(t[k]) && t[k] != '{')
    && (forall k :: h + g + n <= k < b ==> IsSpace(t[k]))
    && t[b] == '{' && t[b + 1] == '#'
    && (forall k :: b + 2 <= k < c ==> t[k] != '}')
    && t[c] == '}'
  }

  /** After the `}` at `e - 1`: the end of input, or one line break followed by a non-space. */
  predicate ClosedAt(t: string, e: nat) {
    e == |t| || (e + 1 < |t| && IsLineTerminator(t[e]) && !IsSpace(t[e + 1]))
  }

  /** The hash run and the greedy gap of a heading layout. */
  lemma LayoutRuns(t: string, h: nat, g: nat, n: nat, b: nat, c: nat)
    requires HeadingLayout(t, h, g, n, b, c)
    ensures Run(Hash, t, 0) == h && Run(Space, t, h) == g
  {
    assert IsSpace(t[h]);
    RunExact(Hash, t, 0, h);
    RunExact(Space, t, h, g);
  }

  /** The tail matches right after the text, up to the `}` and no further. */
  lemma LayoutTail(t: string, h: nat, g: nat, n: nat, b: nat, c: nat)
    requires HeadingLayout(t, h, g, n, b, c) && ClosedAt(t, c + 1)
    ensures HeadingTail(t, h + g + n) == Some((b, c + 1))
  {
    var q := h + g + n;
    RunExact(Space, t, q, b - q);
    RunExact(NotCloseBrace, t, b + 2, c - (b + 2));
    ClosedLineEnd(t, c + 1);
    TailFromParts(t, q, b, c);
  }

  /** The tail, given its runs: whitespace to `b`, `{#`, the identifier to `c`, and a closed line. */
  lemma TailFromParts(t: string, q: nat, b: nat, c: nat)
    requires q <= b && b + 2 < c < |t| && t[b] == '{' && t[b + 1] == '#'
    requires b == q + Run(Space, t, q) && c == b + 2 + Run(NotCloseBrace, t, b + 2)
    requires LineEndWithin(t, c + 1, Run(Space, t, c + 1)) == Some(c + 1)
    ensures HeadingTail(t, q) == Some((b, c + 1))
  {
  }

  /** The greedy `\s*$` after the `}` stops at once when the line is closed. */
  lemma ClosedLineEnd(t: string, e: nat)
    requires e <= |t| && ClosedAt(t, e)
    ensures LineEndWithin(t, e, Run(Space, t, e)) == Some(e)
  {
    if e < |t| {
      LineTerminatorIsSpace(t[e]);
      RunExact(Space, t, e, 1);
      assert !IsLineTerminator(t[e + 1]) by {
        if IsLineTerminator(t[e + 1]) {
          LineTerminatorIsSpace(t[e + 1]);
        }
      }
    }
  }

  /** Inside the text no tail can start: the whitespace run ends on a text character. */
  lemma LayoutNoTailInside(t: string, h: nat, g: nat, n: nat, b: nat, c: nat, q: nat)
    requires HeadingLayout(t, h, g, n, b, c) && h + g < q < h + g + n
    ensures HeadingTail(t, q).None?
  {
    var last := h + g + n - 1;
    RunPrefix(Space, t, q);
    var r := Run(Space, t, q);
    assert r <= last - q;
    assert t[q + r] != '{';
  }

  /** The lazy text search from length `m` finds the text of length `n` when no earlier tail matches. */
  lemma {:induction false} HeadingTextScan(t: string, start: nat, m: nat, n: nat, b: nat, e: nat)
    requires 1 <= m <= n && start + n <= |t|
    requires forall q :: start + m <= q < start + n ==> HeadingTail(t, q).None?
    requires forall k :: start + m - 1 <= k < start + n ==> !IsLineTerminator(t[k])
    requires HeadingTail(t, start + n) == Some((b, e))
    ensures HeadingText(t, start, m) == Some((n, b, e))
    decreases n - m
  {
    assert !IsLineTerminator(t[start + m - 1]);
    if m < n {
      assert HeadingTail(t, start + m).None?;
      HeadingTextScan(t, start, m + 1, n, b, e);
    }
  }

  /** The lazy text of a heading layout is all of its text. */
  lemma LayoutText(t: string, h: nat, g: nat, n: nat, b: nat, c: nat)
    requires HeadingLayout(t, h, g, n, b, c) && ClosedAt(t, c + 1)
    ensures HeadingText(t, h + g, 1) == Some((n, b, c + 1))
  {
    var st := h + g;
    LayoutTail(t, h, g, n, b, c);
    forall q | st + 1 <= q < st + n
      ensures HeadingTail(t, q).None?
    {
      LayoutNoTailInside(t, h, g, n, b, c, q);
    }
    HeadingTextScan(t, st, 1, n, b, c + 1);
  }

  /** The heading match, given its runs and the lazy text search from the gap. */
  lemma MatchFromParts(t: string, h: nat, g: nat, n: nat, b: nat, e: nat)
    requires 1 <= h <= 6 && 1 <= g && h + g <= |t|
    requires Run(Hash, t, 0) == h && Run(Space, t, h) == g
    requires HeadingGap(t, h, g) == Some((g, n, b, e))
    ensures HeadingMatch(t) == Some(HeadingParts(h, g, n, b, e))
  {
  }

  /** At a line start, a heading layout closed after its `}` is replaced by its hashes, one space and its text. */
  lemma LayoutReplaced(t: string, h: nat, g: nat, n: nat, b: nat, c: nat)
    requires HeadingLayout(t, h, g, n, b, c) && ClosedAt(t, c + 1)
    ensures MatchHere(HeadingId, None, t) == Some(Match(c + 1, t[..h] + " " + t[h + g..h + g + n]))
  {
    LayoutRuns(t, h, g, n, b, c);
    LayoutText(t, h, g, n, b, c);
    ReplacedFromParts(t, h, g, n, b, c + 1);
  }

  /** `LayoutReplaced`, with the match length and the replacement given by name. */
  lemma LayoutReplacedAs(t: string, h: nat, g: nat, n: nat, b: nat, c: nat, len: nat, repl: string)
    requires HeadingLayout(t, h, g, n, b, c) && ClosedAt(t, c + 1)
    requires len == c + 1 && repl == t[..h] + " " + t[h + g..h + g + n]
    ensures MatchHere(HeadingId, None, t) == Some(Match(len, repl))
  {
    LayoutReplaced(t, h, g, n, b, c);
  }

  /** The heading replacement, given the heading match's runs and its lazy text search. */
  lemma ReplacedFromParts(t: string, h: nat, g: nat, n: nat, b: nat, e: nat)
    requires 1 <= h <= 6 && 1 <= g && h + g <= |t|
    requires Run(Hash, t, 0) == h && Run(Space, t, h) == g
    requires HeadingText(t, h + g, 1) == Some((n, b, e))
    ensures MatchHere(HeadingId, None, t) == Some(Match(e, t[..h] + " " + t[h + g..h + g + n]))
  {
    GapFromText(t, h, g, n, b, e);
    MatchFromParts(t, h, g, n, b, e);
    ReplacedFromMatch(t, HeadingParts(h, g, n, b, e));
  }

  /** The greedy gap takes the whole whitespace run when the text search succeeds after it. */
  lemma GapFromText(t: string, h: nat, g: nat, n: nat, b: nat, e: nat)
    requires 1 <= g && h + g <= |t|
    requires HeadingText(t, h + g, 1) == Some((n, b, e))
    ensures HeadingGap(t, h, g) == Some((g, n, b, e))
  {
  }

  /** A heading match is replaced by its hashes, one space and its text. */
  lemma ReplacedFromMatch(t: string, m: HeadingParts)
    requires HeadingMatch(t) == Some(m)
    ensures MatchHere(HeadingId, None, t) == Some(Match(m.len, t[..m.hashes] + " " + t[m.hashes + m.gap..m.hashes + m.gap + m.textLen]))
  {
  }

  /** `HeadingId` at a position preceded by `prev`: `$1 $2` is the hashes, a space and the text. */
  function MatchHeadingId(prev: Option<char>, t: string): (r: Option<Match>)
    ensures r.Some? ==> 1 <= r.value.len <= |t| && t[0] == '#'
  {
    if AtLineStart(prev) then
      match HeadingMatch(t)
      case Some(m) =>
        var text := t[m.hashes + m.gap..m.hashes + m.gap + m.textLen];
        Some(Match(m.len, t[..m.hashes] + " " + text))
      case None => None
    else None
  }

  function MatchTagRemove(prev: Option<char>, t: string): (r: Option<Match>)
    ensures r.Some? ==> 2 <= r.value.len <= |t| && t[0] == '#' && r.value.repl == []
  {
    if (prev.None? || !IsWordChar(prev.value)) && |t| >= 2 && t[0] == '#' && IsTagChar(t[1]) then
      Some(Match(1 + Run(TagChar, t, 1), ""))
    else None
  }

  /** `TagEscape` inserts one backslash after `#{1,6}\s`. */
  function MatchTagEscape(prev: Option<char>, t: string): (r: Option<Match>)
    ensures r.Some? ==> 3 <= r.value.len <= |t| && t[0] == '#'
  {
    var h := Run(Hash, t, 0);
    if AtLineStart(prev) && EscapeGuard(t, h) then Some(EscapeTag(t, h)) else None
  }

  /** The shape `#{h}\s#[tag char]` that the escape pattern requires after a line start. */
  predicate EscapeGuard(t: string, h: nat) {
    1 <= h <= 6 && h + 2 < |t| && IsSpace(t[h]) && t[h + 1] == '#' && IsTagChar(t[h + 2])
  }

  /** The escape of the tag after `h` hashes and a space: a backslash goes in before its `#`. */
  function EscapeTag(t: string, h: nat): (m: Match)
    requires EscapeGuard(t, h)
    ensures h + 3 <= m.len <= |t|
  {
    var len := h + 2 + Run(TagChar, t, h + 2);
    Match(len, t[..h + 1] + "\\" + t[h + 1..len])
  }

  /** The link that replaces a block reference to `id`. */
  function RefLink(id: string): (r: string) {
    "[块引用](siyuan://" + id + ")"
  }

  function MatchBlockRef(t: string): (r: Option<Match>)
    ensures r.Some? ==> 5 <= r.value.len <= |t| && t[0] == '('
  {
    match BlockId(t)
    case Some(n) => Some(Match(n + 4, RefLink(t[2..n + 2])))
    case None => None
  }

  function MatchBlockEmbed(t: string): (r: Option<Match>)
    ensures r.Some? ==> 6 <= r.value.len <= |t| && t[0] == '!' && r.value.repl == []
  {
    if |t| >= 1 && t[0] == '!' then
      match BlockId(t[1..])
      case Some(n) => Some(Match(n + 5, ""))
      case None => None
    else None
  }

  function MatchEmptyComment(t: string): (r: Option<Match>)
    ensures r.Some? ==> 7 <= r.value.len <= |t| && t[0] == '<' && r.value.repl == []
  {
    if |t| >= 4 && t[..4] == "<!--" then
      var w := Run(Space, t, 4);
      if w + 7 <= |t| && t[w + 4..w + 7] == "-->" then Some(Match(w + 7, "")) else None
    else None
  }

  /** `BlankLines` takes the whole run of newlines (at least three) and leaves two. */
  function MatchBlankLines(t: string): (r: Option<Match>)
    ensures r.Some? ==> 3 <= r.value.len <= |t| && r.value.repl == "\n\n"
    ensures r.Some? ==> r.value.len == |t| || t[r.value.len] != '\n'
    ensures r.None? ==> Run(Newline, t, 0) < 3
  {
    var n := Run(Newline, t, 0);
    if n >= 3 then Some(Match(n, "\n\n")) else None
  }

  /** The match of pattern `p` at a position preceded by `prev` and followed by `t`. */
  function MatchHere(p: Pattern, prev: Option<char>, t: string): (r: Option<Match>)
    ensures r.Some? ==> 1 <= r.value.len <= |t| && t[0] == p.Lead()
  {
    match p
    case HeadingId => MatchHeadingId(prev, t)
    case TagRemove => MatchTagRemove(prev, t)
    case TagEscape => MatchTagEscape(prev, t)
    case BlockRef => MatchBlockRef(t)
    case BlockEmbed => MatchBlockEmbed(t)
    case EmptyComment => MatchEmptyComment(t)
    case BlankLines => MatchBlankLines(t)
  }

  /** The replacement of a deleting pattern keeps a subsequence of the matched text. */
  lemma MatchHereDeletes(p: Pattern, prev: Option<char>, t: string)
    requires p.Deletes() && MatchHere(p, prev, t).Some?
    ensures IsSubsequence(MatchHere(p, prev, t).value.repl, t[..MatchHere(p, prev, t).value.len])
  {
    var m := MatchHere(p, prev, t).value;
    if p.BlankLines? {
      RunPrefix(Newline, t, 0);
      assert t[..m.len] == t[..m.len - 2] + "\n\n";
      SubsequenceOfEmpty(t[..m.len - 2]);
      SubsequenceReflexive("\n\n");
      SubsequenceConcat([], t[..m.len - 2], "\n\n", "\n\n");
      assert [] + "\n\n" == "\n\n";
    } else {
      SubsequenceOfEmpty(t[..m.len]);
    }
  }

  /** The match of `p` at index `i` of `s`. */
  function MatchAt(p: Pattern, s: string, i: nat): (r: Option<Match>)
    requires i < |s|
    ensures r.Some? ==> 1 <= r.value.len <= |s| - i && s[i] == p.Lead()
  {
    MatchHere(p, if i == 0 then None else Some(s[i - 1]), s[i..])
  }

  /** The match attempted at every index of `s`; matching reads the original string only. */
  function MatchTable(p: Pattern, s: string): (r: seq<Option<Match>>)
    ensures |r| == |s| && Fits(r)
  {
    seq(|s|, k requires 0 <= k < |s| => MatchAt(p, s, k))
  }

  lemma MatchTableAt(p: Pattern, s: string, k: nat)
    requires k < |s|
    ensures MatchTable(p, s)[k] == MatchAt(p, s, k)
  {
  }

  /** Every match of the table ends inside the input. */
  predicate Fits(table: seq<Option<Match>>) {
    forall k :: 0 <= k < |table| && table[k].Some? ==> 1 <= table[k].value.len <= |table| - k
  }

  /**
   * The global replace loop from index `i`: at a match, emit its replacement and
   * continue after it; otherwise copy one character.
   */
  function Scan(table: seq<Option<Match>>, s: string, i: nat): (r: string)
    requires |table| == |s| && Fits(table) && i <= |s|
    decreases |s| - i
  {
    if i == |s| then []
    else if table[i].Some? then table[i].value.repl + Scan(table, s, i + table[i].value.len)
    else [s[i]] + Scan(table, s, i + 1)
  }

  /** `s.replace(p, ...)` with the `g` flag. */
  function Replace(p: Pattern, s: string): (r: string) {
    Scan(MatchTable(p, s), s, 0)
  }

  // ---------------------------------------------------------------------------
  // Facts about the global replacement, for every pattern.
  // ---------------------------------------------------------------------------

  /** Positions where nothing matches are copied through unchanged. */
  lemma {:induction false} ScanSkip(table: seq<Option<Match>>, s: string, i: nat, j: nat)
    requires |table| == |s| && Fits(table) && i <= j <= |s|
    requires forall k :: i <= k < j ==> table[k].None?
    ensures Scan(table, s, i) == s[i..j] + Scan(table, s, j)
    decreases j - i
  {
    if i < j {
      ScanCopyStep(table, s, i);
      ScanSkip(table, s, i + 1, j);
      assert s[i..j] == [s[i]] + s[i + 1..j];
    }
  }

  /** One step of the scan at a match. */
  lemma ScanMatchStep(table: seq<Option<Match>>, s: string, i: nat)
    requires |table| == |s| && Fits(table) && i < |s| && table[i].Some?
    ensures Scan(table, s, i) == table[i].value.repl + Scan(table, s, i + table[i].value.len)
  {
  }

  /** One step of the scan where nothing matches. */
  lemma ScanCopyStep(table: seq<Option<Match>>, s: string, i: nat)
    requires |table| == |s| && Fits(table) && i < |s| && table[i].None?
    ensures Scan(table, s, i) == [s[i]] + Scan(table, s, i + 1)
  {
  }

  lemma FitsSuffix(table: seq<Option<Match>>, d: nat)
    requires Fits(table) && d <= |table|
    ensures Fits(table[d..])
  {
    forall k | 0 <= k < |table| - d && table[d..][k].Some?
      ensures 1 <= table[d..][k].value.len <= |table| - d - k
    {
      assert table[d..][k] == table[d + k];
    }
  }

  /** Where a scan starts does not matter once both see the same table and text from there on. */
  lemma {:induction false} ScanSuffix(table: seq<Option<Match>>, s: string, d: nat, j: nat)
    requires |table| == |s| && Fits(table) && d + j <= |s|
    ensures Fits(table[d..])
    ensures Scan(table, s, d + j) == Scan(table[d..], s[d..], j)
    decreases |s| - d - j
  {
    FitsSuffix(table, d);
    if d + j < |s| {
      if table[d + j].Some? {
        var n := table[d + j].value.len;
        ScanSuffix(table, s, d, j + n);
        assert d + (j + n) == d + j + n;
        ScanSuffixMatch(table, s, d, j);
      } else {
        ScanSuffix(table, s, d, j + 1);
        assert d + (j + 1) == d + j + 1;
        ScanSuffixCopy(table, s, d, j);
      }
    }
  }

  /** A matching step of `ScanSuffix`. */
  lemma ScanSuffixMatch(table: seq<Option<Match>>, s: string, d: nat, j: nat)
    requires |table| == |s| && Fits(table) && d + j < |s| && Fits(table[d..]) && table[d + j].Some?
    requires Scan(table, s, d + j + table[d + j].value.len) == Scan(table[d..], s[d..], j + table[d + j].value.len)
    ensures Scan(table, s, d + j) == Scan(table[d..], s[d..], j)
  {
    assert table[d..][j] == table[d + j];
    ScanMatchStep(table, s, d + j);
    ScanMatchStep(table[d..], s[d..], j);
  }

  /** A copying step of `ScanSuffix`. */
  lemma ScanSuffixCopy(table: seq<Option<Match>>, s: string, d: nat, j: nat)
    requires |table| == |s| && Fits(table) && d + j < |s| && Fits(table[d..]) && table[d + j].None?
    requires Scan(table, s, d + j + 1) == Scan(table[d..], s[d..], j + 1)
    ensures Scan(table, s, d + j) == Scan(table[d..], s[d..], j)
  {
    assert table[d..][j] == table[d + j] && s[d..][j] == s[d + j];
    ScanCopyStep(table, s, d + j);
    ScanCopyStep(table[d..], s[d..], j);
  }

  /** A scan from `d` is the scan of the suffix from `d`. */
  lemma ScanFrom(table: seq<Option<Match>>, s: string, d: nat)
    requires |table| == |s| && Fits(table) && d <= |s|
    ensures Fits(table[d..]) && Scan(table, s, d) == Scan(table[d..], s[d..], 0)
  {
    ScanSuffix(table, s, d, 0);
    assert d + 0 == d;
  }

  /** Input without the pattern's leading character is left as it is. */
  lemma ReplaceWithoutLead(p: Pattern, s: string)
    requires p.Lead() !in s
    ensures Replace(p, s) == s
  {
    var table := MatchTable(p, s);
    forall k | 0 <= k < |s|
      ensures table[k].None?
    {
      assert s[k] != p.Lead();
    }
    ScanSkip(table, s, 0, |s|);
  }

  lemma MatchHereAfterBoundary(p: Pattern, c: char, t: string)
    requires p.ActsAsStart(c)
    ensures MatchHere(p, Some(c), t) == MatchHere(p, None, t)
  {
    match p
    case HeadingId => assert MatchHeadingId(Some(c), t) == MatchHeadingId(None, t);
    case TagEscape => assert MatchTagEscape(Some(c), t) == MatchTagEscape(None, t);
    case TagRemove => assert MatchTagRemove(Some(c), t) == MatchTagRemove(None, t);
    case _ =>
  }

  /**
   * A boundary between `a` and `b` where matching in `b` cannot tell it is not
   * the start of input: the character before acts as a start, or `b` does not
   * open with the pattern's leading character.
   */
  predicate Boundary(p: Pattern, a: string, b: string) {
    |a| == 0 || p.ActsAsStart(a[|a| - 1]) || |b| == 0 || b[0] != p.Lead()
  }

  /** Past a boundary, a match in a suffix is its own. */
  lemma MatchAtShift(p: Pattern, a: string, b: string, j: nat)
    requires j < |b| && Boundary(p, a, b)
    ensures MatchAt(p, a + b, |a| + j) == MatchAt(p, b, j)
  {
    var s := a + b;
    assert s[|a| + j..] == b[j..];
    if j == 0 {
      if |a| > 0 && p.ActsAsStart(a[|a| - 1]) {
        MatchHereAfterBoundary(p, a[|a| - 1], b);
      }
    } else {
      assert s[|a| + j - 1] == b[j - 1];
    }
  }

  /** Past a boundary, the match table of a suffix is its own. */
  lemma MatchTableShift(p: Pattern, a: string, b: string)
    requires Boundary(p, a, b)
    ensures MatchTable(p, a + b)[|a|..] == MatchTable(p, b)
  {
    var big := MatchTable(p, a + b);
    var small := MatchTable(p, b);
    forall j | 0 <= j < |b|
      ensures big[|a| + j] == small[j]
    {
      MatchTableShiftAt(p, a, b, j);
    }
    assert forall j :: 0 <= j < |b| ==> big[|a|..][j] == big[|a| + j];
  }

  /** One entry of `MatchTableShift`. */
  lemma MatchTableShiftAt(p: Pattern, a: string, b: string, j: nat)
    requires j < |b| && Boundary(p, a, b)
    ensures MatchTable(p, a + b)[|a| + j] == MatchTable(p, b)[j]
  {
    var x := MatchTable(p, a + b)[|a| + j];
    var y := MatchTable(p, b)[j];
    MatchTableAt(p, a + b, |a| + j);
    MatchTableAt(p, b, j);
    MatchAtShift(p, a, b, j);
    assert x == MatchAt(p, a + b, |a| + j) == MatchAt(p, b, j) == y;
  }

  /** The replacement of a suffix does not depend on what precedes it, past a boundary. */
  lemma ReplaceShift(p: Pattern, a: string, b: string)
    requires Boundary(p, a, b)
    ensures Scan(MatchTable(p, a + b), a + b, |a|) == Replace(p, b)
  {
    MatchTableShift(p, a, b);
    ScanFrom(MatchTable(p, a + b), a + b, |a|);
    assert (a + b)[|a|..] == b;
  }

  /** A scan whose every replacement keeps a subsequence of its match keeps a subsequence of the input. */
  lemma {:induction false} ScanDeletes(table: seq<Option<Match>>, s: string, i: nat)
    requires |table| == |s| && Fits(table) && i <= |s|
    requires forall k :: 0 <= k < |s| && table[k].Some? ==>
      IsSubsequence(table[k].value.repl, s[k..k + table[k].value.len])
    ensures IsSubsequence(Scan(table, s, i), s[i..])
    decreases |s| - i
  {
    if i == |s| {
      SubsequenceOfEmpty([]);
    } else if table[i].Some? {
      ScanDeletes(table, s, i + table[i].value.len);
      ScanDeletesMatch(table, s, i);
    } else {
      ScanDeletes(table, s, i + 1);
      ScanDeletesCopy(table, s, i);
    }
  }

  lemma ScanDeletesMatch(table: seq<Option<Match>>, s: string, i: nat)
    requires |table| == |s| && Fits(table) && i < |s| && table[i].Some?
    requires IsSubsequence(table[i].value.repl, s[i..i + table[i].value.len])
    requires IsSubsequence(Scan(table, s, i + table[i].value.len), s[i + table[i].value.len..])
    ensures IsSubsequence(Scan(table, s, i), s[i..])
  {
    var m := table[i].value;
    ScanMatchStep(table, s, i);
    assert s[i..] == s[i..i + m.len] + s[i + m.len..];
    SubsequenceJoin(m.repl, s[i..i + m.len], Scan(table, s, i + m.len), s[i + m.len..], Scan(table, s, i), s[i..]);
  }

  lemma ScanDeletesCopy(table: seq<Option<Match>>, s: string, i: nat)
    requires |table| == |s| && Fits(table) && i < |s| && table[i].None?
    requires IsSubsequence(Scan(table, s, i + 1), s[i + 1..])
    ensures IsSubsequence(Scan(table, s, i), s[i..])
  {
    ScanCopyStep(table, s, i);
    assert s[i..] == [s[i]] + s[i + 1..];
    SubsequenceReflexive([s[i]]);
    SubsequenceJoin([s[i]], [s[i]], Scan(table, s, i + 1), s[i + 1..], Scan(table, s, i), s[i..]);
  }

  /** For the deleting patterns the output keeps a subsequence of the input. */
  lemma ReplaceDeletes(p: Pattern, s: string)
    requires p.Deletes()
    ensures IsSubsequence(Replace(p, s), s)
  {
    var table := MatchTable(p, s);
    forall k | 0 <= k < |s| && table[k].Some?
      ensures IsSubsequence(table[k].value.repl, s[k..k + table[k].value.len])
    {
      MatchHereDeletes(p, if k == 0 then None else Some(s[k - 1]), s[k..]);
      assert s[k..][..table[k].value.len] == s[k..k + table[k].value.len];
    }
    ScanDeletes(table, s, 0);
    assert s[0..] == s;
  }

  // ---------------------------------------------------------------------------
  // Splicing: the replacement of a text built from pieces, piece by piece.
  // ---------------------------------------------------------------------------

  /** Where no position matches, the replacement is the input. */
  lemma ReplaceNoMatch(p: Pattern, s: string)
    requires forall k :: 0 <= k < |s| ==> MatchAt(p, s, k).None?
    ensures Replace(p, s) == s
  {
    var table := MatchTable(p, s);
    forall k | 0 <= k < |s|
      ensures table[k].None?
    {
      MatchTableAt(p, s, k);
    }
    ScanSkip(table, s, 0, |s|);
    assert s[0..|s|] == s;
  }

  /** A prefix without the leading character is copied, and the rest is replaced on its own. */
  lemma ReplaceAfterPlain(p: Pattern, a: string, b: string)
    requires p.Lead() !in a && Boundary(p, a, b)
    ensures Replace(p, a + b) == a + Replace(p, b)
  {
    var s := a + b;
    var table := MatchTable(p, s);
    forall k | 0 <= k < |a|
      ensures table[k].None?
    {
      MatchTableAt(p, s, k);
      assert s[k] == a[k];
    }
    ScanSkip(table, s, 0, |a|);
    ReplaceShift(p, a, b);
    assert s[0..|a|] == a;
  }

  /** A match at the very start is replaced, and the text after it is replaced on its own. */
  lemma ReplaceAtStart(p: Pattern, x: string, b: string, repl: string)
    requires |x| >= 1 && MatchHere(p, None, x + b) == Some(Match(|x|, repl)) && Boundary(p, x, b)
    ensures Replace(p, x + b) == repl + Replace(p, b)
  {
    var s := x + b;
    var table := MatchTable(p, s);
    MatchTableAt(p, s, 0);
    assert s[0..] == s;
    ScanMatchStep(table, s, 0);
    ReplaceShift(p, x, b);
  }

  /** A plain prefix `a` that acts as a start is copied in front of the replacement of the rest. */
  lemma ReplaceAfterStart(p: Pattern, a: string, x: string, b: string, r: string)
    requires p.Lead() !in a && (|a| == 0 || p.ActsAsStart(a[|a| - 1]))
    requires Replace(p, x + b) == r
    ensures Replace(p, a + x + b) == a + r
  {
    var rest := x + b;
    assert a + x + b == a + rest;
    ReplaceAfterPlain(p, a, rest);
  }

  // ---------------------------------------------------------------------------
  // No replacement brings in a character other than the input's own and the
  // literal characters of the replacement templates.
  // ---------------------------------------------------------------------------

  /** A character no replacement template writes. */
  predicate Fresh(c: char) {
    c != ' ' && c != '\\' && c != '\n' && c !in RefLink("")
  }

  lemma MatchHereAddsNothing(p: Pattern, prev: Option<char>, t: string, c: char)
    requires Fresh(c) && c !in t && MatchHere(p, prev, t).Some?
    ensures c !in MatchHere(p, prev, t).value.repl
  {
    match p
    case HeadingId => HeadingIdAddsNothing(prev, t, c);
    case TagEscape => EscapeAddsNothing(t, Run(Hash, t, 0), c);
    case BlockRef =>
      var n := BlockId(t).value;
      RefLinkChars(t[2..n + 2], c);
    case _ =>
  }

  lemma HeadingIdAddsNothing(prev: Option<char>, t: string, c: char)
    requires c != ' ' && c !in t && MatchHeadingId(prev, t).Some?
    ensures c !in MatchHeadingId(prev, t).value.repl
  {
    var m := HeadingMatch(t).value;
    SliceKeepsOut(t, 0, m.hashes, c);
    SliceKeepsOut(t, m.hashes + m.gap, m.hashes + m.gap + m.textLen, c);
  }

  lemma EscapeAddsNothing(t: string, h: nat, c: char)
    requires c != '\\' && c !in t && EscapeGuard(t, h)
    ensures c !in EscapeTag(t, h).repl
  {
    var len := EscapeTag(t, h).len;
    SliceKeepsOut(t, 0, h + 1, c);
    SliceKeepsOut(t, h + 1, len, c);
  }

  lemma SliceKeepsOut(t: string, i: nat, j: nat, c: char)
    requires i <= j <= |t| && c !in t
    ensures c !in t[i..j]
  {
  }

  lemma RefLinkChars(id: string, c: char)
    requires c !in RefLink("") && c !in id
    ensures c !in RefLink(id)
  {
    assert RefLink(id) == RefLink("")[..|RefLink("")| - 1] + id + ")";
  }

  lemma {:induction false} ScanAddsNothing(table: seq<Option<Match>>, s: string, i: nat, c: char)
    requires |table| == |s| && Fits(table) && i <= |s| && c !in s
    requires forall k :: 0 <= k < |s| && table[k].Some? ==> c !in table[k].value.repl
    ensures c !in Scan(table, s, i)
    decreases |s| - i
  {
    if i < |s| {
      if table[i].Some? {
        ScanAddsNothing(table, s, i + table[i].value.len, c);
        ScanMatchStep(table, s, i);
      } else {
        ScanAddsNothing(table, s, i + 1, c);
        ScanCopyStep(table, s, i);
      }
    }
  }

  /** A fresh character absent from the input is absent from its replacement. */
  lemma ReplaceAddsNothing(p: Pattern, s: string, c: char)
    requires Fresh(c) && c !in s
    ensures c !in Replace(p, s)
  {
    var table := MatchTable(p, s);
    forall k | 0 <= k < |s| && table[k].Some?
      ensures c !in table[k].value.repl
    {
      MatchTableAt(p, s, k);
      assert c !in s[k..];
      MatchHereAddsNothing(p, if k == 0 then None else Some(s[k - 1]), s[k..], c);
    }
    ScanAddsNothing(table, s, 0, c);
  }
}
