/**
 * YAML frontmatter of an exported note: the leading `---` block that
 * `removeFrontmatter` strips and `parseFrontmatter` reads, the four line
 * patterns the parser looks for, and the block `generateFrontmatter` writes.
 */
module Frontmatter {
  import opened Wrappers
  import opened JsStrings

  /** The opening line `---\n`. */
  const Open: string := "---\n"

  /** The closing delimiter `\n---\n` that the lazy `[\s\S]*?` stops at. */
  const Close: string := "\n---\n"

  /**
   * Where `/^---\n([\s\S]*?)\n---\n/` (no `m` flag, so only at index 0) finds its
   * closing delimiter: the first `\n---\n` that starts after the opening line.
   */
  function BlockClose(s: string): (r: Option<nat>)
    ensures r.Some? ==> 4 <= r.value && r.value + 5 <= |s| && s[..4] == Open
  {
    if |s| >= 4 && s[..4] == Open then IndexFrom(s, Close, 4) else None
  }

  /** `removeFrontmatter`: drops a leading block, or returns the input when there is none. */
  function RemoveFrontmatter(s: string): (r: string)
    ensures |r| <= |s| && r == s[|s| - |r|..]
    ensures (|s| < 4 || s[..4] != Open) ==> r == s
  {
    match BlockClose(s)
    case Some(c) => s[c + 5..]
    case None => s
  }

  /** The removed block runs to the FIRST closing delimiter: no shorter block exists. */
  lemma RemovedBlockIsShortest(s: string, c: nat)
    requires BlockClose(s) == Some(c)
    ensures s[..c + 5] == Open + s[4..c] + Close
    ensures forall j :: 4 <= j < c ==> !OccursAt(s, j, Close)
    ensures RemoveFrontmatter(s) == s[c + 5..]
  {
    assert OccursAt(s, c, Close);
    assert s[..c + 5] == s[..4] + s[4..c] + s[c..c + 5];
  }

  /** Without a closing delimiter after the opening line nothing is removed. */
  lemma UnclosedBlockKept(s: string)
    requires forall j :: 4 <= j ==> !OccursAt(s, j, Close)
    ensures RemoveFrontmatter(s) == s
  {
  }

  // ---------------------------------------------------------------------------
  // The scalar lines `key:\s*(.+)`, searched anywhere in the block (no anchor).
  // ---------------------------------------------------------------------------

  /** The largest `k` in `[p, p + w)` whose character `.` accepts. */
  function LastDotWithin(s: string, p: nat, w: nat): (r: Option<nat>)
    requires p + w <= |s|
    ensures r.Some? ==> p <= r.value < p + w && !IsLineTerminator(s[r.value])
    decreases w
  {
    if w == 0 then None
    else if !IsLineTerminator(s[p + w - 1]) then Some(p + w - 1)
    else LastDotWithin(s, p, w - 1)
  }

  /**
   * `key:\s*(.+)` tried at index `i`: the captured text, before trimming. The
   * greedy `\s*` may cross newlines; it gives characters back only when it ran
   * to the end of the block, because `.+` needs one character.
   */
  function ScalarAt(s: string, key: string, i: nat): (r: Option<string>)
  {
    if OccursAt(s, i, key) then
      var p := i + |key|;
      var w := Run(Space, s, p);
      if p + w < |s| then Some(s[p + w..p + w + Run(Dot, s, p + w)])
      else
        match LastDotWithin(s, p, w)
        case Some(k) => Some(s[k..k + Run(Dot, s, k)])
        case None => None
    else None
  }

  /** The first index at or after `i` where `key:\s*(.+)` matches. */
  function ScalarFrom(s: string, key: string, i: nat): (r: Option<string>)
    ensures r.Some? ==> exists j :: i <= j <= |s| && OccursAt(s, j, key)
    decreases |s| + 1 - i
  {
    if i > |s| then None
    else if ScalarAt(s, key, i).Some? then ScalarAt(s, key, i)
    else ScalarFrom(s, key, i + 1)
  }

  /** `frontmatter.match(/key:\s*(.+)/)`, trimmed as the parser does. */
  function ScalarField(s: string, key: string): (r: Option<string>)
    ensures r.Some? ==> Untrimmed(r.value)
  {
    match ScalarFrom(s, key, 0)
    case Some(v) => TrimIsUntrimmed(v); Some(Trim(v))
    case None => None
  }

  // ---------------------------------------------------------------------------
  // The tag line `tags:\s*\[([^\]]+)\]`, also unanchored.
  // ---------------------------------------------------------------------------

  /** `tags:\s*\[([^\]]+)\]` tried at index `i`: the text between the brackets. */
  function TagGroupAt(s: string, i: nat): (r: Option<string>)
    ensures r.Some? ==> |r.value| >= 1 && ']' !in r.value
  {
    if OccursAt(s, i, "tags:") then
      var q := i + 5 + Run(Space, s, i + 5);
      if q < |s| && s[q] == '[' then
        var n := Run(NotCloseBracket, s, q + 1);
        RunPrefix(NotCloseBracket, s, q + 1);
        if n >= 1 && q + 1 + n < |s| then Some(s[q + 1..q + 1 + n]) else None
      else None
    else None
  }

  function TagGroupFrom(s: string, i: nat): (r: Option<string>)
    ensures r.Some? ==> |r.value| >= 1 && ']' !in r.value
    decreases |s| + 1 - i
  {
    if i > |s| then None
    else if TagGroupAt(s, i).Some? then TagGroupAt(s, i)
    else TagGroupFrom(s, i + 1)
  }

  predicate IsQuote(c: char) {
    c == '"' || c == '\''
  }

  /** `t.replace(/^["']|["']$/g, '')`: one leading and one trailing quote, each on its own. */
  function StripQuotes(t: string): (r: string)
    ensures |r| <= |t| && (|r| == |t| || |r| + 1 == |t| || |r| + 2 == |t|)
    ensures (|t| == 0 || (!IsQuote(t[0]) && !IsQuote(t[|t| - 1]))) ==> r == t
  {
    var a := if |t| > 0 && IsQuote(t[0]) then t[1..] else t;
    if |a| > 0 && IsQuote(a[|a| - 1]) then a[..|a| - 1] else a
  }

  /** `extractTagsFromFrontmatter`: the bracketed list split on `,`, each part trimmed. */
  function ExtractTagsFromFrontmatter(frontmatter: string): (r: seq<string>)
    ensures forall k :: 0 <= k < |r| ==> Untrimmed(r[k]) && ',' !in r[k]
  {
    match TagGroupFrom(frontmatter, 0)
    case Some(g) =>
      var parts := Split(g, ',');
      TrimAllIsUntrimmed(parts, ',');
      seq(|parts|, k requires 0 <= k < |parts| => Trim(parts[k]))
    case None => []
  }

  /** The parser's tag list: as extracted, then with quotes stripped. */
  function TagsField(frontmatter: string): (r: Option<seq<string>>)
    ensures r.Some? ==> |r.value| >= 1
  {
    match TagGroupFrom(frontmatter, 0)
    case Some(g) => Some(TagList(g))
    case None => None
  }

  /** The tags of a bracketed group: split on `,`, each part trimmed and stripped of quotes. */
  function TagList(g: string): (r: seq<string>)
    ensures |r| == |Split(g, ',')|
  {
    var parts := Split(g, ',');
    seq(|parts|, k requires 0 <= k < |parts| => StripQuotes(Trim(parts[k])))
  }

  /** The parser's tags are the extracted tags with quotes stripped; no tags group means no tags field. */
  lemma TagsFieldStripsExtracted(frontmatter: string)
    ensures TagsField(frontmatter).None? <==> |ExtractTagsFromFrontmatter(frontmatter)| == 0
    ensures TagsField(frontmatter).Some? ==>
      var ex := ExtractTagsFromFrontmatter(frontmatter);
      TagsField(frontmatter).value == seq(|ex|, k requires 0 <= k < |ex| => StripQuotes(ex[k]))
  {
  }

  lemma TrimIsUntrimmed(v: string)
    ensures Untrimmed(Trim(v))
  {
  }

  lemma TrimAllIsUntrimmed(parts: seq<string>, c: char)
    requires forall k :: 0 <= k < |parts| ==> c !in parts[k]
    ensures forall k :: 0 <= k < |parts| ==> Untrimmed(Trim(parts[k])) && c !in Trim(parts[k])
  {
    forall k | 0 <= k < |parts|
      ensures Untrimmed(Trim(parts[k])) && c !in Trim(parts[k])
    {
      TrimIsUntrimmed(parts[k]);
      TrimKeepsOut(parts[k], c);
    }
  }

  /** Trimming only drops characters: one absent before is absent after. */
  lemma TrimKeepsOut(v: string, c: char)
    requires c !in v
    ensures c !in Trim(v)
  {
    var s := TrimStart(v);
    assert s == v[|v| - |s|..];
    assert c !in s;
    assert Trim(v) == s[..|Trim(v)|];
  }

  // ---------------------------------------------------------------------------
  // Metadata, parsing and generation.
  // ---------------------------------------------------------------------------

  /** `DocMeta`: every field optional. */
  datatype DocMeta = DocMeta(
    title: Option<string>,
    date: Option<string>,
    lastmod: Option<string>,
    tags: Option<seq<string>>,
    id: Option<string>)

  const NoMeta: DocMeta := DocMeta(None, None, None, None, None)

  /** The `{ meta, body }` result of `parseFrontmatter`. */
  datatype Parsed = Parsed(meta: DocMeta, body: string)

  /** `parseFrontmatter`: the fields found in the leading block, and the text after it. */
  function ParseFrontmatter(content: string): (r: Parsed)
    ensures r.body == RemoveFrontmatter(content)
    ensures r.meta.id.None?
    ensures BlockClose(content).None? ==> r.meta == NoMeta && r.body == content
    ensures r.meta.title.Some? ==> Untrimmed(r.meta.title.value)
    ensures r.meta.tags.Some? ==> |r.meta.tags.value| >= 1
  {
    match BlockClose(content)
    case None => Parsed(NoMeta, content)
    case Some(c) =>
      var front := content[4..c];
      var meta := DocMeta(
        ScalarField(front, "title:"), ScalarField(front, "date:"), ScalarField(front, "lastmod:"),
        TagsField(front), None);
      Parsed(meta, content[c + 5..])
  }

  /** A template value `${v}` is written only when it is truthy, i.e. a nonempty string. */
  predicate Written(v: Option<string>) {
    v.Some? && |v.value| > 0
  }

  /** The field lines `generateFrontmatter` writes, as (key, text) pairs in order. */
  function FieldPairs(meta: DocMeta): (r: seq<(string, string)>)
    ensures |r| <= 4
  {
    (if Written(meta.title) then [("title:", meta.title.value)] else [])
    + (if Written(meta.date) then [("date:", meta.date.value)] else [])
    + (if Written(meta.lastmod) then [("lastmod:", meta.lastmod.value)] else [])
    + (if meta.tags.Some? && |meta.tags.value| > 0 then [("tags:", TagText(meta.tags.value))] else [])
  }

  /** The line `key: text` for each pair. */
  function Render(pairs: seq<(string, string)>): (r: seq<string>)
    ensures |r| == |pairs|
  {
    seq(|pairs|, j requires 0 <= j < |pairs| => pairs[j].0 + " " + pairs[j].1)
  }

  /** `generateFrontmatter`: `---`, the field lines, `---` and an empty line, joined by `\n`. */
  function GenerateFrontmatter(meta: DocMeta): (r: string) {
    Join(["---"] + Render(FieldPairs(meta)) + ["---", ""], "\n")
  }

  // ---------------------------------------------------------------------------
  // Round trip: parsing a generated block gives the metadata back.
  // ---------------------------------------------------------------------------

  /** The keys the parser searches for. */
  const Keys: seq<string> := ["title:", "date:", "lastmod:", "tags:"]

  /** No line break is directly followed by '-', so no line can be `---`. */
  predicate NoDashLine(s: string) {
    forall i :: 0 <= i < |s| - 1 ==> !(s[i] == '\n' && s[i + 1] == '-')
  }

  /** A value the generator writes on one line and the parser reads back unchanged. */
  predicate PlainValue(v: string) {
    && |v| > 0 && Untrimmed(v)
    && (forall k :: 0 <= k < |v| ==> !IsLineTerminator(v[k]))
    && (forall j :: 0 <= j < |Keys| ==> Lacks(v, Keys[j]))
  }

  /** A tag that survives joining with `, `, splitting on `,`, trimming and quote stripping. */
  predicate PlainTag(t: string) {
    PlainValue(t) && ',' !in t && ']' !in t && !IsQuote(t[0]) && !IsQuote(t[|t| - 1])
  }

  /** A nonempty list of plain tags. */
  predicate PlainTags(tags: seq<string>) {
    |tags| >= 1 && forall k :: 0 <= k < |tags| ==> PlainTag(tags[k])
  }

  /** The metadata `parseFrontmatter(generateFrontmatter(meta) + body)` gives back. */
  predicate RoundTrips(meta: DocMeta) {
    && meta.id.None?
    && (meta.title.None? || PlainValue(meta.title.value))
    && (meta.date.None? || PlainValue(meta.date.value))
    && (meta.lastmod.None? || PlainValue(meta.lastmod.value))
    && (meta.tags.None? || PlainTags(meta.tags.value))
    && (meta.title.Some? || meta.date.Some? || meta.lastmod.Some? || meta.tags.Some?)
  }

  /** With at least one field, the generated text is the opening line, the joined field lines and the closing delimiter. */
  lemma GeneratedShape(meta: DocMeta)
    requires |FieldPairs(meta)| >= 1
    ensures GenerateFrontmatter(meta) == Open + Join(Render(FieldPairs(meta)), "\n") + Close
  {
    FramedJoin(Render(FieldPairs(meta)));
  }

  /** Lines framed by `---` and `---`, `` and joined by `\n`. */
  lemma ClosingJoin()
    ensures Join(["---", ""], "\n") == "---\n"
  {
    var closing := ["---", ""];
    JoinFirst(closing, "\n");
    assert closing[1..] == [""];
    JoinOne("", "\n");
  }

  lemma FramedJoin(lines: seq<string>)
    requires |lines| >= 1
    ensures Join(["---"] + lines + ["---", ""], "\n") == Open + Join(lines, "\n") + Close
  {
    var j := Join(lines, "\n");
    var opening := ["---"] + lines;
    ClosingJoin();
    JoinOne("---", "\n");
    JoinAppend(["---"], lines, "\n");
    JoinAppend(opening, ["---", ""], "\n");
    DelimiterParts();
    ConcatAssoc(Open + j, "\n", "---\n");
  }

  lemma DelimiterParts()
    ensures "---" + "\n" == Open && "\n" + "---\n" == Close
  {
  }

  /** A block whose text has no `\n-` closes at the delimiter after it. */
  lemma BlockOf(front: string, body: string)
    requires NoDashLine(front)
    ensures BlockClose(Open + front + Close + body) == Some(4 + |front|)
  {
    var s := Open + front + Close + body;
    assert s[..4] == Open;
    assert OccursAt(s, 4 + |front|, Close) by {
      assert s[4 + |front|..4 + |front| + 5] == Close;
    }
    forall j | 4 <= j < 4 + |front|
      ensures !OccursAt(s, j, Close)
    {
      if j + 5 <= |s| {
        assert s[j..j + 5][0] == s[j] && s[j..j + 5][1] == s[j + 1];
      }
      if j + 1 < 4 + |front| {
        assert s[j] == front[j - 4] && s[j + 1] == front[j - 3];
      } else {
        assert s[j + 1] == '\n';
      }
    }
  }

  /** Lines without line breaks whose first character is not '-' join into text without a `---` line. */
  lemma {:induction false} JoinedLinesNoDash(lines: seq<string>)
    requires forall j :: 0 <= j < |lines| ==> |lines[j]| > 0 && lines[j][0] != '-' && '\n' !in lines[j]
    ensures NoDashLine(Join(lines, "\n"))
    decreases |lines|
  {
    if |lines| > 1 {
      JoinedLinesNoDash(lines[1..]);
      var rest := Join(lines[1..], "\n");
      assert |rest| > 0 && rest[0] == lines[1][0] by {
        JoinAround(lines[1..], 0, "\n");
      }
      var s := lines[0] + "\n" + rest;
      forall i | 0 <= i < |s| - 1
        ensures !(s[i] == '\n' && s[i + 1] == '-')
      {
        if i < |lines[0]| {
          assert s[i] == lines[0][i];
        } else if i == |lines[0]| {
          assert s[i + 1] == rest[0];
        } else {
          assert s[i] == rest[i - |lines[0]| - 1] && s[i + 1] == rest[i - |lines[0]|];
        }
      }
    }
  }

  /** When `key:` does not start at any index in `[i, j)`, the search passes over them. */
  lemma {:induction false} ScalarFromSkip(s: string, key: string, i: nat, j: nat)
    requires i <= j <= |s| + 1
    requires forall k :: i <= k < j ==> !OccursAt(s, k, key)
    ensures ScalarFrom(s, key, i) == ScalarFrom(s, key, j)
    decreases j - i
  {
    if i < j {
      ScalarFromSkip(s, key, i + 1, j);
    }
  }

  lemma {:induction false} TagGroupFromSkip(s: string, i: nat, j: nat)
    requires i <= j <= |s| + 1
    requires forall k :: i <= k < j ==> !OccursAt(s, k, "tags:")
    ensures TagGroupFrom(s, i) == TagGroupFrom(s, j)
    decreases j - i
  {
    if i < j {
      TagGroupFromSkip(s, i + 1, j);
    }
  }

  /** A key with no line break first occurs after a prefix that lacks it and ends a line. */
  lemma FirstAfterLine(prefix: string, key: string, rest: string)
    requires |key| > 0 && '\n' !in key && Lacks(prefix, key)
    requires |prefix| == 0 || prefix[|prefix| - 1] == '\n'
    ensures forall k :: 0 <= k < |prefix| ==> !OccursAt(prefix + key + rest, k, key)
  {
    var s := prefix + key + rest;
    forall k | 0 <= k < |prefix|
      ensures !OccursAt(s, k, key)
    {
      if k + |key| <= |prefix| {
        assert s[k..k + |key|] == prefix[k..k + |key|];
        assert !OccursAt(prefix, k, key);
      } else if k + |key| <= |s| {
        assert s[k..k + |key|][|prefix| - 1 - k] == s[|prefix| - 1] == '\n';
      }
    }
  }

  /** At an occurrence of `key` followed by one space, `v` and a line end, the capture is `v`. */
  lemma ScalarAtLine(s: string, i: nat, key: string, v: string)
    requires OccursAt(s, i, key) && |v| > 0 && i + |key| + 1 + |v| <= |s|
    requires s[i + |key|] == ' ' && !IsSpace(v[0])
    requires forall k :: 0 <= k < |v| ==> s[i + |key| + 1 + k] == v[k] && !IsLineTerminator(v[k])
    requires AtLineEndOf(s, i + |key| + 1 + |v|)
    ensures ScalarAt(s, key, i) == Some(v)
  {
    var p := i + |key|;
    RunExact(Space, s, p, 1);
    forall k | p + 1 <= k < p + 1 + |v|
      ensures Dot.Has(s[k])
    {
      assert s[k] == v[k - (p + 1)];
    }
    RunExact(Dot, s, p + 1, |v|);
    ScalarAtRuns(s, key, i, 1, |v|);
    assert s[p + 1..p + 1 + |v|] == v;
  }

  /** With the space run and the capture run known, the capture is the slice they delimit. */
  lemma ScalarAtRuns(s: string, key: string, i: nat, w: nat, n: nat)
    requires OccursAt(s, i, key) && i + |key| + w < |s|
    requires Run(Space, s, i + |key|) == w && Run(Dot, s, i + |key| + w) == n
    ensures n <= |s| - (i + |key| + w)
    ensures ScalarAt(s, key, i) == Some(s[i + |key| + w..i + |key| + w + n])
  {
  }

  /** `j` is the end of `s` or the index of a line terminator. */
  predicate AtLineEndOf(s: string, j: nat) {
    j == |s| || (j < |s| && IsLineTerminator(s[j]))
  }

  /** The search returns the capture at the first occurrence of the key. */
  lemma ScalarFirst(s: string, key: string, i: nat, v: string)
    requires i <= |s| && forall k :: 0 <= k < i ==> !OccursAt(s, k, key)
    requires ScalarAt(s, key, i) == Some(v) && Untrimmed(v)
    ensures ScalarField(s, key) == Some(v)
  {
    ScalarFromSkip(s, key, 0, i);
    TrimKeepsUntrimmed(v);
  }

  /** `key: v` on its own line is read back as `v`. */
  lemma ScalarFound(prefix: string, key: string, v: string, suffix: string)
    requires |key| > 0 && '\n' !in key && Lacks(prefix, key)
    requires |prefix| == 0 || prefix[|prefix| - 1] == '\n'
    requires |v| > 0 && Untrimmed(v) && forall k :: 0 <= k < |v| ==> !IsLineTerminator(v[k])
    requires |suffix| == 0 || suffix[0] == '\n'
    ensures ScalarField(prefix + key + " " + v + suffix, key) == Some(v)
  {
    var s := prefix + key + " " + v + suffix;
    var rest := " " + v + suffix;
    assert s == prefix + key + rest;
    FirstAfterLine(prefix, key, rest);
    assert s[|prefix|..|prefix| + |key|] == key;
    ScalarAtLine(s, |prefix|, key, v);
    ScalarFirst(s, key, |prefix|, v);
  }

  /** A key that occurs nowhere is not found. */
  lemma {:induction false} ScalarAbsent(s: string, key: string, i: nat)
    requires Lacks(s, key) && i <= |s| + 1
    ensures ScalarFrom(s, key, i) == None
    decreases |s| + 1 - i
  {
    if i <= |s| {
      ScalarAbsent(s, key, i + 1);
    }
  }

  lemma {:induction false} TagGroupAbsent(s: string, i: nat)
    requires Lacks(s, "tags:") && i <= |s| + 1
    ensures TagGroupFrom(s, i) == None
    decreases |s| + 1 - i
  {
    if i <= |s| {
      TagGroupAbsent(s, i + 1);
    }
  }

  /** At an occurrence of `tags:` followed by one space and `[g]`, the group is `g`. */
  lemma TagGroupAtLine(s: string, i: nat, g: string)
    requires OccursAt(s, i, "tags:") && |g| > 0 && ']' !in g && i + 8 + |g| <= |s|
    requires s[i + 5] == ' ' && s[i + 6] == '[' && s[i + 7 + |g|] == ']'
    requires forall k :: 0 <= k < |g| ==> s[i + 7 + k] == g[k]
    ensures TagGroupAt(s, i) == Some(g)
  {
    RunExact(Space, s, i + 5, 1);
    forall k | i + 7 <= k < i + 7 + |g|
      ensures NotCloseBracket.Has(s[k])
    {
      assert s[k] == g[k - (i + 7)];
    }
    RunExact(NotCloseBracket, s, i + 7, |g|);
    assert s[i + 7..i + 7 + |g|] == g;
  }

  lemma TagGroupFirst(s: string, i: nat, g: string)
    requires i <= |s| && forall k :: 0 <= k < i ==> !OccursAt(s, k, "tags:")
    requires TagGroupAt(s, i) == Some(g)
    ensures TagGroupFrom(s, 0) == Some(g)
  {
    TagGroupFromSkip(s, 0, i);
  }

  /** `tags: [g]` on its own line yields the bracketed text `g`. */
  lemma TagGroupFound(prefix: string, g: string, suffix: string)
    requires Lacks(prefix, "tags:") && (|prefix| == 0 || prefix[|prefix| - 1] == '\n')
    requires |g| > 0 && ']' !in g
    ensures TagGroupFrom(prefix + "tags:" + " " + ("[" + g + "]") + suffix, 0) == Some(g)
  {
    var s := prefix + "tags:" + " " + ("[" + g + "]") + suffix;
    var rest := " " + ("[" + g + "]") + suffix;
    assert s == prefix + "tags:" + rest;
    FirstAfterLine(prefix, "tags:", rest);
    assert s[|prefix|..|prefix| + 5] == "tags:";
    TagGroupAtLine(s, |prefix|, g);
    TagGroupFirst(s, |prefix|, g);
  }

  /** Every key is letters followed by one ':'. */
  lemma KeyChars()
    ensures forall q, k :: 0 <= q < |Keys| && 0 <= k < |Keys[q]| ==> IsAsciiLetter(Keys[q][k]) || Keys[q][k] == ':'
  {
  }

  /** No key occurs inside another. */
  lemma KeysApart()
    ensures forall a, b :: 0 <= a < |Keys| && 0 <= b < |Keys| && a != b ==> Lacks(Keys[a], Keys[b])
  {
    forall a, b | 0 <= a < |Keys| && 0 <= b < |Keys| && a != b
      ensures Lacks(Keys[a], Keys[b])
    {
      forall i | 0 <= i <= |Keys[a]|
        ensures !OccursAt(Keys[a], i, Keys[b])
      {
        if i + |Keys[b]| <= |Keys[a]| {
          var w := Keys[a][i..i + |Keys[b]|];
          assert w[|Keys[b]| - 1] == Keys[a][i + |Keys[b]| - 1];
          assert w[0] == Keys[a][i];
          if i + |Keys[b]| < |Keys[a]| {
            assert Keys[a][i + |Keys[b]| - 1] != ':';
          } else if a == 2 && b == 3 {
            assert w[1] == Keys[a][i + 1] == 'm';
          } else {
            assert Keys[a][i] != Keys[b][0];
          }
        }
      }
    }
  }

  /** Field pairs whose keys are parser keys and whose texts are clean. */
  predicate CleanPairs(pairs: seq<(string, string)>) {
    forall j :: 0 <= j < |pairs| ==> pairs[j].0 in Keys && PlainValue(pairs[j].1)
  }

  /** The text of the first pair with key `key`. */
  function Lookup(pairs: seq<(string, string)>, key: string): (r: Option<string>)
    ensures r.Some? ==> |pairs| > 0
  {
    if |pairs| == 0 then None
    else if pairs[0].0 == key then Some(pairs[0].1)
    else Lookup(pairs[1..], key)
  }

  lemma {:induction false} LookupAppend(a: seq<(string, string)>, b: seq<(string, string)>, key: string)
    ensures Lookup(a + b, key) == if Lookup(a, key).Some? then Lookup(a, key) else Lookup(b, key)
    decreases |a|
  {
    if |a| == 0 {
      assert a + b == b;
    } else {
      assert (a + b)[1..] == a[1..] + b;
      LookupAppend(a[1..], b, key);
    }
  }

  /** Where `Lookup` found its pair: no earlier pair has the key. */
  lemma {:induction false} LookupIndex(pairs: seq<(string, string)>, key: string) returns (idx: nat)
    requires Lookup(pairs, key).Some?
    ensures idx < |pairs| && pairs[idx] == (key, Lookup(pairs, key).value)
    ensures forall j :: 0 <= j < idx ==> pairs[j].0 != key
    decreases |pairs|
  {
    if pairs[0].0 == key {
      idx := 0;
    } else {
      var i := LookupIndex(pairs[1..], key);
      idx := i + 1;
    }
  }

  lemma {:induction false} LookupNone(pairs: seq<(string, string)>, key: string)
    requires Lookup(pairs, key).None?
    ensures forall j :: 0 <= j < |pairs| ==> pairs[j].0 != key
    decreases |pairs|
  {
    if |pairs| > 0 {
      LookupNone(pairs[1..], key);
      assert forall j :: 1 <= j < |pairs| ==> pairs[j] == pairs[1..][j - 1];
    }
  }

  /** A rendered line whose key differs from `key` does not contain `key`. */
  lemma LineLacks(pair: (string, string), key: string)
    requires pair.0 in Keys && key in Keys && pair.0 != key && PlainValue(pair.1)
    ensures Lacks(pair.0 + " " + pair.1, key)
  {
    KeysApart();
    KeyChars();
    var q :| 0 <= q < |Keys| && Keys[q] == key;
    assert Lacks(pair.1, Keys[q]);
    assert ' ' !in key;
    LacksAroundSeparator(pair.0, " ", pair.1, key);
  }

  /** The joined lines of the pairs before the first one with `key` lack `key`, and so does what follows them. */
  lemma LinesBeforeLack(pairs: seq<(string, string)>, idx: nat, key: string)
    requires CleanPairs(pairs) && key in Keys && idx <= |pairs|
    requires forall j :: 0 <= j < idx ==> pairs[j].0 != key
    ensures Lacks(Join(Render(pairs[..idx]), "\n"), key)
    ensures Lacks(Join(Render(pairs[..idx]), "\n") + "\n", key)
  {
    var lines := Render(pairs[..idx]);
    forall j | 0 <= j < |lines|
      ensures Lacks(lines[j], key)
    {
      LineLacks(pairs[j], key);
    }
    KeyChars();
    assert '\n' !in key;
    JoinLacks(lines, "\n", key);
    assert Lacks([], key);
    LacksAroundSeparator(Join(lines, "\n"), "\n", [], key);
    assert Join(lines, "\n") + "\n" + [] == Join(lines, "\n") + "\n";
  }

  /** The lines of clean pairs hold no line break. */
  lemma RenderedLinesSingle(pairs: seq<(string, string)>)
    requires CleanPairs(pairs)
    ensures forall j :: 0 <= j < |pairs| ==> '\n' !in Render(pairs)[j]
    ensures forall j :: 0 <= j < |pairs| ==> |Render(pairs)[j]| > 0 && Render(pairs)[j][0] != '-'
  {
    KeyChars();
    forall j | 0 <= j < |pairs|
      ensures '\n' !in Render(pairs)[j]
      ensures |Render(pairs)[j]| > 0 && Render(pairs)[j][0] != '-'
    {
      var line := Render(pairs)[j];
      assert line == pairs[j].0 + " " + pairs[j].1;
      var q :| 0 <= q < |Keys| && Keys[q] == pairs[j].0;
      assert line[0] == Keys[q][0];
      forall k | 0 <= k < |line|
        ensures line[k] != '\n'
      {
        if k < |pairs[j].0| {
          assert line[k] == Keys[q][k];
        } else if k > |pairs[j].0| {
          assert line[k] == pairs[j].1[k - |pairs[j].0| - 1];
        }
      }
    }
  }

  /** The joined lines split around line `idx`: what precedes ends a line, what follows starts one. */
  lemma RenderPrefix(pairs: seq<(string, string)>, idx: nat)
    requires idx <= |pairs|
    ensures Render(pairs)[..idx] == Render(pairs[..idx])
  {
  }

  lemma LinesAround(pairs: seq<(string, string)>, idx: nat) returns (before: string, after: string)
    requires idx < |pairs|
    ensures Join(Render(pairs), "\n") == before + pairs[idx].0 + " " + pairs[idx].1 + after
    ensures before == [] || before == Join(Render(pairs[..idx]), "\n") + "\n"
    ensures |after| == 0 || after[0] == '\n'
  {
    var lines := Render(pairs);
    JoinAround(lines, idx, "\n");
    RenderPrefix(pairs, idx);
    before := if idx == 0 then [] else Join(lines[..idx], "\n") + "\n";
    after := if idx + 1 == |lines| then [] else "\n" + Join(lines[idx + 1..], "\n");
    var line := lines[idx];
    assert line == pairs[idx].0 + " " + pairs[idx].1;
    assert Join(lines, "\n") == before + line + after;
  }

  /** Each scalar key is read from the joined lines exactly as `Lookup` finds it. */
  lemma ScalarOfPairs(pairs: seq<(string, string)>, key: string)
    requires CleanPairs(pairs) && key in Keys
    ensures ScalarField(Join(Render(pairs), "\n"), key) == Lookup(pairs, key)
  {
    KeyChars();
    assert '\n' !in key && |key| > 0;
    if Lookup(pairs, key).Some? {
      var idx := LookupIndex(pairs, key);
      LinesBeforeLack(pairs, idx, key);
      var before, after := LinesAround(pairs, idx);
      ScalarFound(before, key, pairs[idx].1, after);
    } else {
      LookupNone(pairs, key);
      LinesBeforeLack(pairs, |pairs|, key);
      assert pairs[..|pairs|] == pairs;
      ScalarAbsent(Join(Render(pairs), "\n"), key, 0);
    }
  }

  /** The tag key is read from the joined lines as the bracketed part of its text. */
  lemma TagGroupOfPairs(pairs: seq<(string, string)>)
    requires CleanPairs(pairs)
    ensures Lookup(pairs, "tags:").None? ==> TagGroupFrom(Join(Render(pairs), "\n"), 0).None?
    ensures forall g :: Lookup(pairs, "tags:") == Some("[" + g + "]") && |g| > 0 && ']' !in g ==>
      TagGroupFrom(Join(Render(pairs), "\n"), 0) == Some(g)
  {
    if Lookup(pairs, "tags:").Some? {
      var idx := LookupIndex(pairs, "tags:");
      LinesBeforeLack(pairs, idx, "tags:");
      var before, after := LinesAround(pairs, idx);
      forall g | Lookup(pairs, "tags:") == Some("[" + g + "]") && |g| > 0 && ']' !in g
        ensures TagGroupFrom(Join(Render(pairs), "\n"), 0) == Some(g)
      {
        assert pairs[idx].1 == "[" + g + "]";
        TagGroupFound(before, g, after);
        assert before + "tags:" + " " + ("[" + g + "]") + after == Join(Render(pairs), "\n");
      }
    } else {
      LookupNone(pairs, "tags:");
      LinesBeforeLack(pairs, |pairs|, "tags:");
      assert pairs[..|pairs|] == pairs;
      TagGroupAbsent(Join(Render(pairs), "\n"), 0);
    }
  }

  /** Every tag after the first, with the space `, ` puts before it. */
  function Spaced(tags: seq<string>): (r: seq<string>)
    ensures |r| == |tags|
  {
    seq(|tags|, k requires 0 <= k < |tags| => " " + tags[k])
  }

  lemma {:induction false} JoinSpaced(tags: seq<string>)
    requires |tags| >= 1
    ensures " " + Join(tags, ", ") == Join(Spaced(tags), ",")
    decreases |tags|
  {
    if |tags| > 1 {
      JoinSpaced(tags[1..]);
      assert Spaced(tags)[1..] == Spaced(tags[1..]);
      assert " " + Join(tags, ", ") == (" " + tags[0]) + "," + (" " + Join(tags[1..], ", "));
    }
  }

  /** Joining with `, ` is joining with `,` the first tag and the spaced rest. */
  lemma JoinAsPieces(tags: seq<string>)
    requires |tags| >= 1
    ensures Join(tags, ", ") == Join([tags[0]] + Spaced(tags[1..]), ",")
  {
    if |tags| == 1 {
      JoinAsPiecesOne(tags);
    } else {
      JoinAsPiecesMany(tags);
    }
  }

  lemma JoinAsPiecesOne(tags: seq<string>)
    requires |tags| == 1
    ensures Join(tags, ", ") == Join([tags[0]] + Spaced(tags[1..]), ",")
  {
    assert [tags[0]] + Spaced(tags[1..]) == tags;
  }

  lemma JoinAsPiecesMany(tags: seq<string>)
    requires |tags| > 1
    ensures Join(tags, ", ") == Join([tags[0]] + Spaced(tags[1..]), ",")
  {
    var spaced := Spaced(tags[1..]);
    var rest := Join(tags[1..], ", ");
    calc {
      Join(tags, ", ");
      { JoinFirst(tags, ", "); }
      tags[0] + ", " + rest;
      tags[0] + "," + (" " + rest);
      { JoinSpaced(tags[1..]); }
      tags[0] + "," + Join(spaced, ",");
      { JoinOne(tags[0], ","); }
      Join([tags[0]], ",") + "," + Join(spaced, ",");
      { JoinAppend([tags[0]], spaced, ","); }
      Join([tags[0]] + spaced, ",");
    }
  }

  lemma JoinFirst(parts: seq<string>, sep: string)
    requires |parts| > 1
    ensures Join(parts, sep) == parts[0] + sep + Join(parts[1..], sep)
  {
  }

  lemma JoinOne(part: string, sep: string)
    ensures Join([part], sep) == part
  {
  }

  /** Tags joined with `, ` split back, after trimming and quote stripping, into the same tags. */
  lemma TagListRoundTrip(tags: seq<string>)
    requires PlainTags(tags)
    ensures TagList(Join(tags, ", ")) == tags
  {
    SplitOfTags(tags);
    TagListOfPieces(Join(tags, ", "), tags);
  }

  /** Splitting the joined tags at commas gives each tag, all but the first with its leading space. */
  lemma SplitOfTags(tags: seq<string>)
    requires PlainTags(tags)
    ensures Split(Join(tags, ", "), ',') == [tags[0]] + Spaced(tags[1..])
  {
    var pieces := [tags[0]] + Spaced(tags[1..]);
    PiecesLackComma(tags);
    JoinAsPieces(tags);
    SplitJoin(pieces, ',');
  }

  lemma PiecesLackComma(tags: seq<string>)
    requires PlainTags(tags)
    ensures forall k :: 0 <= k < |tags| ==> ',' !in ([tags[0]] + Spaced(tags[1..]))[k]
  {
    var pieces := [tags[0]] + Spaced(tags[1..]);
    forall k | 0 <= k < |pieces|
      ensures ',' !in pieces[k]
    {
      if k > 0 {
        assert pieces[k] == " " + tags[k];
      }
    }
  }

  lemma TagListOfPieces(g: string, tags: seq<string>)
    requires PlainTags(tags)
    requires Split(g, ',') == [tags[0]] + Spaced(tags[1..])
    ensures TagList(g) == tags
  {
    var pieces := Split(g, ',');
    var r := TagList(g);
    forall k | 0 <= k < |tags|
      ensures r[k] == tags[k]
    {
      PieceReadsBack(pieces, tags, k);
    }
  }

  lemma PieceReadsBack(pieces: seq<string>, tags: seq<string>, k: nat)
    requires |tags| >= 1 && pieces == [tags[0]] + Spaced(tags[1..])
    requires k < |tags| && PlainTag(tags[k])
    ensures StripQuotes(Trim(pieces[k])) == tags[k]
  {
    TrimKeepsUntrimmed(tags[k]);
    if k > 0 {
      assert pieces[k] == [' '] + tags[k];
      TrimDropsLeadingSpace(' ', tags[k]);
    }
  }

  /** The tag group the generator writes is nonempty and has no `]`. */
  lemma TagGroupPlain(tags: seq<string>)
    requires PlainTags(tags)
    ensures |Join(tags, ", ")| > 0 && ']' !in Join(tags, ", ")
  {
    JoinAround(tags, 0, ", ");
    JoinChars(tags, ", ", ']');
  }

  /** The text of the `tags:` line: the tags joined by `, ` inside brackets. */
  function TagText(tags: seq<string>): (r: string)
    ensures |r| >= 2 && r[0] == '[' && r[|r| - 1] == ']'
  {
    "[" + Join(tags, ", ") + "]"
  }

  /** The bracketed tag text holds no line terminator. */
  lemma TagTextLine(tags: seq<string>)
    requires PlainTags(tags)
    ensures forall k :: 0 <= k < |TagText(tags)| ==> !IsLineTerminator(TagText(tags)[k])
  {
    var g := Join(tags, ", ");
    JoinChars(tags, ", ", '\n');
    JoinChars(tags, ", ", '\r');
    JoinChars(tags, ", ", '\U{2028}');
    JoinChars(tags, ", ", '\U{2029}');
    var t := TagText(tags);
    forall k | 0 <= k < |t|
      ensures !IsLineTerminator(t[k])
    {
      if 0 < k < |t| - 1 {
        assert t[k] == g[k - 1];
      }
    }
  }

  /** Brackets around a text that lacks `k` add no occurrence of `k` when `k` has no bracket. */
  lemma BracketedLacks(g: string, k: string)
    requires Lacks(g, k) && |k| > 0 && '[' !in k && ']' !in k
    ensures Lacks("[" + g + "]", k)
  {
    assert Lacks([], k);
    LacksAroundSeparator([], "[", g, k);
    assert [] + "[" + g == "[" + g;
    LacksAroundSeparator("[" + g, "]", [], k);
    assert "[" + g + "]" + [] == "[" + g + "]";
  }

  /** The bracketed tag text contains no key. */
  lemma TagTextLacksKeys(tags: seq<string>)
    requires PlainTags(tags)
    ensures forall q :: 0 <= q < |Keys| ==> Lacks(TagText(tags), Keys[q])
  {
    KeyChars();
    forall q | 0 <= q < |Keys|
      ensures Lacks(TagText(tags), Keys[q])
    {
      var key := Keys[q];
      assert ',' !in key && ' ' !in key && '[' !in key && ']' !in key;
      JoinLacks(tags, ", ", key);
      BracketedLacks(Join(tags, ", "), key);
    }
  }

  /** The bracketed tag text the generator writes is a plain value. */
  lemma TagTextPlain(tags: seq<string>)
    requires PlainTags(tags)
    ensures PlainValue(TagText(tags))
  {
    TagTextLine(tags);
    TagTextLacksKeys(tags);
    var t := TagText(tags);
    assert !IsSpace(t[0]) && !IsSpace(t[|t| - 1]);
  }

  /** Under `RoundTrips`, the generator writes one clean line per present field. */
  lemma FieldPairsClean(meta: DocMeta)
    requires RoundTrips(meta)
    ensures CleanPairs(FieldPairs(meta)) && |FieldPairs(meta)| >= 1
  {
    if meta.tags.Some? {
      TagTextPlain(meta.tags.value);
    }
  }

  lemma LookupOfFour(a: seq<(string, string)>, b: seq<(string, string)>, c: seq<(string, string)>, d: seq<(string, string)>, key: string)
    ensures Lookup(a + b + c + d, key) ==
      if Lookup(a, key).Some? then Lookup(a, key)
      else if Lookup(b, key).Some? then Lookup(b, key)
      else if Lookup(c, key).Some? then Lookup(c, key)
      else Lookup(d, key)
  {
    assert a + b + c + d == a + (b + (c + d));
    LookupAppend(a, b + (c + d), key);
    LookupAppend(b, c + d, key);
    LookupAppend(c, d, key);
  }

  /** Under `RoundTrips`, each key's first line holds exactly the field's value. */
  lemma FieldLookups(meta: DocMeta)
    requires RoundTrips(meta)
    ensures Lookup(FieldPairs(meta), "title:") == meta.title
    ensures Lookup(FieldPairs(meta), "date:") == meta.date
    ensures Lookup(FieldPairs(meta), "lastmod:") == meta.lastmod
    ensures Lookup(FieldPairs(meta), "tags:") ==
      if meta.tags.Some? then Some(TagText(meta.tags.value)) else None
  {
    var a := if Written(meta.title) then [("title:", meta.title.value)] else [];
    var b := if Written(meta.date) then [("date:", meta.date.value)] else [];
    var c := if Written(meta.lastmod) then [("lastmod:", meta.lastmod.value)] else [];
    var d := if meta.tags.Some? && |meta.tags.value| > 0 then [("tags:", TagText(meta.tags.value))] else [];
    assert FieldPairs(meta) == a + b + c + d;
    LookupOfFour(a, b, c, d, "title:");
    LookupOfFour(a, b, c, d, "date:");
    LookupOfFour(a, b, c, d, "lastmod:");
    LookupOfFour(a, b, c, d, "tags:");
  }

  /** The generated text plus a body opens with a block whose contents are the joined field lines. */
  lemma GeneratedBlock(meta: DocMeta, body: string)
    requires RoundTrips(meta)
    ensures var front := Join(Render(FieldPairs(meta)), "\n");
      && GenerateFrontmatter(meta) + body == Open + front + Close + body
      && BlockClose(Open + front + Close + body) == Some(4 + |front|)
  {
    var pairs := FieldPairs(meta);
    FieldPairsClean(meta);
    GeneratedShape(meta);
    RenderedLinesSingle(pairs);
    JoinedLinesNoDash(Render(pairs));
    BlockOf(Join(Render(pairs), "\n"), body);
  }

  /** The fields the parser reads from the generated block are the metadata's. */
  lemma GeneratedFields(meta: DocMeta)
    requires RoundTrips(meta)
    ensures var front := Join(Render(FieldPairs(meta)), "\n");
      && ScalarField(front, "title:") == meta.title
      && ScalarField(front, "date:") == meta.date
      && ScalarField(front, "lastmod:") == meta.lastmod
  {
    var pairs := FieldPairs(meta);
    FieldPairsClean(meta);
    FieldLookups(meta);
    ScalarOfPairs(pairs, "title:");
    ScalarOfPairs(pairs, "date:");
    ScalarOfPairs(pairs, "lastmod:");
  }

  /** The tags the parser reads from the generated block are the metadata's. */
  lemma GeneratedTags(meta: DocMeta)
    requires RoundTrips(meta)
    ensures TagsField(Join(Render(FieldPairs(meta)), "\n")) == meta.tags
  {
    var pairs := FieldPairs(meta);
    var front := Join(Render(pairs), "\n");
    FieldPairsClean(meta);
    FieldLookups(meta);
    TagGroupOfPairs(pairs);
    if meta.tags.Some? {
      var g := Join(meta.tags.value, ", ");
      TagGroupPlain(meta.tags.value);
      assert TagGroupFrom(front, 0) == Some(g);
      TagListRoundTrip(meta.tags.value);
    }
  }

  /** A well-delimited block parses into the fields read from its contents, and the body after it. */
  lemma ParseOfBlock(front: string, body: string)
    requires BlockClose(Open + front + Close + body) == Some(4 + |front|)
    ensures ParseFrontmatter(Open + front + Close + body) == Parsed(
      DocMeta(ScalarField(front, "title:"), ScalarField(front, "date:"), ScalarField(front, "lastmod:"),
        TagsField(front), None),
      body)
  {
    var content := Open + front + Close + body;
    assert content[4..4 + |front|] == front;
    assert content[4 + |front| + 5..] == body;
  }

  /** `parseFrontmatter` reads back what `generateFrontmatter` wrote, and the body after it. */
  lemma ParseGenerateRoundTrip(meta: DocMeta, body: string)
    requires RoundTrips(meta)
    ensures ParseFrontmatter(GenerateFrontmatter(meta) + body) == Parsed(meta, body)
  {
    var front := Join(Render(FieldPairs(meta)), "\n");
    GeneratedBlock(meta, body);
    ParseOfBlock(front, body);
    GeneratedFields(meta);
    GeneratedTags(meta);
  }
}
