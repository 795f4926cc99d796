/**
 * `convertFromKramdown`: the seven stages that turn a SiYuan Kramdown export
 * into standard Markdown, each a global regular-expression replacement, and
 * the conversion options that switch the stages.
 */
module MarkdownConverter {
  import opened Wrappers
  import opened JsStrings
  import opened KramdownRegex
  import opened Frontmatter

  // ---------------------------------------------------------------------------
  // Options.
  // ---------------------------------------------------------------------------

  /** `tagMode`: escape line-start tags as `\#tag`, leave them for YAML, or delete them. */
  datatype TagMode = EscapeTags | YamlTags | RemoveTags

  /** `refMode`: keep `((id))` or turn it into a `siyuan://` link. */
  datatype RefMode = KeepRefs | LinkRefs

  /** `embedMode`: keep `!((id))` or delete it. */
  datatype EmbedMode = KeepEmbeds | RemoveEmbeds

  /** `ConvertOptions`: every field may be left out. */
  datatype ConvertOptions = ConvertOptions(
    tagMode: Option<TagMode>,
    refMode: Option<RefMode>,
    embedMode: Option<EmbedMode>,
    keepFrontmatter: Option<bool>,
    removeEmoji: Option<bool>)

  const NoOptions: ConvertOptions := ConvertOptions(None, None, None, None, None)

  /** The options once the destructuring defaults are applied. */
  datatype Settings = Settings(
    tagMode: TagMode,
    refMode: RefMode,
    embedMode: EmbedMode,
    stripFrontmatter: bool,
    removeEmoji: bool)

  /**
   * Defaults fill the missing modes; the frontmatter is stripped unless
   * `keepFrontmatter` is truthy, and emoji are removed only when asked.
   */
  function Resolve(o: ConvertOptions): (r: Settings)
    ensures r.stripFrontmatter <==> o.keepFrontmatter != Some(true)
    ensures r.removeEmoji <==> o.removeEmoji == Some(true)
    ensures o.tagMode.Some? ==> r.tagMode == o.tagMode.value
    ensures o.refMode.Some? ==> r.refMode == o.refMode.value
    ensures o.embedMode.Some? ==> r.embedMode == o.embedMode.value
  {
    Settings(
      o.tagMode.GetOr(EscapeTags),
      o.refMode.GetOr(KeepRefs),
      o.embedMode.GetOr(KeepEmbeds),
      !o.keepFrontmatter.GetOr(false),
      o.removeEmoji.GetOr(false))
  }

  /** With no options: escape tags, keep references and embeds, strip frontmatter, keep emoji. */
  lemma ResolveDefaults()
    ensures Resolve(NoOptions) == Settings(EscapeTags, KeepRefs, KeepEmbeds, true, false)
  {
  }

  // ---------------------------------------------------------------------------
  // The stages.
  // ---------------------------------------------------------------------------

  /** The emoji range `[\u{1F300}-\u{1F9FF}]` (with the `u` flag: whole code points). */
  predicate IsEmoji(c: char) {
    '\U{1F300}' <= c <= '\U{1F9FF}'
  }

  predicate NoEmoji(s: string) {
    forall k :: 0 <= k < |s| ==> !IsEmoji(s[k])
  }

  /** `removeEmojis`: deletes every character of the emoji range. */
  function RemoveEmojis(s: string): (r: string)
    ensures |r| <= |s| && NoEmoji(r)
  {
    if |s| == 0 then []
    else if IsEmoji(s[0]) then RemoveEmojis(s[1..])
    else [s[0]] + RemoveEmojis(s[1..])
  }

  /** `convertHeadings`: `## Title {#id}` becomes `## Title`. */
  function ConvertHeadings(s: string): (r: string) {
    Replace(HeadingId, s)
  }

  /** `convertTags`: the YAML mode leaves the text as it is. */
  function ConvertTags(s: string, mode: TagMode): (r: string) {
    match mode
    case RemoveTags => Replace(TagRemove, s)
    case EscapeTags => Replace(TagEscape, s)
    case YamlTags => s
  }

  function ConvertBlockRefs(s: string, mode: RefMode): (r: string) {
    match mode
    case KeepRefs => s
    case LinkRefs => Replace(BlockRef, s)
  }

  function ConvertBlockEmbeds(s: string, mode: EmbedMode): (r: string) {
    match mode
    case KeepEmbeds => s
    case RemoveEmbeds => Replace(BlockEmbed, s)
  }

  /** `cleanupSyntax`: empty HTML comments go, then runs of three or more newlines shrink to two. */
  function CleanupSyntax(s: string): (r: string) {
    Replace(BlankLines, Replace(EmptyComment, s))
  }

  /** Steps 1 and 2: the frontmatter and the emoji. */
  function Prepare(s: string, cfg: Settings): (r: string) {
    var a := if cfg.stripFrontmatter then RemoveFrontmatter(s) else s;
    if cfg.removeEmoji then RemoveEmojis(a) else a
  }

  /** Steps 3 and 4: the headings, then the tags. */
  function Headed(s: string, cfg: Settings): (r: string) {
    ConvertTags(ConvertHeadings(Prepare(s, cfg)), cfg.tagMode)
  }

  /** Steps 5 and 6: the block references, then the embeds. */
  function LinkThenEmbed(s: string, cfg: Settings): (r: string) {
    ConvertBlockEmbeds(ConvertBlockRefs(s, cfg.refMode), cfg.embedMode)
  }

  /** `convertFromKramdown`, stages in the order the source runs them. */
  function ConvertFromKramdown(s: string, o: ConvertOptions): (r: string) {
    var cfg := Resolve(o);
    CleanupSyntax(LinkThenEmbed(Headed(s, cfg), cfg))
  }

  /** Steps 5 and 6 swapped: embeds first, so that a reference pattern cannot eat an embed. */
  function EmbedThenLink(s: string, cfg: Settings): (r: string) {
    ConvertBlockRefs(ConvertBlockEmbeds(s, cfg.embedMode), cfg.refMode)
  }

  /** The conversion with embeds handled before references. */
  function ConvertFromKramdownFixed(s: string, o: ConvertOptions): (r: string) {
    var cfg := Resolve(o);
    CleanupSyntax(EmbedThenLink(Headed(s, cfg), cfg))
  }

  // ---------------------------------------------------------------------------
  // Emoji removal.
  // ---------------------------------------------------------------------------

  /** Removal only deletes: what is left is a subsequence of the input. */
  lemma {:induction false} RemoveEmojisSubsequence(s: string)
    ensures IsSubsequence(RemoveEmojis(s), s)
  {
    if |s| == 0 {
      SubsequenceOfEmpty([]);
    } else {
      var rest := RemoveEmojis(s[1..]);
      RemoveEmojisSubsequence(s[1..]);
      assert s == [s[0]] + s[1..];
      if IsEmoji(s[0]) {
        SubsequenceOfEmpty([s[0]]);
        SubsequenceJoin([], [s[0]], rest, s[1..], RemoveEmojis(s), s);
      } else {
        SubsequenceReflexive([s[0]]);
        SubsequenceJoin([s[0]], [s[0]], rest, s[1..], RemoveEmojis(s), s);
      }
    }
  }

  /** Every character outside the emoji range survives, as often as it occurs. */
  lemma {:induction false} RemoveEmojisKeepsOthers(s: string, c: char)
    requires !IsEmoji(c)
    ensures multiset(RemoveEmojis(s))[c] == multiset(s)[c]
  {
    if |s| > 0 {
      RemoveEmojisKeepsOthers(s[1..], c);
      assert s == [s[0]] + s[1..];
      assert multiset(s) == multiset([s[0]]) + multiset(s[1..]);
      if !IsEmoji(s[0]) {
        assert multiset(RemoveEmojis(s)) == multiset([s[0]]) + multiset(RemoveEmojis(s[1..]));
      }
    }
  }

  /** A text without emoji is left as it is. */
  lemma {:induction false} RemoveEmojisUnchanged(s: string)
    requires NoEmoji(s)
    ensures RemoveEmojis(s) == s
  {
    if |s| > 0 {
      assert NoEmoji(s[1..]) by {
        assert forall k :: 0 <= k < |s| - 1 ==> s[1..][k] == s[k + 1];
      }
      RemoveEmojisUnchanged(s[1..]);
      assert s == [s[0]] + s[1..];
    }
  }

  /** No replacement template writes an emoji. */
  lemma EmojiFresh(c: char)
    requires IsEmoji(c)
    ensures Fresh(c)
  {
    assert forall k :: 0 <= k < |RefLink("")| ==> RefLink("")[k] < '\U{1F300}';
  }

  /** A replacement stage never brings an emoji back. */
  lemma ReplaceKeepsNoEmoji(p: Pattern, s: string)
    requires NoEmoji(s)
    ensures NoEmoji(Replace(p, s))
  {
    var r := Replace(p, s);
    forall k | 0 <= k < |r|
      ensures !IsEmoji(r[k])
    {
      if IsEmoji(r[k]) {
        EmojiFresh(r[k]);
        ReplaceAddsNothing(p, s, r[k]);
      }
    }
  }

  // ---------------------------------------------------------------------------
  // Each stage on one token: what it makes of `a + token + b` when the prefix
  // `a` holds nothing the stage reacts to.
  // ---------------------------------------------------------------------------

  predicate AllTagChars(name: string) {
    forall k :: 0 <= k < |name| ==> IsTagChar(name[k])
  }

  predicate AllIdChars(id: string) {
    forall k :: 0 <= k < |id| ==> IsIdChar(id[k])
  }

  /** The tag name ends where `b` begins: `b` neither continues it nor opens another tag. */
  predicate EndsTag(b: string) {
    |b| == 0 || (!IsTagChar(b[0]) && b[0] != '#')
  }

  /** A heading match at index `k` of `s` has an opening `{#` somewhere after `k`. */
  lemma HeadingMatchBrace(s: string, k: nat)
    requires k < |s| && MatchAt(HeadingId, s, k).Some?
    ensures exists j :: k <= j && OccursAt(s, j, "{#")
  {
    var t := s[k..];
    assert MatchHeadingId(if k == 0 then None else Some(s[k - 1]), t).Some?;
    var b := HeadingBrace(t);
    OccursInSuffix(s, k, b, "{#");
  }

  /** Where a heading match has its `{#`. */
  lemma HeadingBrace(t: string) returns (b: nat)
    requires HeadingMatch(t).Some?
    ensures OccursAt(t, b, "{#")
  {
    var m := HeadingMatch(t).value;
    HeadingMatchParts(t, m);
    b := m.brace;
    assert TailFacts(t, m.hashes + m.gap + m.textLen, b, m.len);
    assert t[b..b + 2] == [t[b], t[b + 1]] == "{#";
  }

  /** Without any `{#` the heading stage leaves the text as it is. */
  lemma HeadingsWithoutIdUnchanged(s: string)
    requires Lacks(s, "{#")
    ensures ConvertHeadings(s) == s
  {
    forall k | 0 <= k < |s|
      ensures MatchAt(HeadingId, s, k).None?
    {
      if MatchAt(HeadingId, s, k).Some? {
        HeadingMatchBrace(s, k);
      }
    }
    ReplaceNoMatch(HeadingId, s);
  }

  /** The text of a heading line: nonempty, on one line, without `{`, and not padded with whitespace. */
  predicate HeadingTextOk(text: string) {
    && |text| >= 1 && !IsSpace(text[0]) && !IsSpace(text[|text| - 1])
    && forall k :: 0 <= k < |text| ==> !IsLineTerminator(text[k]) && text[k] != '{'
  }

  /** What follows a heading line: nothing, or one line break and a line that does not open with whitespace. */
  predicate ClosedNext(b: string) {
    |b| == 0 || (|b| >= 2 && IsLineTerminator(b[0]) && !IsSpace(b[1]))
  }

  /** The heading line `hs sp text ws {#id}`. */
  function HeadingLine(hs: string, sp: string, text: string, ws: string, id: string): (r: string)
    ensures |r| == |hs| + |sp| + |text| + |ws| + |id| + 3
  {
    hs + sp + text + ws + "{#" + id + "}"
  }

  /** A well-formed heading line, followed by what `ClosedNext` allows, has the heading layout. */
  lemma HeadingLineLayout(t: string, hs: string, sp: string, text: string, ws: string, id: string, b: string)
    requires t == HeadingLine(hs, sp, text, ws, id) + b
    requires HashMarker(hs) && |sp| >= 1 && AllSpaces(sp) && HeadingTextOk(text) && AllSpaces(ws)
    requires |id| >= 1 && '}' !in id && ClosedNext(b)
    ensures HeadingLayout(t, |hs|, |sp|, |text|, |hs| + |sp| + |text| + |ws|, |hs| + |sp| + |text| + |ws| + 2 + |id|)
    ensures ClosedAt(t, |hs| + |sp| + |text| + |ws| + 3 + |id|)
  {
    var h, g, n := |hs|, |sp|, |text|;
    var q := h + g + n;
    var o := q + |ws|;
    var c := o + 2 + |id|;
    forall k | 0 <= k < h
      ensures t[k] == '#'
    {
      assert t[k] == hs[k];
    }
    forall k | h <= k < h + g
      ensures IsSpace(t[k])
    {
      assert t[k] == sp[k - h];
    }
    forall k | h + g <= k < q
      ensures t[k] == text[k - (h + g)]
    {
    }
    forall k | q <= k < o
      ensures IsSpace(t[k])
    {
      assert t[k] == ws[k - q];
    }
    assert t[o] == '{' && t[o + 1] == '#';
    forall k | o + 2 <= k < c
      ensures t[k] != '}'
    {
      assert t[k] == id[k - (o + 2)];
    }
    assert t[c] == '}';
    if |b| > 0 {
      assert t[c + 1] == b[0] && t[c + 2] == b[1];
    }
  }

  /** A well-formed heading line at a line start is replaced by its hashes, one space and its text. */
  lemma HeadingLineReplaced(hs: string, sp: string, text: string, ws: string, id: string, b: string)
    requires HashMarker(hs) && |sp| >= 1 && AllSpaces(sp) && HeadingTextOk(text) && AllSpaces(ws)
    requires |id| >= 1 && '}' !in id && ClosedNext(b)
    ensures MatchHere(HeadingId, None, HeadingLine(hs, sp, text, ws, id) + b)
      == Some(Match(|HeadingLine(hs, sp, text, ws, id)|, hs + " " + text))
  {
    var t := HeadingLine(hs, sp, text, ws, id) + b;
    var h, g, n := |hs|, |sp|, |text|;
    var o := h + g + n + |ws|;
    HeadingLineLayout(t, hs, sp, text, ws, id, b);
    HeadingLineParts(t, hs, sp, text, ws, id, b);
    LayoutReplacedAs(t, h, g, n, o, o + 2 + |id|, |HeadingLine(hs, sp, text, ws, id)|, hs + " " + text);
  }

  /** The hashes and the text of a heading line, read back from the line. */
  lemma HeadingLineParts(t: string, hs: string, sp: string, text: string, ws: string, id: string, b: string)
    requires t == HeadingLine(hs, sp, text, ws, id) + b
    ensures t[..|hs|] + " " + t[|hs| + |sp|..|hs| + |sp| + |text|] == hs + " " + text
  {
    assert t[..|hs|] == hs;
    assert t[|hs| + |sp|..|hs| + |sp| + |text|] == text;
  }

  /**
   * A heading line with an identifier, `hs sp text ws {#id}`, at a line start
   * loses the identifier and its whitespace and keeps one space before the
   * text; the rest of the text is converted on its own.
   */
  lemma HeadingIdDropped(a: string, hs: string, sp: string, text: string, ws: string, id: string, b: string)
    requires '#' !in a && (|a| == 0 || IsLineTerminator(a[|a| - 1]))
    requires HashMarker(hs) && |sp| >= 1 && AllSpaces(sp) && HeadingTextOk(text) && AllSpaces(ws)
    requires |id| >= 1 && '}' !in id && ClosedNext(b)
    ensures ConvertHeadings(a + HeadingLine(hs, sp, text, ws, id) + b) == a + (hs + " " + text) + ConvertHeadings(b)
  {
    var x := HeadingLine(hs, sp, text, ws, id);
    HeadingLineReplaced(hs, sp, text, ws, id, b);
    ReplaceAtStart(HeadingId, x, b, hs + " " + text);
    ReplaceAfterStart(HeadingId, a, x, b, hs + " " + text + Replace(HeadingId, b));
    ConcatAssoc(a, hs + " " + text, Replace(HeadingId, b));
  }

  lemma TagRun(name: string, b: string)
    requires AllTagChars(name) && EndsTag(b)
    ensures Run(TagChar, name + b, 0) == |name|
  {
    RunExact(TagChar, name + b, 0, |name|);
  }

  lemma TagRemoveMatch(name: string, b: string)
    requires |name| >= 1 && AllTagChars(name) && EndsTag(b)
    ensures MatchHere(TagRemove, None, "#" + name + b) == Some(Match(1 + |name|, ""))
  {
    TagRun(name, b);
    RunShift(TagChar, "#", name + b, 0);
    assert "#" + name + b == "#" + (name + b);
  }

  /** `#name` with no word character before it is deleted, and nothing around it changes. */
  lemma TagRemoved(a: string, name: string, b: string)
    requires '#' !in a && (|a| == 0 || !IsWordChar(a[|a| - 1]))
    requires |name| >= 1 && AllTagChars(name) && EndsTag(b)
    ensures ConvertTags(a + ("#" + name) + b, RemoveTags) == a + ConvertTags(b, RemoveTags)
  {
    TagRemoveMatch(name, b);
    ReplaceAtStart(TagRemove, "#" + name, b, "");
    assert "" + Replace(TagRemove, b) == Replace(TagRemove, b);
    ReplaceAfterStart(TagRemove, a, "#" + name, b, Replace(TagRemove, b));
  }

  /** A hash run of one to six. */
  predicate HashMarker(hs: string) {
    1 <= |hs| <= 6 && forall k :: 0 <= k < |hs| ==> hs[k] == '#'
  }

  /** The escape pattern at the start of `t`, given the hash run `h`. */
  lemma TagEscapeAt(t: string, h: nat)
    requires Run(Hash, t, 0) == h && EscapeGuard(t, h)
    ensures MatchHere(TagEscape, None, t) == Some(EscapeTag(t, h))
  {
  }

  lemma TagEscapeMatch(hs: string, sp: char, name: string, b: string)
    requires HashMarker(hs) && IsSpace(sp) && |name| >= 1 && AllTagChars(name) && EndsTag(b)
    ensures MatchHere(TagEscape, None, hs + [sp] + "#" + name + b)
      == Some(Match(|hs| + 2 + |name|, hs + [sp] + "\\#" + name))
  {
    EscapeTagShape(hs, sp, name, b);
    TagEscapeAt(hs + [sp] + "#" + name + b, |hs|);
  }

  /** The guard of the escape pattern on a marker, a space, a tag and a text that cannot extend the tag. */
  lemma EscapeGuardShape(hs: string, sp: char, name: string, b: string)
    requires HashMarker(hs) && IsSpace(sp) && |name| >= 1 && AllTagChars(name) && EndsTag(b)
    ensures var t := hs + [sp] + "#" + name + b;
      Run(Hash, t, 0) == |hs| && EscapeGuard(t, |hs|) && Run(TagChar, t, |hs| + 2) == |name|
  {
    var t := hs + [sp] + "#" + name + b;
    var h := |hs|;
    assert t[h] == sp && t[h + 1] == '#' && t[h + 2] == name[0];
    RunExact(Hash, t, 0, h);
    TagRun(name, b);
    RunShift(TagChar, hs + [sp] + "#", name + b, 0);
    assert t == hs + [sp] + "#" + (name + b);
  }

  /** The escape on such a line: a backslash goes in before the tag's `#`. */
  lemma EscapeTagShape(hs: string, sp: char, name: string, b: string)
    requires HashMarker(hs) && IsSpace(sp) && |name| >= 1 && AllTagChars(name) && EndsTag(b)
    ensures var t := hs + [sp] + "#" + name + b;
      Run(Hash, t, 0) == |hs| && EscapeGuard(t, |hs|)
      && EscapeTag(t, |hs|) == Match(|hs| + 2 + |name|, hs + [sp] + "\\#" + name)
  {
    EscapeGuardShape(hs, sp, name, b);
    var t := hs + [sp] + "#" + name + b;
    var h := |hs|;
    var len := h + 2 + |name|;
    assert t[..h + 1] == hs + [sp];
    assert t[h + 1..len] == "#" + name;
    assert (hs + [sp]) + "\\" + ("#" + name) == hs + [sp] + "\\#" + name;
  }

  /** At a line start, `#{1,6}` and one whitespace before `#name` gain a backslash in front of the tag. */
  lemma TagEscaped(a: string, hs: string, sp: char, name: string, b: string)
    requires '#' !in a && (|a| == 0 || IsLineTerminator(a[|a| - 1]))
    requires HashMarker(hs) && IsSpace(sp) && |name| >= 1 && AllTagChars(name) && EndsTag(b)
    ensures ConvertTags(a + (hs + [sp] + "#" + name) + b, EscapeTags)
      == a + (hs + [sp] + "\\#" + name) + ConvertTags(b, EscapeTags)
  {
    var repl := hs + [sp] + "\\#" + name;
    TagEscapeMatch(hs, sp, name, b);
    ReplaceAtStart(TagEscape, hs + [sp] + "#" + name, b, repl);
    ReplaceAfterStart(TagEscape, a, hs + [sp] + "#" + name, b, repl + Replace(TagEscape, b));
    ConcatAssoc(a, repl, Replace(TagEscape, b));
  }

  /**
   * A place the escape pattern rewrites: a line start at `k`, the hashes `s[k..j]` (one to six),
   * one whitespace, and `#` followed by a tag character.
   */
  predicate EscapeSite(s: string, k: nat, j: nat) {
    && k < j <= k + 6 && j + 2 < |s| && (k == 0 || IsLineTerminator(s[k - 1]))
    && (forall i :: k <= i < j ==> s[i] == '#')
    && IsSpace(s[j]) && s[j + 1] == '#' && IsTagChar(s[j + 2])
  }

  /** Escaping changes nothing in a text without such a place: headings and tags inside lines are kept. */
  lemma EscapeOnlyAtLineStart(s: string)
    requires forall k, j :: !EscapeSite(s, k, j)
    ensures ConvertTags(s, EscapeTags) == s
  {
    forall k | 0 <= k < |s|
      ensures MatchAt(TagEscape, s, k).None?
    {
      if MatchAt(TagEscape, s, k).Some? {
        var t := s[k..];
        var h := Run(Hash, t, 0);
        assert MatchAt(TagEscape, s, k) == MatchTagEscape(if k == 0 then None else Some(s[k - 1]), t);
        assert EscapeGuard(t, h);
        RunPrefix(Hash, t, 0);
        assert EscapeSite(s, k, k + h) by {
          forall i | k <= i < k + h
            ensures s[i] == '#'
          {
            assert s[i] == t[i - k];
          }
          assert s[k + h] == t[h] && s[k + h + 1] == t[h + 1] && s[k + h + 2] == t[h + 2];
        }
        assert false;
      }
    }
    ReplaceNoMatch(TagEscape, s);
  }

  /** A heading followed by a line with an inline tag passes the escape stage unchanged. */
  lemma EscapeKeepsHeadingAndInlineTag()
    ensures ConvertTags("# Title\nSee #project", EscapeTags) == "# Title\nSee #project"
  {
    var s := "# Title\nSee #project";
    assert s[1] == ' ' && s[2] == 'T' && s[8] == 'S';
    assert forall i :: 0 <= i < |s| && i != 7 ==> !IsLineTerminator(s[i]);
    forall k: nat, j: nat
      ensures !EscapeSite(s, k, j)
    {
      if k != 0 && k != 8 && 0 < k <= |s| {
        assert !IsLineTerminator(s[k - 1]);
      }
    }
    EscapeOnlyAtLineStart(s);
  }

  /** `((id))` in front of any text is a block identifier of length `|id|`. */
  lemma BlockIdOf(id: string, b: string)
    requires |id| >= 1 && AllIdChars(id)
    ensures BlockId("((" + id + "))" + b) == Some(|id|)
  {
    var t := "((" + id + "))" + b;
    var n := |id|;
    assert t[..2] == "((" && t[n + 2..n + 4] == "))";
    BlockIdShape(t, n);
  }

  lemma RefMatch(id: string, b: string)
    requires |id| >= 1 && AllIdChars(id)
    ensures MatchHere(BlockRef, None, "((" + id + "))" + b) == Some(Match(|id| + 4, RefLink(id)))
  {
    var t := "((" + id + "))" + b;
    BlockIdOf(id, b);
    assert t[2..|id| + 2] == id;
  }

  /** A block reference `((id))` becomes the link `[块引用](siyuan://id)`. */
  lemma RefLinked(a: string, id: string, b: string)
    requires '(' !in a && |id| >= 1 && AllIdChars(id)
    ensures ConvertBlockRefs(a + ("((" + id + "))") + b, LinkRefs) == a + RefLink(id) + ConvertBlockRefs(b, LinkRefs)
  {
    RefMatch(id, b);
    ReplaceAtStart(BlockRef, "((" + id + "))", b, RefLink(id));
    ReplaceAfterStart(BlockRef, a, "((" + id + "))", b, RefLink(id) + Replace(BlockRef, b));
    ConcatAssoc(a, RefLink(id), Replace(BlockRef, b));
  }

  lemma EmbedMatch(id: string, b: string)
    requires |id| >= 1 && AllIdChars(id)
    ensures MatchHere(BlockEmbed, None, "!((" + id + "))" + b) == Some(Match(|id| + 5, ""))
  {
    var t := "!((" + id + "))" + b;
    BlockIdOf(id, b);
    assert t[1..] == "((" + id + "))" + b;
  }

  /** A block embed `!((id))` is deleted. */
  lemma EmbedRemoved(a: string, id: string, b: string)
    requires '!' !in a && |id| >= 1 && AllIdChars(id)
    ensures ConvertBlockEmbeds(a + ("!((" + id + "))") + b, RemoveEmbeds) == a + ConvertBlockEmbeds(b, RemoveEmbeds)
  {
    EmbedMatch(id, b);
    ReplaceAtStart(BlockEmbed, "!((" + id + "))", b, "");
    assert "" + Replace(BlockEmbed, b) == Replace(BlockEmbed, b);
    ReplaceAfterStart(BlockEmbed, a, "!((" + id + "))", b, Replace(BlockEmbed, b));
  }

  // ---------------------------------------------------------------------------
  // Cleanup: empty comments, then runs of blank lines.
  // ---------------------------------------------------------------------------

  predicate AllSpaces(sp: string) {
    forall k :: 0 <= k < |sp| ==> IsSpace(sp[k])
  }

  lemma CommentMatch(sp: string, b: string)
    requires AllSpaces(sp)
    ensures MatchHere(EmptyComment, None, "<!--" + sp + "-->" + b) == Some(Match(|sp| + 7, ""))
  {
    var t := "<!--" + sp + "-->" + b;
    var n := |sp|;
    assert t[..4] == "<!--";
    assert forall k :: 4 <= k < 4 + n ==> t[k] == sp[k - 4];
    assert t[4 + n] == '-';
    RunExact(Space, t, 4, n);
    assert t[n + 4..n + 7] == "-->";
  }

  /** An empty comment, `<!--` and `-->` around nothing but whitespace, is deleted. */
  lemma CommentRemoved(a: string, sp: string, b: string)
    requires '<' !in a && AllSpaces(sp)
    ensures Replace(EmptyComment, a + ("<!--" + sp + "-->") + b) == a + Replace(EmptyComment, b)
  {
    CommentMatch(sp, b);
    ReplaceAtStart(EmptyComment, "<!--" + sp + "-->", b, "");
    assert "" + Replace(EmptyComment, b) == Replace(EmptyComment, b);
    ReplaceAfterStart(EmptyComment, a, "<!--" + sp + "-->", b, Replace(EmptyComment, b));
  }

  /** `k` newlines. */
  function Newlines(k: nat): (r: string)
    ensures |r| == k && forall j :: 0 <= j < k ==> r[j] == '\n'
  {
    seq(k, _ => '\n')
  }

  lemma BlankMatch(k: nat, b: string)
    requires k >= 3 && (|b| == 0 || b[0] != '\n')
    ensures MatchHere(BlankLines, None, Newlines(k) + b) == Some(Match(k, "\n\n"))
  {
    var t := Newlines(k) + b;
    assert forall j :: 0 <= j < k ==> t[j] == '\n';
    assert k < |t| ==> t[k] == b[0];
    RunExact(Newline, t, 0, k);
  }

  /** A whole run of three or more newlines becomes exactly two. */
  lemma BlankRunCollapsed(a: string, k: nat, b: string)
    requires '\n' !in a && k >= 3 && (|b| == 0 || b[0] != '\n')
    ensures Replace(BlankLines, a + Newlines(k) + b) == a + "\n\n" + Replace(BlankLines, b)
  {
    BlankMatch(k, b);
    ReplaceAtStart(BlankLines, Newlines(k), b, "\n\n");
    ReplaceAfterStart(BlankLines, a, Newlines(k), b, "\n\n" + Replace(BlankLines, b));
    ConcatAssoc(a, "\n\n", Replace(BlankLines, b));
  }

  /** No three newlines in a row: at most one blank line between paragraphs. */
  predicate NoTriple(s: string) {
    forall k :: 0 <= k < |s| - 2 ==> !(s[k] == '\n' && s[k + 1] == '\n' && s[k + 2] == '\n')
  }

  function Min2(n: nat): (r: nat) {
    if n < 2 then n else 2
  }

  lemma RunTwo(x: string)
    ensures |x| >= 2 && x[0] == '\n' && x[1] == '\n' ==> Run(Newline, x, 0) >= 2
  {
    if |x| >= 2 {
      RunCons(Newline, x[0], x[1..]);
      RunCons(Newline, x[1], x[2..]);
      assert x == [x[0]] + x[1..] && x[1..] == [x[1]] + x[2..];
    }
  }

  lemma RunThree(x: string)
    ensures Run(Newline, x, 0) >= 3 ==> |x| >= 3 && x[0] == '\n' && x[1] == '\n' && x[2] == '\n'
  {
    RunPrefix(Newline, x, 0);
  }

  /** A character in front keeps the text free of triple newlines unless it lengthens a double one. */
  lemma NoTripleCons(c: char, x: string)
    requires NoTriple(x) && (c != '\n' || Run(Newline, x, 0) <= 1)
    ensures NoTriple([c] + x)
  {
    var y := [c] + x;
    RunTwo(x);
    forall k | 0 <= k < |y| - 2
      ensures !(y[k] == '\n' && y[k + 1] == '\n' && y[k + 2] == '\n')
    {
      if k > 0 {
        assert y[k] == x[k - 1] && y[k + 1] == x[k] && y[k + 2] == x[k + 1];
      }
    }
  }

  /** Nothing of the class follows its run. */
  lemma RunEnds(cls: CharClass, t: string)
    ensures Run(cls, t[Run(cls, t, 0)..], 0) == 0
  {
    var n := Run(cls, t, 0);
    if n < |t| {
      assert t[n..][0] == t[n];
    }
  }

  /** Two newlines in front of a text that starts with none. */
  lemma DoubleNewlineFront(x: string)
    requires NoTriple(x) && Run(Newline, x, 0) == 0
    ensures NoTriple("\n\n" + x) && Run(Newline, "\n\n" + x, 0) == 2
  {
    NoTripleCons('\n', x);
    RunCons(Newline, '\n', x);
    NoTripleCons('\n', ['\n'] + x);
    RunCons(Newline, '\n', ['\n'] + x);
    assert "\n\n" + x == ['\n'] + (['\n'] + x);
  }

  /** A run of three or more newlines collapses to two, after which no newline follows. */
  lemma BlankCollapseStep(s: string, i: nat, n: nat)
    requires i < |s| && n == Run(Newline, s[i..], 0) && n >= 3
    requires MatchTable(BlankLines, s)[i] == Some(Match(n, "\n\n"))
    requires NoTriple(Scan(MatchTable(BlankLines, s), s, i + n))
    requires Run(Newline, Scan(MatchTable(BlankLines, s), s, i + n), 0) == Min2(Run(Newline, s[i + n..], 0))
    ensures NoTriple(Scan(MatchTable(BlankLines, s), s, i))
    ensures Run(Newline, Scan(MatchTable(BlankLines, s), s, i), 0) == 2
  {
    var table := MatchTable(BlankLines, s);
    var x := Scan(table, s, i + n);
    assert table[i].value.len == n && table[i].value.repl == "\n\n";
    ScanMatchStep(table, s, i);
    assert Scan(table, s, i) == "\n\n" + x;
    RunEnds(Newline, s[i..]);
    assert s[i..][n..] == s[i + n..];
    DoubleNewlineFront(x);
  }

  /** A character outside a long run is copied, and the run in front grows by it. */
  lemma BlankCopyStep(s: string, i: nat)
    requires i < |s| && Run(Newline, s[i..], 0) < 3 && MatchTable(BlankLines, s)[i].None?
    requires NoTriple(Scan(MatchTable(BlankLines, s), s, i + 1))
    requires Run(Newline, Scan(MatchTable(BlankLines, s), s, i + 1), 0) == Min2(Run(Newline, s[i + 1..], 0))
    ensures NoTriple(Scan(MatchTable(BlankLines, s), s, i))
    ensures Run(Newline, Scan(MatchTable(BlankLines, s), s, i), 0) == Min2(Run(Newline, s[i..], 0))
  {
    var table := MatchTable(BlankLines, s);
    var x := Scan(table, s, i + 1);
    ScanCopyStep(table, s, i);
    assert s[i..] == [s[i]] + s[i + 1..];
    RunCons(Newline, s[i], s[i + 1..]);
    NoTripleCons(s[i], x);
    RunCons(Newline, s[i], x);
  }

  /** The scan of `/\n{3,}/g` from `i`: no triple newline, and its leading run is the input's, capped at two. */
  lemma {:induction false} ScanBlank(s: string, i: nat)
    requires i <= |s|
    ensures NoTriple(Scan(MatchTable(BlankLines, s), s, i))
    ensures Run(Newline, Scan(MatchTable(BlankLines, s), s, i), 0) == Min2(Run(Newline, s[i..], 0))
    decreases |s| - i
  {
    if i < |s| {
      var n := Run(Newline, s[i..], 0);
      MatchTableAt(BlankLines, s, i);
      assert MatchAt(BlankLines, s, i) == MatchBlankLines(s[i..]);
      if n >= 3 {
        ScanBlank(s, i + n);
        BlankCollapseStep(s, i, n);
      } else {
        ScanBlank(s, i + 1);
        BlankCopyStep(s, i);
      }
    }
  }

  /** After the blank-line stage no three newlines follow one another. */
  lemma BlankLinesCollapsed(s: string)
    ensures NoTriple(Replace(BlankLines, s))
  {
    ScanBlank(s, 0);
  }

  /** A text without three newlines in a row passes the blank-line stage unchanged. */
  lemma BlankLinesKeepNoTriple(s: string)
    requires NoTriple(s)
    ensures Replace(BlankLines, s) == s
  {
    forall k | 0 <= k < |s|
      ensures MatchAt(BlankLines, s, k).None?
    {
      RunThree(s[k..]);
      if |s[k..]| >= 3 {
        assert s[k..][0] == s[k] && s[k..][1] == s[k + 1] && s[k..][2] == s[k + 2];
      }
    }
    ReplaceNoMatch(BlankLines, s);
  }

  /** The blank-line stage is idempotent. */
  lemma BlankLinesIdempotent(s: string)
    ensures Replace(BlankLines, Replace(BlankLines, s)) == Replace(BlankLines, s)
  {
    BlankLinesCollapsed(s);
    BlankLinesKeepNoTriple(Replace(BlankLines, s));
  }

  // ---------------------------------------------------------------------------
  // The whole conversion.
  // ---------------------------------------------------------------------------

  /** The frontmatter and emoji steps bring no emoji when emoji are removed, and no stage brings one back. */
  lemma HeadedNoEmoji(s: string, cfg: Settings)
    requires cfg.removeEmoji
    ensures NoEmoji(Headed(s, cfg))
  {
    var h := ConvertHeadings(Prepare(s, cfg));
    ReplaceKeepsNoEmoji(HeadingId, Prepare(s, cfg));
    ReplaceKeepsNoEmoji(TagRemove, h);
    ReplaceKeepsNoEmoji(TagEscape, h);
  }

  lemma LaterStagesKeepNoEmoji(t: string, cfg: Settings)
    requires NoEmoji(t)
    ensures NoEmoji(CleanupSyntax(LinkThenEmbed(t, cfg)))
    ensures NoEmoji(CleanupSyntax(EmbedThenLink(t, cfg)))
  {
    ReplaceKeepsNoEmoji(BlockRef, t);
    ReplaceKeepsNoEmoji(BlockEmbed, t);
    var linked := ConvertBlockRefs(t, cfg.refMode);
    var embedded := ConvertBlockEmbeds(t, cfg.embedMode);
    ReplaceKeepsNoEmoji(BlockEmbed, linked);
    ReplaceKeepsNoEmoji(BlockRef, embedded);
    var u := LinkThenEmbed(t, cfg);
    var v := EmbedThenLink(t, cfg);
    ReplaceKeepsNoEmoji(EmptyComment, u);
    ReplaceKeepsNoEmoji(BlankLines, Replace(EmptyComment, u));
    ReplaceKeepsNoEmoji(EmptyComment, v);
    ReplaceKeepsNoEmoji(BlankLines, Replace(EmptyComment, v));
  }

  /** With `removeEmoji`, the output holds no character of the emoji range. */
  lemma ConvertRemovesEmoji(s: string, o: ConvertOptions)
    requires o.removeEmoji == Some(true)
    ensures NoEmoji(ConvertFromKramdown(s, o)) && NoEmoji(ConvertFromKramdownFixed(s, o))
  {
    HeadedNoEmoji(s, Resolve(o));
    LaterStagesKeepNoEmoji(Headed(s, Resolve(o)), Resolve(o));
  }

  /** Whatever the options, the output never has three newlines in a row. */
  lemma ConvertNoTripleNewlines(s: string, o: ConvertOptions)
    ensures NoTriple(ConvertFromKramdown(s, o)) && NoTriple(ConvertFromKramdownFixed(s, o))
  {
    var cfg := Resolve(o);
    BlankLinesCollapsed(Replace(EmptyComment, LinkThenEmbed(Headed(s, cfg), cfg)));
    BlankLinesCollapsed(Replace(EmptyComment, EmbedThenLink(Headed(s, cfg), cfg)));
  }

  /** Text with none of the characters the stages react to, and no frontmatter opening. */
  predicate PlainText(s: string) {
    && '#' !in s && '(' !in s && '!' !in s && '<' !in s
    && NoTriple(s) && NoEmoji(s) && (|s| < 4 || s[..4] != Open)
  }

  lemma HeadedPlain(s: string, cfg: Settings)
    requires '#' !in s && NoEmoji(s) && (|s| < 4 || s[..4] != Open)
    ensures Headed(s, cfg) == s
  {
    RemoveEmojisUnchanged(s);
    ReplaceWithoutLead(HeadingId, s);
    ReplaceWithoutLead(TagRemove, s);
    ReplaceWithoutLead(TagEscape, s);
  }

  lemma CleanupPlain(s: string)
    requires '<' !in s && NoTriple(s)
    ensures CleanupSyntax(s) == s
  {
    ReplaceWithoutLead(EmptyComment, s);
    BlankLinesKeepNoTriple(s);
  }

  /** Plain text goes through the conversion unchanged, whatever the options. */
  lemma ConvertPlainText(s: string, o: ConvertOptions)
    requires PlainText(s)
    ensures ConvertFromKramdown(s, o) == s && ConvertFromKramdownFixed(s, o) == s
  {
    var cfg := Resolve(o);
    HeadedPlain(s, cfg);
    ReplaceWithoutLead(BlockRef, s);
    ReplaceWithoutLead(BlockEmbed, s);
    CleanupPlain(s);
  }

  // ---------------------------------------------------------------------------
  // The order of steps 5 and 6.
  // ---------------------------------------------------------------------------

  lemma IdLacks(id: string, c: char)
    requires AllIdChars(id) && !IsIdChar(c)
    ensures c !in id
  {
  }

  lemma NoNewlineNoTriple(s: string)
    requires '\n' !in s
    ensures NoTriple(s)
  {
    forall k | 0 <= k < |s| - 2
      ensures s[k] != '\n'
    {
    }
  }

  /** The embed token passes steps 1 to 4 unchanged. */
  lemma EmbedTokenHeaded(id: string, cfg: Settings)
    requires |id| >= 1 && AllIdChars(id)
    ensures Headed("!((" + id + "))", cfg) == "!((" + id + "))"
  {
    var t := "!((" + id + "))";
    assert forall k :: 3 <= k < |id| + 3 ==> t[k] == id[k - 3];
    assert forall k :: 0 <= k < |t| ==> t[k] in "!()" || IsIdChar(t[k]);
    assert '#' !in t && NoEmoji(t);
    assert t[..4][0] != Open[0];
    HeadedPlain(t, cfg);
  }

  /** After the reference link is written, the `!` in front of it is not an embed any more. */
  lemma LinkedEmbedKept(id: string)
    requires AllIdChars(id)
    ensures ConvertBlockEmbeds("!" + RefLink(id), RemoveEmbeds) == "!" + RefLink(id)
  {
    var u := "!" + RefLink(id);
    IdLacks(id, '!');
    RefLinkChars(id, '!');
    forall k | 0 <= k < |u|
      ensures MatchAt(BlockEmbed, u, k).None?
    {
      if k == 0 {
        assert u[0..][1..][0] == '[';
      } else {
        assert u[k] == RefLink(id)[k - 1];
      }
    }
    ReplaceNoMatch(BlockEmbed, u);
  }

  /** Steps 5 and 6 in the source's order on an embed token, references linked and embeds removed. */
  lemma EmbedLinkedFirst(id: string, cfg: Settings)
    requires |id| >= 1 && AllIdChars(id) && cfg.refMode == LinkRefs && cfg.embedMode == RemoveEmbeds
    ensures LinkThenEmbed("!((" + id + "))", cfg) == "!" + RefLink(id)
  {
    RefLinked("!", id, "");
    assert "!" + ("((" + id + "))") + "" == "!((" + id + "))";
    assert ConvertBlockRefs("", LinkRefs) == "";
    assert "!" + RefLink(id) + "" == "!" + RefLink(id);
    LinkedEmbedKept(id);
  }

  lemma LinkCleaned(id: string)
    requires AllIdChars(id)
    ensures CleanupSyntax("!" + RefLink(id)) == "!" + RefLink(id)
  {
    var u := "!" + RefLink(id);
    IdLacks(id, '<');
    IdLacks(id, '\n');
    RefLinkChars(id, '<');
    RefLinkChars(id, '\n');
    NoNewlineNoTriple(u);
    CleanupPlain(u);
  }

  /**
   * As the source orders the steps, an embed is never removed when references
   * are linked as well: step 5 turns its `((id))` into a link first.
   */
  lemma EmbedSurvivesAsLink(id: string, o: ConvertOptions)
    requires |id| >= 1 && AllIdChars(id)
    requires Resolve(o).refMode == LinkRefs && Resolve(o).embedMode == RemoveEmbeds
    ensures ConvertFromKramdown("!((" + id + "))", o) == "!" + RefLink(id)
  {
    EmbedTokenHeaded(id, Resolve(o));
    EmbedLinkedFirst(id, Resolve(o));
    LinkCleaned(id);
  }

  /** With embeds handled first, `!((id))` is removed whatever the reference mode. */
  lemma FixedRemovesEmbed(id: string, o: ConvertOptions)
    requires |id| >= 1 && AllIdChars(id) && Resolve(o).embedMode == RemoveEmbeds
    ensures ConvertFromKramdownFixed("!((" + id + "))", o) == ""
  {
    var cfg := Resolve(o);
    EmbedTokenHeaded(id, cfg);
    EmbedRemoved("", id, "");
    assert "" + ("!((" + id + "))") + "" == "!((" + id + "))";
    assert ConvertBlockEmbeds("", RemoveEmbeds) == "";
    assert ConvertBlockRefs("", cfg.refMode) == "";
    assert CleanupSyntax("") == "";
  }

  /** The two orders agree unless references are linked and embeds removed. */
  lemma FixedAgreesOtherwise(s: string, o: ConvertOptions)
    requires Resolve(o).refMode == KeepRefs || Resolve(o).embedMode == KeepEmbeds
    ensures ConvertFromKramdownFixed(s, o) == ConvertFromKramdown(s, o)
  {
  }

  // ---------------------------------------------------------------------------
  // `sanitizePath`: four single-character replacements.
  // ---------------------------------------------------------------------------

  /** The characters `[\\/:*?"<>|]` that file systems refuse in a name. */
  predicate IsForbidden(c: char) {
    c == '\\' || c == '/' || c == ':' || c == '*' || c == '?' || c == '"' || c == '<' || c == '>' || c == '|'
  }

  /** `s.replace(/x/g, y)` for a single character `x` and a one-character `y`. */
  function ReplaceChar(s: string, x: char, y: char): (r: string)
    ensures |r| == |s|
    ensures forall k :: 0 <= k < |s| ==> r[k] == (if s[k] == x then y else s[k])
  {
    if |s| == 0 then [] else [if s[0] == x then y else s[0]] + ReplaceChar(s[1..], x, y)
  }

  /** `s.replace(/[\\/:*?"<>|]/g, '_')`. */
  function ReplaceForbidden(s: string): (r: string)
    ensures |r| == |s|
    ensures forall k :: 0 <= k < |s| ==> r[k] == (if IsForbidden(s[k]) then '_' else s[k])
  {
    if |s| == 0 then [] else [if IsForbidden(s[0]) then '_' else s[0]] + ReplaceForbidden(s[1..])
  }

  /** `sanitizePath`: the bullet kept as it is, the two wide spaces made plain, forbidden characters made `_`. */
  function SanitizePath(hpath: string): (r: string) {
    var bullets := ReplaceChar(hpath, '\U{2022}', '\U{2022}');
    var spaced := ReplaceChar(ReplaceChar(bullets, '\U{00A0}', ' '), '\U{3000}', ' ');
    ReplaceForbidden(spaced)
  }

  /** What the path makes of one character. */
  function SanitizeChar(c: char): (r: char) {
    if c == '\U{00A0}' || c == '\U{3000}' then ' ' else if IsForbidden(c) then '_' else c
  }

  /** The path is sanitized character by character: same length, each character mapped on its own. */
  lemma SanitizePathPointwise(hpath: string)
    ensures |SanitizePath(hpath)| == |hpath|
    ensures forall k :: 0 <= k < |hpath| ==> SanitizePath(hpath)[k] == SanitizeChar(hpath[k])
  {
  }

  /** A sanitized path holds no forbidden character and no wide space. */
  lemma SanitizePathSafe(hpath: string)
    ensures forall k :: 0 <= k < |SanitizePath(hpath)| ==>
      var c := SanitizePath(hpath)[k]; !IsForbidden(c) && c != '\U{00A0}' && c != '\U{3000}'
  {
    SanitizePathPointwise(hpath);
  }

  /** Characters that are neither forbidden nor wide spaces pass through. */
  lemma SanitizePathKeeps(hpath: string)
    requires forall k :: 0 <= k < |hpath| ==> !IsForbidden(hpath[k]) && hpath[k] != '\U{00A0}' && hpath[k] != '\U{3000}'
    ensures SanitizePath(hpath) == hpath
  {
    SanitizePathPointwise(hpath);
  }

  /** Sanitizing twice changes nothing more. */
  lemma SanitizePathIdempotent(hpath: string)
    ensures SanitizePath(SanitizePath(hpath)) == SanitizePath(hpath)
  {
    SanitizePathSafe(hpath);
    SanitizePathKeeps(SanitizePath(hpath));
  }
}
