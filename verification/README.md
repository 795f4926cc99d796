# SiYuan note CLI: converter, configuration, document paths and API client

This project is a Dafny model of the core of a command-line client for the
SiYuan note-taking application. It covers four parts, each in its own module.

- **MarkdownConverter**, built on **KramdownRegex** and **Frontmatter**:
  `convertFromKramdown` with its seven stages. The stages are frontmatter
  removal, emoji removal, heading identifiers, tags, block references, block
  embeds and syntax cleanup. Also modelled are `parseFrontmatter`,
  `generateFrontmatter`, `extractTagsFromFrontmatter` and `sanitizePath`.
  Every regular expression of the converter is written out as an explicit
  matcher. Each matcher makes the same choice that JavaScript's backtracking
  engine makes: greedy and lazy quantifiers, the multiline `^` and `$`, and
  the `(?<!\w)` lookbehind. One shared global-replace scan plays the part of
  `String.prototype.replace` with the `g` flag.
- **AppConfig**: the priority merge of command-line, environment, file and
  default values. `||` skips empty strings and zero; `??` skips only missing
  values. It also covers the `plain` rewrite of the table format and
  `validateConfig`.
- **DocPath**: `normalizeDocPath`, which repairs paths that a Windows shell
  rewrote into drive paths. It also covers the child name and the full path
  that `doc insert` builds.
- **ApiClient**: client construction, the generic `post` with its
  `{code, msg, data}` envelope check, `checkResponseCode`, `handleError`, and
  the masked token.

**JsStrings** holds the JavaScript string primitives. These are
`\s`/`\w` classes, runs of a character class, `indexOf`, `trim`, `split`,
`join`, and integer formatting. **Wrappers** holds `Option` and `Result`.

The HTTP transport is a parameter: `ApiClient.Post` receives the request's
outcome, either a response body or a thrown value. Environment variables and
the configuration file are passed as records of optional fields.

## Model

| member | source | states |
|---|---|---|
| MarkdownConverter.Resolve | src/utils/markdown-converter.ts:39-44 | Each given mode is used. Frontmatter is stripped unless `keepFrontmatter` is true. Emoji are removed only when `removeEmoji` is true. |
| MarkdownConverter.ResolveDefaults | src/utils/markdown-converter.ts:39-44 | With no options, tags are escaped, references and embeds are kept, frontmatter is stripped and emoji are kept. |
| MarkdownConverter.RemoveEmojis | src/utils/markdown-converter.ts:94-97 | The result is no longer than the input. It holds no character of U+1F300..U+1F9FF. |
| MarkdownConverter.RemoveEmojisSubsequence | src/utils/markdown-converter.ts:94-97 | Removal only deletes: the output is a subsequence of the input. |
| MarkdownConverter.RemoveEmojisKeepsOthers | src/utils/markdown-converter.ts:94-97 | Every non-emoji character occurs in the output exactly as often as in the input. |
| MarkdownConverter.RemoveEmojisUnchanged | src/utils/markdown-converter.ts:94-97 | A text without emoji is returned unchanged. |
| MarkdownConverter.HeadingIdDropped | src/utils/markdown-converter.ts:104-107 | A line `#{1,6} text {#id}` at a line start becomes `#{1,6} text`. Text before it is untouched. The text after it is converted on its own. |
| MarkdownConverter.HeadingLineReplaced | src/utils/markdown-converter.ts:106 | The heading pattern matches the whole `hashes ws text ws {#id}` line. The match is replaced by the hashes, one space and the text, with the trailing whitespace and the id gone. |
| MarkdownConverter.HeadingsWithoutIdUnchanged | src/utils/markdown-converter.ts:104-107 | A text without `{#` passes the heading stage unchanged. |
| MarkdownConverter.HeadingMatchBrace | src/utils/markdown-converter.ts:106 | Every heading match contains an opening `{#` after its start. |
| KramdownRegex.HeadingMatchParts | src/utils/markdown-converter.ts:106 | A heading match is the whole run of 1 to 6 hashes, then at least one whitespace, then a text with no line break (it may hold `{`), then whitespace, `{#`, a nonempty `}`-free id and `}`, then whitespace up to a line end. |
| KramdownRegex.HeadingMarker | src/utils/markdown-converter.ts:106 | The hash group is a full run of `#` that whitespace follows. |
| KramdownRegex.BlockIdShape | src/utils/markdown-converter.ts:142 | `((id))` is recognised exactly when `id` is a nonempty run of `[0-9a-zA-Z-]` closed by `))`. |
| KramdownRegex.MatchBlankLines | src/utils/markdown-converter.ts:169 | A match takes a whole run of at least three newlines and writes two. No match means the run is shorter than three. |
| KramdownRegex.ReplaceDeletes | src/utils/markdown-converter.ts:118 | For the deleting patterns (tag removal, embed, empty comment, blank lines) the output is a subsequence of the input. |
| KramdownRegex.ReplaceAddsNothing | src/utils/markdown-converter.ts:104-172 | No stage introduces a character that its input and its replacement templates lack. |
| KramdownRegex.ReplaceNoMatch | src/utils/markdown-converter.ts:104-172 | A global replacement where no position matches returns the input. |
| MarkdownConverter.TagRemoved | src/utils/markdown-converter.ts:116-119 | In remove mode, a `#name` not preceded by a word character is deleted. Everything around it is kept or converted on its own. |
| MarkdownConverter.TagEscaped | src/utils/markdown-converter.ts:121-125 | In escape mode, a line start `#{1,6}` plus one whitespace plus `#name` gets a backslash before the tag's `#`. |
| MarkdownConverter.EscapeOnlyAtLineStart | src/utils/markdown-converter.ts:121-125 | Escaping changes nothing in a text with no line start followed by 1 to 6 `#`, one whitespace, `#` and a tag character. Headings and inline tags are kept. |
| MarkdownConverter.EscapeKeepsHeadingAndInlineTag | src/utils/markdown-converter.ts:121-125 | A heading line followed by a line with an inline `#project` tag comes out unchanged. |
| MarkdownConverter.RefLinked | src/utils/markdown-converter.ts:136-143 | In link mode `((id))` becomes `[块引用](siyuan://id)`. The rest is kept or converted on its own. |
| MarkdownConverter.EmbedRemoved | src/utils/markdown-converter.ts:150-157 | In remove mode `!((id))` is deleted. The rest is kept or converted on its own. |
| MarkdownConverter.CommentRemoved | src/utils/markdown-converter.ts:166 | An HTML comment holding only whitespace is deleted. |
| MarkdownConverter.BlankRunCollapsed | src/utils/markdown-converter.ts:169 | A maximal run of three or more newlines becomes exactly two. |
| MarkdownConverter.BlankLinesCollapsed | src/utils/markdown-converter.ts:169 | After the blank-line stage no three newlines follow one another. |
| MarkdownConverter.BlankLinesKeepNoTriple | src/utils/markdown-converter.ts:169 | A text without three newlines in a row passes the blank-line stage unchanged. |
| MarkdownConverter.BlankLinesIdempotent | src/utils/markdown-converter.ts:169 | The blank-line stage is idempotent. |
| MarkdownConverter.ConvertRemovesEmoji | src/utils/markdown-converter.ts:60-77 | With `removeEmoji`, the output holds no emoji, in either order of the reference and embed stages. |
| MarkdownConverter.ConvertNoTripleNewlines | src/utils/markdown-converter.ts:38-80 | Whatever the options, the converted text never has three newlines in a row. |
| MarkdownConverter.ConvertPlainText | src/utils/markdown-converter.ts:38-80 | Text with no `#`, `(`, `!`, `<`, emoji, triple newline or frontmatter opening comes through unchanged under every option. |
| MarkdownConverter.EmbedSurvivesAsLink | src/utils/markdown-converter.ts:70-74 | As written, with references linked and embeds removed, `!((id))` comes out as `![块引用](siyuan://id)`. It is not removed. |
| MarkdownConverter.FixedRemovesEmbed | src/utils/markdown-converter.ts:70-74 | With embeds handled before references, `!((id))` is removed in every reference mode. |
| MarkdownConverter.FixedAgreesOtherwise | src/utils/markdown-converter.ts:70-74 | The two stage orders give the same output unless references are linked and embeds removed. |
| MarkdownConverter.SanitizePathPointwise | src/utils/markdown-converter.ts:250-259 | Sanitizing maps each character on its own and keeps the length. |
| MarkdownConverter.SanitizePathSafe | src/utils/markdown-converter.ts:250-259 | A sanitized path holds none of `\ / : * ? " < > \|`, no U+00A0 and no U+3000. |
| MarkdownConverter.SanitizePathKeeps | src/utils/markdown-converter.ts:250-259 | A path with none of those characters is unchanged. |
| MarkdownConverter.SanitizePathIdempotent | src/utils/markdown-converter.ts:250-259 | Sanitizing twice is sanitizing once. |
| Frontmatter.RemoveFrontmatter | src/utils/markdown-converter.ts:85-89 | The result is a suffix of the input. A text that does not open with `---` plus a newline is unchanged. |
| Frontmatter.RemovedBlockIsShortest | src/utils/markdown-converter.ts:87 | The removed block ends at the first `\n---\n` after the opening line (the lazy `[\s\S]*?`). What follows it is kept. |
| Frontmatter.UnclosedBlockKept | src/utils/markdown-converter.ts:85-89 | Without a closing delimiter nothing is removed. |
| Frontmatter.ExtractTagsFromFrontmatter | src/utils/markdown-converter.ts:177-183 | Each extracted tag is trimmed and holds no comma. |
| Frontmatter.TagsFieldStripsExtracted | src/utils/markdown-converter.ts:214-217 | The parser's tags are the extracted tags with one leading and one trailing quote stripped. There is no tags field exactly when nothing is extracted. |
| Frontmatter.StripQuotes | src/utils/markdown-converter.ts:216 | At most one quote goes at each end. A text not starting or ending in a quote is unchanged. |
| Frontmatter.ScalarField | src/utils/markdown-converter.ts:202-211 | A found value has no leading or trailing whitespace. |
| Frontmatter.ScalarFound | src/utils/markdown-converter.ts:202-211 | `key: v` on its own line, as the first occurrence of the key, is read back as `v`. |
| Frontmatter.ScalarAbsent | src/utils/markdown-converter.ts:202-211 | A key that does not occur yields no value. |
| Frontmatter.TagGroupFound | src/utils/markdown-converter.ts:214 | `tags: [g]` on its own line yields the bracketed text `g`. |
| Frontmatter.TagListRoundTrip | src/utils/markdown-converter.ts:216 | Tags joined with `, `, then split on `,`, trimmed and quote-stripped, give back the same tags when they are plain. |
| Frontmatter.ParseFrontmatter | src/utils/markdown-converter.ts:188-220 | The body is the text after the block. No id is ever read. Without a block the meta is empty and the body is the input. A title is trimmed. A tags field is nonempty. |
| Frontmatter.ParseOfBlock | src/utils/markdown-converter.ts:188-220 | A delimited block parses into the fields its contents hold, with the text after it as the body. |
| Frontmatter.GeneratedShape | src/utils/markdown-converter.ts:225-245 | With at least one field, the output is `---`, the field lines joined by newlines, then `---` and an empty line. |
| Frontmatter.GeneratedFields | src/utils/markdown-converter.ts:228-236 | The title, date and lastmod written by the generator are the ones the parser reads back. |
| Frontmatter.GeneratedTags | src/utils/markdown-converter.ts:237-238 | The tags written by the generator are the ones the parser reads back. |
| Frontmatter.ParseGenerateRoundTrip | src/utils/markdown-converter.ts:188-245 | Parsing a generated block followed by a body returns the same metadata and that body. This holds for values on one line and plain tags. |
| AppConfig.Merge | src/config/index.ts:86-97 | With `plain`, the table format is never chosen. `plain` is decided before the rewrite. |
| AppConfig.MergePriority | src/config/index.ts:86-90 | Endpoint, token and output format come from the first truthy source among command line, environment, file and default. The timeout is the first nonzero one among command line, environment and file, else 10000. |
| AppConfig.FirstTruthy | src/config/index.ts:86-90 | The result is the first truthy value in the list, or the fallback when there is none. |
| AppConfig.MergeDefaults | src/config/index.ts:16-22 | With every source empty: `http://127.0.0.1:6806`, an empty token, 10000 ms, `table`, not plain. |
| AppConfig.FalsyFallsThrough | src/config/index.ts:87-90 | An empty string or zero on the command line gives the same merge as leaving the value out. |
| AppConfig.CliShadows | src/config/index.ts:86-92 | A truthy command-line value wins field by field. |
| AppConfig.EnvShadowsFile | src/config/index.ts:87-90 | Without a command-line value, a truthy environment value wins over the file. |
| AppConfig.FileShadowsDefaults | src/config/index.ts:86-92 | A truthy file value wins over the defaults. |
| AppConfig.PlainSources | src/config/index.ts:91 | `plain` ignores the environment. An explicit command-line `false` beats a file `true`. |
| AppConfig.PlainRewrite | src/config/index.ts:94-97 | `table` becomes `json` exactly when plain. Every other format and every other field is kept. |
| AppConfig.ValidateConfig | src/config/index.ts:130-158 | Valid exactly when no error was collected, and exactly when the endpoint and token are nonempty, a truthy timeout is at least 1000 and a truthy format is a known one. |
| AppConfig.ValidIff | src/config/index.ts:130-158 | Valid exactly when the endpoint and token are nonempty, a truthy timeout is at least 1000, and a truthy format is one of table, json or markdown. |
| AppConfig.ErrorMessages | src/config/index.ts:133-152 | The endpoint message is present exactly when the endpoint is empty. The first token line is present exactly when the token is empty. The timeout message is present exactly when the timeout is truthy and below 1000. The format message is present exactly when the format is truthy and unknown. |
| AppConfig.ErrorCount | src/config/index.ts:133-152 | The endpoint check adds one line, the token check five, the timeout and format checks one each. |
| AppConfig.TimeoutFlags | src/config/index.ts:145-147 | A zero or missing timeout is not flagged. A negative one is. |
| AppConfig.DefaultsNeedToken | src/config/index.ts:16-22 | With only the defaults, the sole complaint is the five token lines. |
| AppConfig.MergedEndpointSet | src/config/index.ts:87 | The merged endpoint is never empty. |
| DocPath.NormalizeDocPath | src/cli/commands/doc.ts:13-52 | The result always starts with `/`. |
| DocPath.RootedKept | src/cli/commands/doc.ts:48-51 | A path that starts with `/` is returned unchanged. |
| DocPath.PlainPathRooted | src/cli/commands/doc.ts:48-51 | Any other non-drive path gets a leading `/`. |
| DocPath.GitInDrivePath | src/cli/commands/doc.ts:23-34 | In a drive path, a `Git/` in the whole input and one after the drive prefix are the same thing. |
| DocPath.DriveLastSegment | src/cli/commands/doc.ts:34-40 | A drive path without `Git/` keeps only its last segment after `/` or `\`. |
| DocPath.DriveGitPath | src/cli/commands/doc.ts:23-45 | A drive path with `Git/` keeps the rest when it starts with `/`. Otherwise it keeps only its last `/` segment. |
| DocPath.DriveTrailingSlash | src/cli/commands/doc.ts:42-51 | A drive path ending in `/` falls through and is rooted whole. |
| DocPath.GitParentDropped | src/cli/commands/doc.ts:23-45 | As written, the shell path of `/parent/child` comes back as `/child`, so the parent is lost. |
| DocPath.FixedKeepsParent | src/cli/commands/doc.ts:15-16 | Repaired, the shell path of `/parent/child` comes back as `/parent/child`. |
| DocPath.FixedGitPath | src/cli/commands/doc.ts:15-16 | Repaired, a drive path with `Git/` keeps everything after it, rooted. |
| DocPath.FixedAgreesWithoutGit | src/cli/commands/doc.ts:13-52 | The repair changes nothing for paths without `Git/`. |
| DocPath.ChildName | src/cli/commands/doc.ts:386 | The name is never longer than the path. |
| DocPath.ChildNameOfDoc | src/cli/commands/doc.ts:386 | The name of `/x.sy` is `x`. |
| DocPath.ChildNameRoundTrip | src/cli/commands/doc.ts:386 | A rooted `.sy` path is `/`, its name, and `.sy`. |
| DocPath.ChildNameWithoutSuffix | src/cli/commands/doc.ts:386 | Without the `.sy` suffix only the leading `/` goes. |
| DocPath.FullPath | src/cli/commands/doc.ts:399-401 | The full path ends with `/` and the child's name. It is rooted when the parent is. |
| DocPath.FullPathCases | src/cli/commands/doc.ts:399-401 | Under the root or an empty parent it is `/name`. Under any other parent it is the parent, `/` and the name. |
| DocPath.InsertPath | src/cli/commands/doc.ts:382-401 | The path `doc insert` builds starts at the root and ends with the child's name. |
| ApiClient.Construct | src/api/client.ts:50-72 | A built client has a nonempty token and sends `Token <token>` as authorization. |
| ApiClient.ConstructAccepts | src/api/client.ts:52-59 | A client is built exactly for the configurations the validator accepts. |
| ApiClient.ConstructRejects | src/api/client.ts:53-55 | A rejected configuration is reported with all its validation errors joined by `, `. |
| ApiClient.TokenGuardUnreachable | src/api/client.ts:57-59 | The separate missing-token error is never raised, because validation already rejects an empty token. |
| ApiClient.ConstructDefaults | src/api/client.ts:64-70 | The client uses the configured endpoint and token, and the configured timeout unless it is zero. |
| ApiClient.CheckResponseCode | src/api/client.ts:100-104 | There is an error exactly when the code is nonzero. Its message starts with the fixed prefix. |
| ApiClient.HandleError | src/api/client.ts:109-119 | A thrown `Error` passes through with its own message. |
| ApiClient.HandleErrorNamesPath | src/api/client.ts:110-118 | A transport failure reads `API 错误 (path): msg`, with the server's nonempty `msg` or else the transport's message. A thrown non-error reads `未知错误 (path): value`. |
| ApiClient.HandleErrorPrefersServerMsg | src/api/client.ts:112 | A nonempty server `msg` is shown. Otherwise the transport's message is shown. |
| ApiClient.Post | src/api/client.ts:78-95 | A call succeeds exactly when a response arrived that is not an envelope or has code 0. |
| ApiClient.PostUnwraps | src/api/client.ts:84-88 | A code-0 envelope yields its data. A missing or null data yields `{}`. |
| ApiClient.PostPassesOther | src/api/client.ts:90 | A body without a code is returned as it is. |
| ApiClient.PostRejectsCode | src/api/client.ts:84-94 | A nonzero code fails with the code's message, not wrapped again with the path. |
| ApiClient.PostReportsFailure | src/api/client.ts:91-94 | A transport failure always fails, naming the path unless an `Error` was thrown. |
| ApiClient.TokenMasked | src/api/client.ts:428-431 | The mask is `****` exactly for tokens of at most 8 characters. Otherwise it is 12 characters long. |
| ApiClient.MaskShowsOnlyEnds | src/api/client.ts:428-431 | Long tokens with the same first four and last four characters get the same mask. |
| ApiClient.MaskHidesShort | src/api/client.ts:429 | Every short token masks to `****`. |
| ApiClient.MaskKeepsEnds | src/api/client.ts:430 | A long token's first four and last four characters can be read back from its mask. |

## Left out

- Environment reading and `parseInt`: the environment is a record of optional values. A timeout that does not parse (`NaN`) is falsy, the same as a missing one.
- Reading `.snmclirc.json` and the other configuration files: the file is a record of optional values.
- The HTTP transport: axios, its instance defaults and the `Content-Type` header. The request body `data \|\| {}` is not modelled because it does not affect the result.
- The `throw error` after `handleError` in `post` is never reached, because `handleError` always throws.
- Response codes that are not numbers: `code` is an integer.
- Non-integer and non-finite timeouts: `timeout` is an integer.
- The YAML tag mode returns the text unchanged, as the source does. Nothing is extracted into frontmatter.
- The formatter, the logger, the other `doc` subcommands and the API wrapper files are not part of this model.
- `normalizeDocPath` on an undefined argument is not modelled: every input is a string.
- ApiClient.TokenMasked: lengths count code points; JavaScript counts UTF-16 units, so a token with astral characters may be cut inside a surrogate pair.
- MarkdownConverter.HeadingIdDropped: stated only for heading text of one line that holds no `{` and neither starts nor ends with whitespace. The lazy `(.+?)` also accepts text containing `{`, which the matcher models and the lemma leaves out. It is also stated only when the heading line is last or is followed by one line break and a line that does not start with whitespace. The final `\s*$` is greedy and crosses line breaks, so a blank line directly after a heading is absorbed into the match. The matcher models this; the lemma does not state it.
- MarkdownConverter.BlankLinesIdempotent: stated for the blank-line stage only. `cleanupSyntax` as a whole is not idempotent: deleting the inner comment of `<!--<!-- -->-->` leaves the empty comment `<!---->` behind.
- MarkdownConverter.ConvertPlainText: stated only for text free of every trigger character. The individual stage lemmas cover the other inputs.

## Findings

| source | as written | input that shows it | evidently intended | confidence | as-written member | corrected member |
|---|---|---|---|---|---|---|
| src/cli/commands/doc.ts:23-45 | After `Git/` the rest does not start with `/`, so the code falls through to the last-segment rule | `D:/program_files/Git/parent/child.sy` gives `/child.sy` | `/parent/child.sy`, as the comment on line 16 says | not executed; high | DocPath.GitParentDropped | DocPath.FixedKeepsParent |
| src/utils/markdown-converter.ts:70-74 | Block references are linked before embeds are removed, so the `((id))` inside `!((id))` is already a link when the embed pattern runs | `!((abc))` with `refMode: 'link'`, `embedMode: 'remove'` gives `![块引用](siyuan://abc)` | the embed is deleted and the output is empty | not executed; medium | MarkdownConverter.EmbedSurvivesAsLink | MarkdownConverter.FixedRemovesEmbed |
