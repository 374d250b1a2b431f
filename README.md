# webpcss `transform`, modelled in Dafny

webpcss is a PostCSS plugin. `transform(css, options)` walks a stylesheet.
For every rule whose declarations name a raster image through `url(...)`, it
adds a *webp variant* of that rule:

- the selector is scoped under the webp class (`.webp .test`, or `html.webp.test` for selectors that start with `html`);
- the variant holds only the image declarations, each with its urls rewritten (`test.png` becomes `test.webp`);
- when `copyBackgroundSize` is set, the rule's `background-size` goes into the variant as well.

When a `noWebpClass` is given, each image rule is also split where it stands:

- a *no-webp clone* made of the selector scoped under that class and the image declarations unchanged;
- followed by the rule with its remaining declarations, when any remain.

Variants inside `@media` blocks come out inside fresh copies of the same
at-rule chain. The variants are placed after all of the original nodes.

The behaviour modelled is pinned down by the package's test suite,
`test/main_spec.js`. Each stylesheet the suite runs through `transform` is
stated here on the parsed tree. That tree is a sequence of `Node`s: rules
(a selector and declarations) and at-rules (a name, params and children).

The model has these parts:

- `Options` holds the resolved options of one call:
  - `webpClass` and `noWebpClass`;
  - `replace_from`, as a dot followed by one of a list of extensions, with or without a capturing group;
  - `replace_to`, as a template with `$1` or as a callback;
  - `replaceRemoteImage`, `copyBackgroundSize` and `minAddClassFileSize`;
  - a map from urls to image sizes that stands in for the file-system lookup behind the size gate.

  `Defaults()` are the options used when none are given.
- `UrlValue` handles declaration values:
  - it cuts a value into plain text and `url(...)` tokens, and proves that the cut loses nothing;
  - it removes the quotes of a token;
  - it classifies the url as a `data:` webp, a `data:` svg, another `data:` url, a remote url or a local url;
  - it decides eligibility: a local url must match `replace_from` and pass the size gate, and a remote one must also have `replaceRemoteImage` on;
  - it rewrites each eligible token as `replace_to` says. Ineligible tokens and all other text are kept.
- `Selector` scopes a selector under a class. It splits the selector on commas and trims each part. A part that already starts with the class stays as it is, an `html`-led part gets the class right after `html`, and any other part gets the class and a space in front.
- `Duplicator`:
  - defines the specification functions `SplitForest`, `VariantForest` and `Transformed`;
  - defines the `Stylesheet` class, whose `Transform` method walks the root nodes in place. Each node is split and its variants are queued; once the walk ends, the queue is appended. `Transform` is proved to leave exactly `Transformed(cfg, old(nodes))`.
- `DuplicatorFacts` views the stylesheet as its flat list of rules, each with its at-rule ancestry, and proves:
  - that the result is the originals split in place, followed by one variant per image rule in document order under the same ancestry;
  - that a stylesheet without eligible urls is left unchanged;
  - that the split partitions the declarations;
  - that at-rules keep their place.
- `TestSuite` states the exact output each modelled test expects. Most tests have a lemma of their own. A lemma whose url or payload is a parameter covers a group of tests that differ only there:
  - `RemoteReplaced` and `RemoteKept` each cover the three remote urls of `test/main_spec.js:173-192` and `:194-213`;
  - `InlineSvgOrWebpKept` covers the three data urls of `:318-340`.

  `SizeBelowMinimum` also states the test at `:388-401`, which runs the same options as `:357-371` despite its name.
- `Scenarios` holds the shared proof steps of those lemmas.

All variants go after all original nodes (`test/main_spec.js:83-94` and
`:274-288`).

## Model

| member | source | states |
|---|---|---|
| TestSuite.NotModifySample | test/main_spec.js:16-21 | a rule without url() comes out as it went in |
| TestSuite.HtmlTag | test/main_spec.js:23-28 | `html.test` keeps its rule and gains `html.webp.test` with the unquoted webp url |
| TestSuite.BorderImage | test/main_spec.js:30-35 | `border-image` urls get a variant the same way `background` urls do |
| TestSuite.HtmlClassName | test/main_spec.js:37-42 | the class `.html.test` is scoped as `.webp .html.test`, not as an html element |
| TestSuite.MultipleSelectors | test/main_spec.js:44-49 | each comma-separated part of the selector is scoped on its own |
| TestSuite.DefaultJpg | test/main_spec.js:51-56 | with default options `test.jpg` becomes `test.webp` in the variant |
| TestSuite.DefaultJpeg | test/main_spec.js:58-63 | with default options `test.jpeg` becomes `test.webp` |
| TestSuite.UrlWithParams | test/main_spec.js:65-70 | the text around the url() token is carried into the variant unchanged |
| TestSuite.MultipleUrls | test/main_spec.js:72-81 | all three url() tokens of a layered background are rewritten, along with the text between them |
| TestSuite.MixedClasses | test/main_spec.js:83-94 | two image rules are followed by their two variants, after both originals |
| TestSuite.DefaultGifKept | test/main_spec.js:96-102 | a gif url under the default pattern gets no variant |
| TestSuite.DefaultGifAndJpg | test/main_spec.js:104-109 | in a value holding a gif and a jpg, only the jpg token is rewritten |
| TestSuite.CustomWebpClass | test/main_spec.js:118-123 | the variant is scoped under the configured `webpClass` |
| TestSuite.NoWebpBackgroundImage | test/main_spec.js:125-132 | with a no-webp class, an image-only rule becomes the no-webp clone, followed later by its variant |
| TestSuite.NoWebpBackground | test/main_spec.js:134-142 | the same holds for a `background` shorthand |
| TestSuite.NoWebpOtherDecl | test/main_spec.js:144-153 | the non-image declaration stays in the original rule, after the clone |
| TestSuite.NoWebpInMedia | test/main_spec.js:155-164 | the split happens inside `@media`, and the variant gets a copy of the `@media` |
| TestSuite.ReplaceFromGif | test/main_spec.js:166-171 | `replace_from` `/\.gif/` makes gif urls eligible |
| TestSuite.RemoteReplaced | test/main_spec.js:173-192 | `//`, `http://` and `https://` urls are rewritten when remote replacement is on |
| TestSuite.RemoteKept | test/main_spec.js:194-213 | those remote urls give no variant when remote replacement is off |
| TestSuite.BackgroundSizeNotCopied | test/main_spec.js:215-220 | by default the variant does not carry `background-size` |
| TestSuite.BackgroundSizeCopied | test/main_spec.js:222-227 | with `copyBackgroundSize`, the variant carries `background-size` after the image declaration |
| TestSuite.ReplaceToText | test/main_spec.js:229-234 | a `replace_to` string replaces the matched extension |
| TestSuite.ReplaceToFunction | test/main_spec.js:236-246 | a `replace_to` callback gets the unquoted url and its result becomes the whole new url |
| TestSuite.ReplaceToGroup | test/main_spec.js:248-253 | `.$1.webp` keeps the matched extension (`icon.png.webp`), and `color` stays out of the variant |
| TestSuite.MediaQuery | test/main_spec.js:255-261 | a variant inside `@media` comes out in a new copy of that `@media`, after the original |
| TestSuite.NestedMediaQueries | test/main_spec.js:263-272 | a variant two `@media` levels deep comes out under copies of both levels |
| TestSuite.NestedMediaWithOtherRule | test/main_spec.js:274-288 | the copies hold only the variant: the other rule and the non-image declaration are left out |
| TestSuite.InlineSvgOrWebpKept | test/main_spec.js:318-340 | inline svg and webp `data:` urls get no variant |
| TestSuite.SizeAboveMinimum | test/main_spec.js:342-356 | a local image at least `minAddClassFileSize` bytes gets a variant |
| TestSuite.SizeBelowMinimum | test/main_spec.js:357-371 | a local image below the threshold, or one not found, gives no variant |
| TestSuite.TildeSizeAboveMinimum | test/main_spec.js:403-438 | a `~/` url whose located file is large enough gets a variant |
| TestSuite.TildeSizeBelowMinimum | test/main_spec.js:439-473 | a `~/` url whose located file is too small gives no variant |
| Duplicator.Stylesheet.Transform | test/main_spec.js:83-94 | the in-place walk leaves exactly `Transformed` of the old nodes: the originals split in place, then all variants |
| Duplicator.Stylesheet.Visit | test/main_spec.js:155-164 | one walk step splits the next unvisited root node and queues its variants, keeping the walk invariant |
| Duplicator.Stylesheet.SplitAt | test/main_spec.js:144-164 | node i is replaced by its split and the rest is unchanged; it returns how many nodes now stand there |
| Duplicator.Stylesheet.SplitImageRuleAt | test/main_spec.js:125-153 | an image rule at i is replaced by its no-webp clone and, if any declarations remain, the rule holding them |
| Duplicator.Stylesheet.InsertAndRemove | test/main_spec.js:125-142 | inserting the clone before node i and then removing the rule leaves the clone in the rule's place, with the others unchanged |
| Duplicator.Stylesheet.InsertAndReplace | test/main_spec.js:144-153 | inserting the clone before node i and then replacing the rule leaves the clone and the new rule in its place, with the others unchanged |
| Duplicator.Stylesheet.InsertBefore | test/main_spec.js:125-132 | a node is inserted at i and the others keep their order |
| Duplicator.Stylesheet.ReplaceAt | test/main_spec.js:144-153 | node i is replaced and the others are unchanged |
| Duplicator.Stylesheet.RemoveAt | test/main_spec.js:125-132 | node i is removed and the others keep their order |
| Duplicator.Stylesheet.Append | test/main_spec.js:83-94 | the given nodes are added after all existing ones |
| Duplicator.Stylesheet.constructor | test/main_spec.js:16-21 | the stylesheet holds the parsed nodes |
| Duplicator.UnaffectedRuleKept | test/main_spec.js:96-109 | a rule classified as having no eligible url (none at all, or only ineligible ones) stays as written and gives no variant |
| Duplicator.ImageDecls | test/main_spec.js:125-153 | the rule's declarations with an eligible url, in order; characterised by `DuplicatorFacts.ImageDeclsMembers` and `PartitionDecls` |
| Duplicator.OtherDecls | test/main_spec.js:144-153 | the rule's remaining declarations, in order; characterised by `DuplicatorFacts.OtherDeclsMembers` and `PartitionDecls` |
| Duplicator.VariantDecls | test/main_spec.js:215-253 | the rewritten image declarations plus a copied `background-size`; characterised by `DuplicatorFacts.VariantDeclsMembers` and `VariantWithoutSizeCopy` |
| Duplicator.WebpVariant | test/main_spec.js:23-49 | the variant rule: the selector scoped under `webpClass` with the variant declarations |
| Duplicator.SplitRule | test/main_spec.js:125-153 | with a no-webp class, an image rule becomes its no-webp clone then the rule with its other declarations, if any; otherwise the rule itself |
| Duplicator.SplitForest | test/main_spec.js:155-164 | the originals split at every depth; characterised by `DuplicatorFacts.FlatSplitForest` and `SplitForestShape` |
| Duplicator.VariantForest | test/main_spec.js:255-288 | the variants inside fresh copies of their at-rules; characterised by `DuplicatorFacts.FlatVariantForest` |
| Duplicator.Transformed | test/main_spec.js:83-94 | the originals split, then all variants; characterised by `DuplicatorFacts.TransformedRules` and reached by `Duplicator.Stylesheet.Transform` |
| Duplicator.SplitForestConcat | test/main_spec.js:83-94 | the split of two consecutive runs of nodes is the two splits, one after the other |
| Duplicator.VariantForestConcat | test/main_spec.js:83-94 | the variants of two consecutive runs come in the same order as the runs |
| DuplicatorFacts.PartitionDecls | test/main_spec.js:144-153 | the clone and the remaining rule together hold each declaration of the rule exactly once |
| DuplicatorFacts.ImageDeclsMembers | test/main_spec.js:125-153 | the clone holds exactly the rule's declarations that have an eligible url |
| DuplicatorFacts.OtherDeclsMembers | test/main_spec.js:144-153 | the remaining rule holds exactly the declarations without one |
| DuplicatorFacts.ImageDeclsEmpty | test/main_spec.js:125-142 | the clone is empty exactly when the rule is not an image rule |
| DuplicatorFacts.VariantWithoutSizeCopy | test/main_spec.js:215-220 | without `copyBackgroundSize`, a variant holds exactly the image declarations, rewritten and in order |
| DuplicatorFacts.VariantDeclsMembers | test/main_spec.js:215-227 | a variant declaration is either a rewritten image declaration of the rule or, when copied, its own `background-size` |
| DuplicatorFacts.UntouchedForest | test/main_spec.js:16-21 | nodes without image rules at any depth are kept as they are and give no variant |
| DuplicatorFacts.NoImageLeavesStylesheet | test/main_spec.js:96-102 | a stylesheet without image rules is returned unchanged |
| DuplicatorFacts.VariantsExactlyForImageRules | test/main_spec.js:96-109 | there are variants exactly when some rule, at any depth, is an image rule |
| DuplicatorFacts.VariantsOfPlacedUnder | test/main_spec.js:263-272 | placing rules one at-rule deeper places their variants one at-rule deeper |
| DuplicatorFacts.FlatVariantForest | test/main_spec.js:255-288 | read rule by rule, the variants are one per image rule, in document order, each under its original's at-rule ancestry |
| DuplicatorFacts.SplitsOfPlacedUnder | test/main_spec.js:155-164 | splitting rules one at-rule deeper gives the same split one at-rule deeper |
| DuplicatorFacts.FlatSplitForest | test/main_spec.js:155-164 | read rule by rule, the originals are each rule's split in the same place and ancestry |
| DuplicatorFacts.TransformedRules | test/main_spec.js:83-164 | rule by rule, the output is the split originals followed by the variants of the input's image rules |
| DuplicatorFacts.NoSplitForest | test/main_spec.js:51-56 | without a no-webp class the original nodes are not touched |
| DuplicatorFacts.OriginalsThenVariants | test/main_spec.js:83-94 | without a no-webp class the output is the input followed by the variants |
| DuplicatorFacts.SplitForestShape | test/main_spec.js:155-164 | the split keeps every at-rule, with its name and params, where it was |
| UrlValue.ScanRender | test/main_spec.js:65-81 | cutting a value into text and url() tokens and rendering them back gives the value |
| UrlValue.ScanComplete | test/main_spec.js:65-81 | the cut passes over no token: no text piece holds a `url(` with a `)` after it |
| UrlValue.Scan | test/main_spec.js:65-81 | every text piece of the cut is non-empty and no token holds `)`; that no token is missed is `UrlValue.ScanComplete` |
| UrlValue.Lead | test/main_spec.js:65-70 | the text before a token renders back to itself |
| UrlValue.RenderConcat | test/main_spec.js:72-81 | rendering two runs of pieces is the two renderings joined |
| UrlValue.UnquoteRequote | test/main_spec.js:23-28 | a token in matching single or double quotes is the url with those quotes put back around it; any other token is the url itself |
| UrlValue.Unquote | test/main_spec.js:23-28 | the url is never longer than the token; that exactly the quotes go is `UrlValue.UnquoteRequote` |
| UrlValue.MatchAt | test/main_spec.js:166-171 | a match at the front is a dot followed by one of the pattern's extensions; no match means no listed extension follows a leading dot |
| UrlValue.FirstExtension | test/main_spec.js:51-63 | the extension found is the first one, in list order, that starts the text; when none is found, no extension of the list does |
| UrlValue.Kind | test/main_spec.js:173-213 | a url is a webp or svg `data:` url, another `data:` url, a remote url or a local one; see `UrlValueFacts.LocalKind` and `RemoteKind` |
| UrlValue.Expand | test/main_spec.js:248-253 | `$1` in a `replace_to` string stands for the matched extension; see `UrlValueFacts.ExpandWithoutDollar` |
| UrlValue.ReplaceAll | test/main_spec.js:229-253 | every match of `replace_from`, left to right, is replaced; characterised by `UrlValueFacts.SwapExtension` and `NoMatchNoChange` |
| UrlValue.NewUrl | test/main_spec.js:229-246 | the new url is the template replacement, or the callback's result for the whole url; see `UrlValueFacts.DefaultSwapsToWebp` |
| UrlValue.SizeGate | test/main_spec.js:342-371 | with a threshold, a local image must be found and at least that large; see `UrlValueFacts.SizeGateMonotone` |
| UrlValue.Eligible | test/main_spec.js:166-213 | data urls never, remote urls when `replaceRemoteImage` is on and the pattern matches, local urls when the pattern matches and the size gate passes; see `UrlValueFacts.WebpAndSvgDataNeverEligible` and `RemoteNotEligibleWhenDisabled` |
| UrlValue.RewriteValue | test/main_spec.js:65-81 | the value with each eligible token rewritten; characterised by `UrlValueFacts.RewritePiecesPointwise` and `RewriteWithoutEligibleIsIdentity` |
| UrlValueFacts.RewritePiecesPointwise | test/main_spec.js:104-109 | each ineligible piece is kept, and each eligible token becomes its new url without quotes |
| UrlValueFacts.RewriteWithoutEligibleIsIdentity | test/main_spec.js:16-21 | a value without an eligible url is not changed |
| UrlValueFacts.WebpAndSvgDataNeverEligible | test/main_spec.js:318-340 | `data:image/webp` and `data:image/svg` urls are never rewritten |
| UrlValueFacts.RemoteNotEligibleWhenDisabled | test/main_spec.js:194-213 | with remote replacement off, no `//`, `http://` or `https://` url is rewritten |
| UrlValueFacts.SizeGateMonotone | test/main_spec.js:342-371 | lowering `minAddClassFileSize` keeps every eligible url eligible |
| UrlValueFacts.ReplaceKeepsUnmatchedPrefix | test/main_spec.js:248-253 | text before the first match is copied as it is by the replacement |
| UrlValueFacts.NoMatchNoChange | test/main_spec.js:96-102 | a url the pattern does not match is not changed by the replacement |
| UrlValueFacts.SwapExtension | test/main_spec.js:229-253 | a trailing matched extension is replaced by the expanded template, and the name before it is kept |
| UrlValueFacts.HasMatchSkipsDotFreeText | test/main_spec.js:173-192 | text without a dot in front of a url does not change whether it matches |
| UrlValueFacts.DefaultMatchesRasterExtensions | test/main_spec.js:51-63 | the default pattern matches `.png`, `.jpg` and `.jpeg` |
| UrlValueFacts.DefaultSwapsToWebp | test/main_spec.js:51-63 | under the defaults, `name.png`, `name.jpg` and `name.jpeg` become `name.webp` |
| UrlValueFacts.ExpandWithoutDollar | test/main_spec.js:229-234 | a template without `$` expands to itself |
| UrlValueFacts.ScanPlain | test/main_spec.js:16-21 | text without `(` is a single text piece |
| UrlValueFacts.ScanToken | test/main_spec.js:65-70 | text, then `url(inner)`, then more is cut into that text, the token, and the cut of the rest |
| UrlValueFacts.RewritePlain | test/main_spec.js:16-21 | a value without `(` is not rewritten and has no eligible url |
| UrlValueFacts.RewriteToken | test/main_spec.js:65-81 | rewriting `text url(inner) rest` keeps the text, rewrites the token and rewrites the rest |
| UrlValueFacts.EligibleToken | test/main_spec.js:104-109 | such a value has an eligible url exactly when the token is eligible or the rest has one |
| UrlValueFacts.RewritePiecesConcat | test/main_spec.js:72-81 | rewriting two runs of pieces is the two rewrites joined |
| UrlValueFacts.LocalKind | test/main_spec.js:342-356 | a url that starts with none of `d`, `/` or `h` is local |
| UrlValueFacts.RemoteKind | test/main_spec.js:173-192 | `//`, `http://` and `https://` urls are remote |
| UrlValueFacts.HasMatchInSuffix | test/main_spec.js:248-253 | a match anywhere in the url is a match of the url |
| Selector.ScopeComponent | test/main_spec.js:23-42 | one selector: kept when it already starts with the class, the class glued after a leading `html`, otherwise the class as an ancestor |
| Selector.Components | test/main_spec.js:44-49 | the selector list split at commas, each part trimmed; characterised by `Selector.ComponentsShape` |
| Selector.ScopeSelector | test/main_spec.js:44-49 | the scoped parts joined with `, `; characterised by `Selector.ScopeSelectorComponents` |
| Options.Defaults | test/main_spec.js:16-116 | `.webp`, no no-webp class, the pattern `.png`/`.jpg`/`.jpeg` with a group, `.webp` as replacement, remote urls on, no `background-size` copy, no size threshold |
| Selector.ScopedComponentShape | test/main_spec.js:23-49 | scoping a trimmed, comma-free, non-empty part keeps it trimmed, comma-free and non-empty |
| Selector.ComponentsShape | test/main_spec.js:44-49 | every part of a selector is trimmed and holds no comma |
| Selector.ReadBack | test/main_spec.js:44-49 | joining trimmed comma-free parts with `, ` and splitting again gives the parts back |
| Selector.ScopeSelectorComponents | test/main_spec.js:44-49 | the parts of a scoped selector are exactly the scoped parts of the selector |
| Selector.ScopeFixesScoped | test/main_spec.js:37-42 | scoping a part that is not led by `html` twice is the same as scoping it once |
| Selector.ScopeSelectorIdempotent | test/main_spec.js:118-123 | a selector with no `html`-led part is not scoped a second time |
| Strings.JoinSplit | test/main_spec.js:44-49 | splitting on a character and joining with it gives the text back |
| Strings.SplitJoin | test/main_spec.js:44-49 | joining parts free of the character and splitting gives the parts back |
| Strings.SplitOn | test/main_spec.js:44-49 | there is at least one part, and no part holds the separator |
| Strings.TrimCutsOuterSpace | test/main_spec.js:44-49 | trimming gives an infix of the text with only white space before and after it |
| Strings.Trim | test/main_spec.js:44-49 | the result starts and ends without white space; that nothing else is cut is `Strings.TrimCutsOuterSpace` |
| Strings.TrimStart | test/main_spec.js:44-49 | only leading white space is dropped |
| Strings.TrimEnd | test/main_spec.js:44-49 | only trailing white space is dropped |
| Strings.TrimOfTrimmed | test/main_spec.js:44-49 | trimming trimmed text changes nothing |
| Strings.TrimSkipsLeadingSpace | test/main_spec.js:44-49 | trimming a space followed by trimmed text gives that text |
| Strings.IndexOf | test/main_spec.js:65-81 | the index found is the first occurrence of the pattern; none is found only when there is no occurrence |
| Strings.IndexOfFirst | test/main_spec.js:65-81 | the first occurrence is what the search returns |

## Left out

- Parsing and serialisation of CSS (postcss), including `raws` and white space between nodes. The model works on the parsed tree, and expected outputs are stated as trees. Invalid CSS (`test/main_spec.js:631-639`) is a parser error and is not part of this model.
- Inline mode and base64 re-encoding (`test/main_spec.js:290-316`, `372-386`, `475-629`): reading the image, re-encoding it as webp and embedding a data url. This needs image codecs and file I/O. As a result, `data:image/png` and `data:image/jpeg` urls are never eligible here: the plugin rewrites them only through that encoder.
- UrlValue.Eligible: the file-system lookup behind `minAddClassFileSize` is modelled as the map `imageSize`. Resolving a url against the css file, `css_root`, `image_root` or a `localImgFileLocator` is folded into that map.
- Promises, asynchrony and the `sinon` spies of the tests. The tests at `58-63` and `263-288` do not return their promise; the model states the output they compare against anyway.
- TestSuite.InlineSvgOrWebpKept: the fixture payloads (`test/fixtures/base64`) are not part of this model. They are parameters, and they must not contain `)`.
- The test at `test/main_spec.js:111-116` reads `base64stub.png`, whose payload is not part of this model, so it has no lemma.
- Options.Pattern: `replace_from` is limited to a dot followed by a list of literal extensions, matched globally and case-sensitively, with or without one capturing group. General regular expressions are not modelled.
- UrlValue.NewUrl: the callback form of `replace_to` receives an object with the url in the plugin; the model passes the url alone. `TestSuite.ReplaceToFunction` states the test at `236-246` on that basis.
- Selector.Components: a selector is split at every comma. Commas inside parentheses or quoted strings (`:not(a, b)`, attribute values) are not treated specially.
- UrlValue.Scan: a url() token ends at the first `)`. Urls that contain `)`, and url tokens that span escapes, are not modelled.
- Selector.ScopeSelectorIdempotent: stated only for selectors with no `html`-led part, because scoping such a part twice inserts the class a second time.
- The implementation of `transform` is not part of this model, so behaviour its tests do not exercise is not modelled. This covers `UrlValue.Expand`, which expands only `$1` and not `$$`, `$&` or `$2`. It also covers `UrlValue.Scan`, which does not treat white space inside `url( x.png )` or an upper-case `URL(` specially. A `replace_to` callback that throws is not modelled either.
