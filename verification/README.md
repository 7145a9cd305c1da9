# silverstripe-twig core, modelled in Dafny

This project models the glue between the Silverstripe CMS view layer and
the Twig template compiler. It covers three pieces of sequential logic:

- **The `{% require method(arg, ...) %}` tag parser** (`RequireTokenParser`).
  It reads the method NAME and `(`. It then reads a run of string or number
  literals separated by commas, and finally `)` and the block end. It yields
  a node with the method name and one `{value, isString}` record per literal.
- **The `{% base_tag %}` / `{% base_tag xhtml %}` tag parser** (`BaseTagParser`).
  It reads an optional NAME giving the document type, which defaults to
  `html`, and then the block end. It emits a text node with the framework's
  base tag, in xhtml form exactly when the type lowercases to `xhtml`.
- **Template resolution of `TwigTemplateEngine`**, made of four parts:
  - `getTemplateFromCandidates` takes a template name, a (possibly nested)
    list of candidates, or a keyed request with `type` and `templates`. It
    searches them depth-first for the first `<head>/<type>/<tail>.twig` the
    template loader reports as existing. It is modelled as written
    (`ResolveAsWritten`), including its shortcut for names ending in
    `.twig`, which can never fire. The same resolution with that shortcut
    as evidently intended is `Resolve`; see "## Findings".
  - `hasTemplate` and `setTemplate` are built on the resolution as written.
  - `getTemplateDirs` filters the themes' `templates` directories.

Modules:

- `Wrappers`: `Option` and `Result`.
- `Tokens`: Twig's token kinds and the four stream primitives.
  - `Next` consumes the current token.
  - `NextIf` consumes it only on a match.
  - `Expect` consumes it on a match and is a syntax error otherwise.
  - `Look` peeks.
  - A stream is the tokens before Twig's closing EOF token. Consuming at the
    end is the "unexpected end of template" error.
- `RequireTag`: the `require` parser.
  - A grammar of argument runs (`ArgRun`) is the independent description the
    parser is proved sound and complete against.
- `BaseTag`: the `base_tag` parser.
- `PhpStrings`: the PHP built-ins the resolver relies on:
  - `strtolower`, `substr` with a negative start, `str_replace`;
  - `explode`/`implode`;
  - the truthiness of a nullable string.
- `Paths`: the framework's `Path::join`, under a stated assumption. The
  segments PHP treats as true are joined with `/`, and a join of nothing is
  `/`.
- `TemplateResolver`: PHP arrays as ordered `seq<Entry>` with `IntKey` or
  `StrKey` keys, and the resolution functions.
  - The filesystem is a parameter: the loader's `exists`, `file_exists` and
    `is_dir` are uninterpreted predicates.
  - `SSViewer::get_base_tag` is the parameter `baseTag` of `BaseTag.Parse`.
  - The theme paths from `ThemeResourceLoader` and `BASE_PATH` are
    parameters of `TemplateDirs`.
- `ResolverProperties`: an independent reference for resolution, and the
  lemmas relating the two.
  - `AsWrittenIgnoresFiles` shows that resolution as written is the
    intended resolution on a filesystem where file_exists confirms nothing.
    So every lemma about `Resolve` that holds for all filesystems also
    describes the code as written.
  - The reference flattens a request into its depth-first list of
    `(name, type)` probes and searches that list linearly.

`getTag` of each parser is the constant `Tag` of its module. It is carried
into the node by `RequireTag.Parse`.

Where the model departs from the code as written:

- A `type` that is an array is modelled as the error `TypeNotString`. It is
  raised when a string candidate is probed with it, since `Path::join` cannot
  take an array segment.
- A `templates` value that is a string iterates nothing, as PHP's `foreach`
  over a non-array does.
- `setTemplate` with no template found is the error `TemplateNotFound`. The
  engine's `template` property is typed `string`, so null cannot be stored
  in it.

## Model

| member | source | states |
|---|---|---|
| RequireTag.ScanArgs | src/RequireTokenParser.php:40-60 | a scan that succeeds ends strictly after its start and within the stream, having read at least two tokens per recorded argument beyond the first; it fails only by running out of tokens |
| RequireTag.ScanStopsAtNonLiteral | src/RequireTokenParser.php:44-46 | the first token is consumed even when it is not a string or number literal, and the scan then ends with no arguments |
| RequireTag.ScanStopsWithoutComma | src/RequireTokenParser.php:46-54 | a literal not followed by a comma is the last argument, its kind decides `isString`, and the token after it is left unconsumed |
| RequireTag.ScanContinuesAfterComma | src/RequireTokenParser.php:46-57 | a literal followed by a comma is recorded first, and the scan continues two tokens later with the remaining arguments after it |
| RequireTag.ScanArgsAcceptsRun | src/RequireTokenParser.php:43-57 | every run of the argument grammar laid out in the stream is scanned to exactly its arguments, one per literal, in order, ending right after the run |
| RequireTag.ScanArgsYieldsRun | src/RequireTokenParser.php:43-57 | conversely, whatever the scan accepts is a grammar run laid out in the stream, and the arguments are that run's literals |
| RequireTag.Parse | src/RequireTokenParser.php:19-30 | a successful parse consumes at least five tokens and its node carries the opening line, the first token's value as the method, and the tag `require` |
| RequireTag.ParseSteps | src/RequireTokenParser.php:23-29 | NAME, `(`, a successful scan, `)` and BLOCK_END in sequence give the node with the scanned arguments, ending after the block end |
| RequireTag.ParseStepsFail | src/RequireTokenParser.php:23-26 | when the token after the scan is not `)` the parse fails |
| RequireTag.ParseAcceptsLayout | src/RequireTokenParser.php:19-30 | a stream laid out as NAME `(` run `)` BLOCK_END parses to the run's arguments and ends after the block end |
| RequireTag.ParseYieldsLayout | src/RequireTokenParser.php:19-30 | conversely, every successful parse consumed exactly such a layout, and its arguments are that run's literals |
| RequireTag.ClosingParenSwallowed | src/RequireTokenParser.php:44-57 | when the run's last token is the `)` itself, the parse fails unless a second `)` follows |
| RequireTag.EmptyArgumentsRejected | src/RequireTokenParser.php:24-26 | `m()` is rejected, because the scan consumes the `)` |
| RequireTag.TrailingCommaRejected | src/RequireTokenParser.php:51-57 | `m('a',)` is rejected, because the token read after the comma is the `)` |
| RequireTag.NonLiteralArgumentDropped | src/RequireTokenParser.php:44-46 | `m(foo)` parses with no arguments: the non-literal is read and dropped |
| BaseTag.Parse | src/BaseTagParser.php:21-34 | success exactly when the stream holds BLOCK_END, or NAME then BLOCK_END; the NAME case consumes two tokens and passes the xhtml test of the name, otherwise one token is consumed and the flag is false; the node carries the opening line |
| BaseTag.ReadType | src/BaseTagParser.php:25-29 | the optional type never fails: a NAME token is consumed and its value is the type; any other token, or the end of the stream, leaves the cursor in place with the default `html` |
| BaseTag.XhtmlIgnoresCase | src/BaseTagParser.php:32 | the xhtml test holds exactly for the five letters of `xhtml` in any mix of upper and lower case |
| BaseTag.XhtmlExamples | src/BaseTagParser.php:25-32 | `XHTML`, `XHtml` and `xhtml` select xhtml, while the default `html`, `html5` and `xhtml1` do not |
| PhpStrings.ToLower | src/BaseTagParser.php:32 | strtolower keeps the length and lowers each ASCII capital, leaving other characters alone |
| PhpStrings.LastChars | src/TwigTemplateEngine.php:164 | substr with a negative start gives the suffix of the string of exactly the count's length, or the whole string when it is shorter |
| PhpStrings.ReplaceChar | src/TwigTemplateEngine.php:169 | str_replace of one character replaces exactly the occurrences, keeps the length, and leaves none behind |
| PhpStrings.Explode | src/TwigTemplateEngine.php:170 | explode yields at least one piece and no piece contains the separator |
| PhpStrings.ImplodeExplode | src/TwigTemplateEngine.php:170-173 | imploding the pieces of explode restores the original string |
| PhpStrings.EndsWithLongSuffixIsTruthy | src/TwigTemplateEngine.php:155 | a path ending in `.twig` is never PHP-falsy, so the truthiness tests treat every found path as found |
| Paths.Kept | src/TwigTemplateEngine.php:174 | the segments kept are exactly those of the input that PHP treats as true, never more than the input has |
| Paths.KeptAppend | src/TwigTemplateEngine.php:174 | filtering acts on each part of the segment list separately, so the kept segments stay in their order |
| Paths.Join | src/TwigTemplateEngine.php:174 | the joined path is never empty |
| TemplateResolver.Lookup | src/TwigTemplateEngine.php:140-141 | a key is present exactly when some entry has it, and the value found is stored under that key |
| TemplateResolver.Without | src/TwigTemplateEngine.php:142 | unset keeps exactly the entries with a different key |
| TemplateResolver.Candidates | src/TwigTemplateEngine.php:139-145 | with `type` removed, an array `templates` value is exactly the list iterated, a string one iterates nothing, and without `templates` the list is the request with `type` unset, in order |
| TemplateResolver.LoaderProbe | src/TwigTemplateEngine.php:169-177 | an array type is the error `TypeNotString` and nothing else fails; the path returned is exactly the joined candidate path, `head/type/tail.twig` after `Path::join`, returned only when the loader confirms it, and it ends in `.twig`; null means the loader denied the joined candidate path |
| TemplateResolver.ResolveNameAsWritten | src/TwigTemplateEngine.php:164-177 | one string candidate as written (the as-written member of the finding below): for every name, type and filesystem the result is exactly the loader probe, so an existing `.twig` file is never returned directly |
| TemplateResolver.ResolveAsWritten | src/TwigTemplateEngine.php:135-181 | any path resolution returns ends in `.twig` |
| TemplateResolver.ResolveEachAsWritten | src/TwigTemplateEngine.php:151-180 | any path the candidate loop returns ends in `.twig` |
| TemplateResolver.ResolveName | src/TwigTemplateEngine.php:161-166 | the shortcut as its comment intends (the corrected member of the finding below): a name ending in `.twig` that exists as a file is returned as is; otherwise the loader is asked for the joined path, which is returned only if it exists; any path found ends in `.twig` |
| TemplateResolver.Resolve | src/TwigTemplateEngine.php:161-166 | resolution with the intended shortcut (the corrected member of the finding below): any path it returns ends in `.twig` |
| TemplateResolver.ResolveEach | src/TwigTemplateEngine.php:161-166 | the candidate loop with the intended shortcut: any path it returns ends in `.twig` |
| TemplateResolver.HasTemplate | src/TwigTemplateEngine.php:43-46 | true exactly when resolution as written yields a path, false when it yields null, and an error exactly when resolution raises one |
| TemplateResolver.SetTemplate | src/TwigTemplateEngine.php:37-41 | succeeds exactly when resolution as written yields a path and then stores that path (ending in `.twig`); a null resolution is an error |
| TemplateResolver.TemplateDirs | src/TwigTemplateEngine.php:117-130 | every directory returned is some theme's `<base>/<theme>/templates` and exists, every existing one is returned, and there are no more than the themes |
| ResolverProperties.DirectPathUnreachable | src/TwigTemplateEngine.php:164-166 | as written, the last three characters never equal the five of `.twig`, so the shortcut never fires and only the loader decides |
| ResolverProperties.ExistingTwigFileMissedAsWritten | src/TwigTemplateEngine.php:161-166 | for an existing file `page.twig` unknown to the loader, the code as written returns null, while the intended shortcut returns `page.twig` |
| ResolverProperties.ExistingTwigFileNotAvailable | src/TwigTemplateEngine.php:37-46 | for that same input, hasTemplate is false and setTemplate fails |
| ResolverProperties.AsWrittenIgnoresFiles | src/TwigTemplateEngine.php:135-181 | resolution as written equals the intended resolution with nothing visible to file_exists, on every request and filesystem |
| ResolverProperties.EachAsWrittenIgnoresFiles | src/TwigTemplateEngine.php:151-180 | the candidate loop as written equals the intended loop with nothing visible to file_exists |
| ResolverProperties.AsWrittenIsLoaderSearch | src/TwigTemplateEngine.php:151-180 | resolution as written equals the linear search, stopping at the first error or confirmed path, over the depth-first list of probes, each answered by the loader |
| ResolverProperties.AsWrittenFindsFirstExisting | src/TwigTemplateEngine.php:151-177 | resolution as written returns a path exactly when the loader confirms it for some probe and finds nothing for every earlier probe, depth-first |
| ResolverProperties.AsWrittenNullIffNoneExists | src/TwigTemplateEngine.php:151-180 | resolution as written returns null exactly when the loader confirms no probe and no probe raises |
| ResolverProperties.ResolveIsFirstHit | src/TwigTemplateEngine.php:151-180 | with the intended shortcut, resolution equals the linear search, stopping at the first error or path, over the depth-first list of probes |
| ResolverProperties.ResolveEachIsFirstHit | src/TwigTemplateEngine.php:151-180 | with the intended shortcut, the candidate loop equals the linear search over the probes of its candidates; nested lists are skipped when they yield nothing |
| ResolverProperties.ResolveFindsFirstExisting | src/TwigTemplateEngine.php:151-177 | with the intended shortcut, resolution returns a path exactly when some probe finds it and every earlier probe, depth-first, finds nothing |
| ResolverProperties.ResolveNullIffNoneExists | src/TwigTemplateEngine.php:151-180 | with the intended shortcut, resolution returns null exactly when every probe completes and finds nothing |
| ResolverProperties.ResolveMatchesAsWritten | src/TwigTemplateEngine.php:161-177 | unless some candidate names an existing `.twig` file, the intended resolution is the loader-only search the code performs as written |
| ResolverProperties.LoaderDecidesWithoutFiles | src/TwigTemplateEngine.php:164-176 | when file_exists confirms nothing, the first probe the loader confirms decides |
| ResolverProperties.NameIsSingletonList | src/TwigTemplateEngine.php:146-148 | a plain name resolves exactly like a one-element list holding it, as written and as intended |
| ResolverProperties.NestedListIgnoresOuterType | src/TwigTemplateEngine.php:153-158 | a nested list is resolved on its own, without the enclosing list's type, as written and as intended |
| ResolverProperties.WithoutAppend | src/TwigTemplateEngine.php:142 | unset acts on each part of an array separately, so the entries it keeps stay in their order |
| ResolverProperties.WithoutOne | src/TwigTemplateEngine.php:142 | unset drops a single entry exactly when it has the key |
| TemplateResolver.LookupWithout | src/TwigTemplateEngine.php:142-145 | unsetting `type` does not change what is found under another key such as `templates` |
| ResolverProperties.WithoutAbsentKey | src/TwigTemplateEngine.php:142 | unsetting a key no entry has leaves the array unchanged |
| ResolverProperties.TypedRequest | src/TwigTemplateEngine.php:139-145 | for any array without a `templates` key, the entries other than `type`, in order, are probed under the array's type |
| ResolverProperties.TemplatesRequest | src/TwigTemplateEngine.php:139-145 | for any array whose `templates` value is an array, that array is the list, probed under the outer array's type |
| ResolverProperties.StringTemplatesFindNothing | src/TwigTemplateEngine.php:145-151 | an array whose `templates` value is a string iterates nothing and yields null |
| ResolverProperties.SplitNameRejoins | src/TwigTemplateEngine.php:169-173 | after backslashes become `/`, the name is head, `/` and tail when it has a `/` and the tail alone otherwise; the tail has no `/` |
| ResolverProperties.CandidatePathInsertsType | src/TwigTemplateEngine.php:172-174 | with head, type and tail all PHP-truthy (neither `""` nor `"0"`), the probed path is `head/type/tail.twig` |
| ResolverProperties.UntypedPlainName | src/TwigTemplateEngine.php:169-174 | without a type, a PHP-truthy name (neither `""` nor `"0"`) with no separators is probed as `name.twig` |
| ResolverProperties.TemplateDirsPreserveOrder | src/TwigTemplateEngine.php:119-129 | the directories of two theme lists in sequence are those of the first, then those of the second |
| ResolverProperties.TemplateDirsAllPresent | src/TwigTemplateEngine.php:119-129 | when every theme has a templates directory, all are returned in theme order |

## Left out

- `getEngine` is not modelled: Twig `Environment` construction, cache and auto-reload options, and the registration of functions, globals and token parsers. It is library configuration, and it uses `call_user_func` with `ArgumentCountError` as control flow.
- `render` and `renderString` are not modelled. They delegate to Twig, and `renderString` returns an empty string.
- `getLoader` and its static cache are not modelled. The loader is the `loaderExists` predicate of `Filesystem`.
- `SSViewer::get_base_tag`, `SSViewer::get_themes`, `ThemeResourceLoader::getThemePaths` and `i18n::_t` are calls into the framework. They appear only as parameters.
- `RequireNode` compilation and the Requirements API are not modelled. The model stops at the node the parser builds.
- Twig's lexer and `TokenStream` internals are not modelled. Only the four primitives are, with the semantics stated in `Tokens`.
- Tokens carry no line numbers. Only the opening tag's line reaches a node, and it is a parameter.
- Number tokens keep their value as written. Twig's conversion of numeric literals to PHP numbers is not modelled.
- `Path::join` is modelled as the assumption described above. Its trimming of slashes, its normalisation and its directory-traversal guard are not part of this model.
- An empty-array `type` is modelled as `TypeNotString`. PHP's `array_filter` in `Path::join` would drop it instead.
- Candidate values other than strings and arrays (integers, booleans, null) are not modelled.
- TemplateResolver.ResolveAsWritten: its own contract states only that a found path ends in `.twig`. Its order, null and error behaviour are stated by `ResolverProperties.AsWrittenIsLoaderSearch`, `AsWrittenFindsFirstExisting` and `AsWrittenNullIffNoneExists`.
- TemplateResolver.ResolveEachAsWritten: its own contract states only that a found path ends in `.twig`. Its order follows from `ResolverProperties.EachAsWrittenIgnoresFiles` and `ResolveEachIsFirstHit`.
- TemplateResolver.Resolve: its own contract states only that a found path ends in `.twig`. Its order, null and error behaviour are stated by `ResolverProperties.ResolveIsFirstHit` and the lemmas built on it.
- TemplateResolver.ResolveEach: its own contract states only that a found path ends in `.twig`. Its order is stated by `ResolverProperties.ResolveEachIsFirstHit`.
- RequireTag.ScanArgs: its own contract bounds the cursor and the argument count only. The exact arguments and end are stated by `ScanArgsAcceptsRun` and `ScanArgsYieldsRun`.
- Paths.Join: its contract states only that the result is never empty. The joining itself is the stated assumption, and its effect on probed paths is stated by `ResolverProperties.CandidatePathInsertsType` and `ResolverProperties.UntypedPlainName`.
- RequireTag.Parse: its own contract states only the node's fixed fields and the minimum length. The exact accepted language is stated by `ParseAcceptsLayout` and `ParseYieldsLayout`.

## Findings

| source | as written | input that shows it | evidently intended | confidence | as-written member | corrected member |
|---|---|---|---|---|---|---|
| src/TwigTemplateEngine.php:164 | the direct-path shortcut compares the last 3 characters of the name with the 5-character `.twig`, so it can never fire | the name `page.twig` where that file exists and the loader has no `page.twig.twig`: resolution returns null | compare the last 5 characters, so an existing `.twig` path is returned as it is (the method is marked as copied from the framework's `ThemeResourceLoader::findTemplate`, whose templates end in the 3-character `.ss`) | high; not executed | TemplateResolver.ResolveNameAsWritten, with ResolverProperties.DirectPathUnreachable and ResolverProperties.ExistingTwigFileMissedAsWritten | TemplateResolver.ResolveName, whose contract states the intended shortcut, and TemplateResolver.Resolve built on it; ResolverProperties.ResolveMatchesAsWritten shows it agrees with the code as written on every input without an existing `.twig` name |
