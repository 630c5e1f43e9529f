# qr-pesos: language selection, image naming and configuration

A Dafny model of the self-contained logic of the qr-pesos web service, a
small Go server that turns form text into a QR-code PNG, stores it under
`static/img` and links to it from a page rendered in the visitor's
language. What is modelled:

- **Language selection.** Two revisions of `getLanguage` exist. main.go checks the
  lower-cased two-character prefix of the first Accept-Language tag against
  the hard-coded list `en`, `es`, `fr`, `de`. lang.go checks it against the
  names of the files in `static/lang` with `.json` removed (`getSupportedLanguages`,
  `isLanguageSupported`, `validateLanguage`). Both fall back to `en`. The header
  parser is a library (section 12.5.4 of RFC 9110, tags per BCP 47); its result
  is an input: an error or a list of tag strings.
- **Image naming.** `generateQRCode` names the image `<UnixNano>.png`, creates it
  at `static/img/<name>` and returns `/static/img/<name>`; any failing step ends
  the process through `log.Fatal`.
- **Configuration.** `LoadConfig` defaults `PORT` and `STATIC_FILES_DIR` and
  splits `LANGUAGES` on `,`.

Modules: `GoStrings` (the `strings` functions used), `GoFormat` (`%d` and a
parser for it), `AcceptLanguage` (the parser boundary and the outcome of
`getLanguage`), `QrServer` (main.go), `Languages` (lang.go), `Configuration`
(config.go), `Options`.

The code's `getLanguage` slices `[0:2]` without checking the length, so the
model keeps that branch as the outcome `SliceOutOfRange` (a Go run-time
panic). Parsed BCP 47 tags are at least two characters long, so the branch
is not reached in practice.

## Model

| member | source | states |
|---|---|---|
| GoStrings.ToLower | main.go:161 | lower-casing keeps the length and maps each character to its ASCII lower case |
| GoStrings.ToLowerIdempotent | lang.go:48 | lower-casing twice equals lower-casing once, and the result has no upper-case letter |
| GoStrings.TrimSuffix | lang.go:80 | with the suffix present the result plus the suffix is the input; without it the input is unchanged |
| GoStrings.TrimSuffixOfAppended | lang.go:80 | `TrimSuffix(x + suffix, suffix) == x` for every `x` |
| GoStrings.TrimSuffixRemovesOne | lang.go:80 | only one suffix is removed: `"a.json.json"` becomes `"a.json"` |
| GoStrings.Split | config.go:27 | splitting always gives at least one piece |
| GoStrings.JoinSplit | config.go:27 | joining the pieces with the separator gives back the original string |
| GoStrings.SplitLength | config.go:27 | there is one piece more than there are separators |
| GoStrings.SplitPiecesFree | config.go:27 | no piece contains the separator |
| GoStrings.SplitJoin | config.go:27 | splitting the join of at least one separator-free piece gives back those pieces |
| GoFormat.Decimal | main.go:110 | a natural number renders as one or more digits with no leading zero |
| GoFormat.FormatInt | main.go:110 | `%d` rendering: a leading '-' exactly for negative values, otherwise only digits |
| GoFormat.ParseFormatInt | main.go:110 | parsing a rendering returns the rendered value |
| GoFormat.FormatIntInjective | main.go:110 | two values have the same rendering exactly when they are equal |
| AcceptLanguage.PrimaryPrefix | main.go:160-161 | the candidate is two characters: the first two of the tag, lower-cased |
| QrServer.GetLanguage | main.go:145-169 | a chosen language is always one of en/es/fr/de; no header, a parse error or no tags give "en"; the slice panics exactly on a first tag shorter than two; any other choice is the first tag's prefix, and a whitelisted prefix is always chosen |
| QrServer.GetLanguageTruncatesTags | main.go:159-168 | the undetermined tag "und" falls back to "en"; a three-letter tag such as "frr" is cut to "fr"; a region subtag is ignored |
| QrServer.JoinPath | main.go:111 | joining a clean relative directory and one clean element gives the directory, '/', then the element |
| QrServer.ImageDirIsClean | main.go:111 | "static/img" is a clean relative directory: every '/'-separated element is non-empty and not "." or ".." |
| QrServer.FilePath | main.go:111 | the image is created directly in "static/img": the path is "static/img/" followed by the file name, and ends in ".png" |
| QrServer.FileName | main.go:110 | the name ends in ".png" and is a single clean path element (no '/') |
| QrServer.ImageUrl | main.go:124 | the returned URL is "/" followed by the path the file is written at |
| QrServer.ParseFileNameRoundTrip | main.go:110 | the timestamp is recovered by parsing the digits before ".png" |
| QrServer.ParseImageUrlRoundTrip | main.go:124 | the timestamp is recovered from the returned URL |
| QrServer.NamesInjective | main.go:110-111 | distinct timestamps give distinct names, distinct file paths and distinct URLs, and equal ones equal |
| QrServer.GenerateQRCode | main.go:99-125 | a URL is returned exactly when QR construction, file creation and PNG encoding all succeed; the first failing step is the fatal one; a file exists at the timestamp's path exactly when construction and creation succeeded; the URL is "/" plus that path |
| QrServer.GenerationsDistinct | main.go:110-124 | two successful calls at different times create different files and return different URLs |
| QrServer.GeneratedUrlNamesTime | main.go:124 | a returned URL parses back to the time of the call |
| Configuration.LoadConfig | config.go:14-38 | an empty PORT gives "8080", a set one is kept; an empty STATIC_FILES_DIR gives "static", a set one is kept; both results are non-empty; there is at least one language |
| Configuration.LanguagesAreSplit | config.go:26-30 | joining Languages with "," gives LANGUAGES back; it has one entry more than LANGUAGES has commas; no entry holds a comma; so the ["en"] fallback never applies |
| Configuration.UnsetLanguagesGiveEmptyEntry | config.go:26-30 | an unset LANGUAGES gives [""], not ["en"] |
| Configuration.LanguagesRoundTrip | config.go:26-27 | any non-empty list of comma-free names is what LoadConfig returns for those names joined with "," |
| Languages.SupportedLanguages | lang.go:78-81 | one name per directory entry, in listing order, each the entry with one trailing ".json" removed |
| Languages.GetSupportedLanguages | lang.go:72-84 | the slice filled in the loop is exactly the supported-language list of the listing |
| Languages.IsLanguageSupported | lang.go:62-70 | true exactly when the language equals some name of the supported list |
| Languages.ValidatedIsAllowed | lang.go:53-60 | validation gives a supported language or "en", and keeps its input exactly when the input is supported or "en" |
| Languages.ValidatedIdempotent | lang.go:53-60 | validating the result of validation changes nothing |
| Languages.ValidateLanguage | lang.go:53-60 | returns the input when the listing supports it and "en" otherwise |
| Languages.SelectedLanguageOutcomes | lang.go:32-51 | no header, a parse error or no tags give "en"; the slice panics exactly on a first tag shorter than two; a choice is a supported language or "en"; a supported prefix is always chosen |
| Languages.GetLanguage | lang.go:32-51 | the method chooses what the selection rule gives for the listing's supported languages |
| Languages.FourFileListing | lang.go:72-84 | a listing of en.json, es.json, fr.json and de.json supports exactly en, es, fr, de |
| Languages.RevisionsAgree | main.go:163-168 | main.go's hard-coded choice equals lang.go's choice over a listing of those four files |

## Left out

- `loadMessages` (both revisions): opening `static/lang/<lang>.json` and decoding it as JSON is file I/O and a library call.
- The error path of `os.ReadDir` in `getSupportedLanguages` (`log.Fatal`): the listing is an input, so a failed listing is not represented.
- `language.ParseAcceptLanguage`: a library; its result is an input, and tag rendering (`Tag.String`) is taken as given.
- GoStrings.ToLower: only ASCII letters are lowered, while Go's `strings.ToLower` lowers all Unicode letters; tags are ASCII.
- AcceptLanguage.PrimaryPrefix: Go slices a string by bytes and the model by characters; they agree on ASCII tags.
- QrServer.JoinPath: covers only a clean relative directory and a single clean element, where `path.Join` is concatenation with "/"; the general `path.Clean` is not modelled.
- QrServer.GenerateQRCode: QR construction, rasterisation at 256 pixels and PNG encoding are library calls, represented only by whether each step succeeds; the text itself is therefore not a parameter.
- The wall clock `time.Now().UnixNano()` is the parameter `now`; nothing is assumed about it being increasing, so two calls in the same nanosecond produce the same name.
- The deferred `file.Close()` and the process exit of `log.Fatal` are represented only by the created file staying on disk after a failed encode.
- Languages.IsLanguageSupported: returns a bool, so that it stops at the first match is visible only in its loop.
- `GoStrings.Split`: the separator is one character, which is the only separator the code uses.
- HTTP routing, template rendering, the handlers, `main` and static/js/main.js: framework glue and browser code.
- The periodic deletion of old images: no code in main.go, lang.go or config.go deletes images.
