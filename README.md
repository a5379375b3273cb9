# fire: placeholders, variables, header defaults and request rules in Dafny

`fire` is a command-line HTTP client. It reads a request description that may
contain `{{KEY}}` placeholders, fills them from variables collected from
`KEY=VALUE` files, the environment and the command line, and sends the
request with default headers. This project models the parts of it that
decide things:

- **Placeholder scanner** (`Templ`). This is the brace-counting automaton of
  `find_keys`, modelled as written. `FindKeys` is a method whose loop follows
  the Rust one step for step. Its contract ties it to `Keys`, which runs the
  automaton as a function. The lemmas prove four things:
  - the brace pair never reaches the `panic!` arm;
  - every key is a non-empty identifier;
  - single placeholders and the malformed forms behave as they should;
  - the unit test's scenario holds.

  Two quirks of the code are also proved: a stale buffer is glued onto the
  next key, and a single `{` keeps waiting for the second one.
- **Variables** (`Prop`). This covers:
  - the hand-written total order on `Source`, and `Property` ordered by
    source alone;
  - `from_str` (split at the first `=`, then `normalize`), `new`,
    `with_source`, `try_from` and `source`;
  - the `from_file` chain once the file has been read: `lines`, drop blank
    lines, parse, tag with the file's source, `collect`.

  `PropTests` proves the sort-order test for any sort that yields a sorted
  permutation.
- **Map merging** (`Template`). This covers `merge` (an in-place fold over
  the reversed list, in which the first map wins) and `build_map` (always
  `Ok`).
- **Header defaulting** (`Headers`, `Http`, `HttpCrate`, `Httpx`):
  - `put_if_absent` on a header map object;
  - `HttpRequest::headers` of the binary;
  - `set_default_headers` in the `http` and `httpx` crates. With `httpx`, a
    refused default fails before the map is touched;
  - the verb-dependent `body_size` and `has_body`;
  - `Verb::body` and `Display for Verb`;
  - the `https://` prefix rule;
  - `HttpResponse::header`.
- **Small tables** (`Args`, `FireErrors`): the `--colors` option and the exit
  code of each error.

`Wrappers` holds `Option` and `Result`. `Text` holds the pieces of Rust's
string library the code relies on:
- `trim`, which tests Unicode White_Space;
- `trim_matches`, `split_once` and `lines`;
- `to_ascii_lowercase`;
- `String::len` in UTF-8 bytes;
- `usize::to_string`.

Each is specified by its own contract and lemmas.

Foreign calls are parameters, so every lemma holds for whatever they do:
- `Url::parse` becomes `parse: string -> Option<Url>`. The model keeps only
  `host_str` of the parsed URL.
- `HeaderKey::from_str` and `Key::from_str` become `parseKey`.
- `HeaderName::from_str` and `HeaderValue::from_str` become `validName` and
  `validValue`.
- The `http` crate's `headers::header` helper becomes `check`.
- The file read becomes `read: Result<string, string>`.

Four behaviours of the code are worth knowing:
- **Quotes.** `normalize` strips every leading and trailing `'` and `"`,
  matched or not, rather than only one matching pair (`Prop.NormalizeStrips`).
- **Empty values.** An entry with `=` is accepted even when its key or its
  value normalizes to nothing.
- **Malformed entries.** A line without `=` is reported as `Entry(line)`,
  without naming the file.
- **Keys.** Because resets keep the buffer, a key need not be a contiguous
  piece of the template (`Templ.StaleBufferJoinsKeys`).

## Model

| member | source | states |
|---|---|---|
| Templ.TokenOf | src/templ.rs:104-114 | each character gets exactly one class: `{`, `}`, space, identifier character (ASCII letter, digit, `-`, `_`) or other; the two carrying classes keep the character |
| Templ.Keys | src/templ.rs:4-52 | the set `find_keys` returns; `Templ.KeysAreIdentifiers`, `Templ.NoBraceNoKeys`, `Templ.SinglePlaceholderKeys` and `TemplTests.FindTemplateKeysScenario` state what it holds |
| Templ.Step | src/templ.rs:11-47 | one loop iteration from a handled brace pair lands on a handled pair again: (0,0), (1,0), (2,0) or (2,1), so the `panic!` arm is never reached |
| Templ.Run | src/templ.rs:9-49 | running the automaton over any text from a handled pair ends on a handled pair |
| Templ.FindKeys | src/templ.rs:4-52 | the imperative loop returns exactly the key set of the automaton run over the template |
| Templ.StepWellFormed | src/templ.rs:20-45 | a step keeps the buffer made of identifier characters, keeps every key non-empty and made of identifier characters, and keeps the buffer non-empty in (2,1), so the `!state.is_empty()` test of the (2,1) arm at src/templ.rs:37 always holds |
| Templ.RunWellFormed | src/templ.rs:9-49 | the same invariant holds over a whole run |
| Templ.KeysAreIdentifiers | src/templ.rs:30-44 | every returned key is non-empty and consists only of ASCII letters, digits, `-` and `_` |
| Templ.RunAppend | src/templ.rs:9-49 | running over `a + b` is running over `a`, then over `b` |
| Templ.NoBraceStaysIdle | src/templ.rs:12-15 | without `{` in the text, (0,0) stays (0,0) and no key is added |
| Templ.NoBraceNoKeys | src/templ.rs:12-15 | a template containing no `{` yields the empty set |
| Templ.IdentifierExtendsBuffer | src/templ.rs:20-30 | in (2,0), identifier characters only extend the buffer |
| Templ.Placeholder | src/templ.rs:12-41 | from an idle state, `{{K}}` adds exactly K and leaves the scanner idle |
| Templ.SinglePlaceholderKeys | src/templ.rs:12-41 | for a non-empty identifier K, `{{K}}` yields exactly {K} |
| Templ.EmptyPlaceholdersIgnored | src/templ.rs:20-29 | `{{}}`, `{{ }}`, `{{  }}` and `{{{}}}` add no key and leave an idle scanner unchanged |
| Templ.SkipIgnoredPiece | src/templ.rs:12-31 | from an idle state, those pieces and a separator can be skipped |
| Templ.SkipPlaceholder | src/templ.rs:12-41 | from an idle state, `{{K}}` followed by more text is the same as adding K and going on idle |
| Templ.StaleBufferShape | src/templ.rs:16-45 | the reset on a space in (2,0) keeps the buffer, so `{{A {{B}}` adds the single key A ++ B, even for empty B |
| Templ.StaleBufferJoinsKeys | src/templ.rs:29-45 | `{{A {{B}}` yields {AB} and `{{A {{}}` yields {A}: keys are not always contiguous in the template |
| Templ.SingleBraceKeepsWaiting | src/templ.rs:16-19 | in (1,0), a non-brace clears the buffer but keeps waiting, so `{x{K}}` still yields K |
| TemplTests.TestTemplateShape | src/templ.rs:192-198 | the unit test's template with any two identifiers adds exactly those two keys |
| TemplTests.FindTemplateKeysScenario | src/templ.rs:192-198 | `{{FOO}} {{}}- {{{}}} {{  }} {{BAR}}` yields {FOO, BAR} |
| Prop.Compare | src/prop.rs:24-36 | `Ord for Source`, arm by arm; its meaning is given by `Prop.CompareEqualIff`, `Prop.CompareFlip`, `Prop.CompareTransitive` and `Prop.AscendingOrder` |
| Prop.PropertyCompare | src/prop.rs:56-60 | `Ord for Property`; `Prop.PropertyCompareIgnoresKeyAndValue` shows it depends on the sources alone |
| Prop.Tagged | src/prop.rs:76 | gives an Ok property the file's source and passes an error through; its properties are stated by `Prop.TaggedEntries` |
| Prop.TaggedEntries | src/prop.rs:75-76 | one result per entry: Ok exactly when the entry has `=`, then its `from_str` with the given source, else `Entry(entry)` |
| Prop.CompareNat | src/prop.rs:29 | `usize::cmp`: Less, Equal or Greater exactly as `<`, `==`, `>` |
| Prop.CompareEqualIff | src/prop.rs:24-36 | `Source::cmp` gives Equal exactly when the derived equality holds |
| Prop.CompareFlip | src/prop.rs:24-36 | swapping the operands flips the result (antisymmetry) |
| Prop.CompareTransitive | src/prop.rs:24-36 | the order is transitive, strictly and non-strictly |
| Prop.AscendingOrder | src/prop.rs:26-33 | a < b exactly when a is Arg and b is not, or a is a file and b is EnvVar, or both are files and a is deeper |
| Prop.New | src/prop.rs:39-41 | `new` never fails and keeps key, value and source |
| Prop.WithSource | src/prop.rs:51-53 | only the source changes |
| Prop.PropertyCompareIgnoresKeyAndValue | src/prop.rs:56-60 | two pairs of properties with the same sources compare alike, whatever their keys and values |
| Prop.PropertyEqualOrderWithoutEquality | src/prop.rs:56-60 | two properties that differ in value compare Equal, so the order is coarser than `==` |
| Prop.Normalize | src/prop.rs:125-128 | the result neither starts nor ends with a quote, and holds only characters of the input |
| Prop.NormalizeStrips | src/prop.rs:125-128 | whitespace around any mix of leading and trailing quotes goes, and so do the quotes; the text between, with its own edges, stays |
| Prop.FromStr | src/prop.rs:117-122 | Err exactly when the entry has no `=`, and then the error is `Entry(entry)`; on success the source is EnvVar and the key has no `=` |
| Prop.FromStrSplitsAtFirstDelimiter | src/prop.rs:118-119 | `key=value` with `=`-free key parses to the normalized key and the normalized value, later `=`s included |
| Prop.TryFrom | src/prop.rs:133-135 | the pair as it is, sourced EnvVar, never an error |
| Prop.SourceOf | src/prop.rs:80-83 | a file's source is File(number of path components) |
| Prop.NonBlank | src/prop.rs:74 | a line is kept exactly when it is not whitespace only, as many times as it occurs; all kept lines are non-blank |
| Prop.NonBlankAppend | src/prop.rs:74 | filtering a concatenation is filtering each part, in order, so the kept lines keep their order |
| Prop.Collect | src/prop.rs:77 | Ok exactly when every item is Ok, with all the values in order; otherwise the first error |
| Prop.ParseEntries | src/prop.rs:75-77 | Ok exactly when every entry has `=`, one property per entry, each `from_str` of its entry with the given source; otherwise `Entry` of the first entry without `=` |
| Prop.ParseContent | src/prop.rs:72-77 | Ok exactly when every non-blank line has `=`, one property per non-blank line in order, each the `from_str` of that line with the given source; otherwise the error is `Entry` of the first non-blank line without `=` |
| Prop.BlankLinesDropped | src/prop.rs:74 | a list of whitespace-only lines filters to nothing |
| Prop.BlankContentIsEmpty | src/prop.rs:72-77 | content whose lines are all blank yields Ok of no properties |
| Prop.FromFile | src/prop.rs:68-78 | a failed read gives `File(message)`; otherwise Ok exactly when every non-blank line has `=`, and every property then has source File(component count) |
| Prop.Sort | src/prop.rs:153 | a permutation of its input, sorted by `Property::cmp` |
| PropTests.SortTestProperties | src/prop.rs:152-158 | the reference sort applied to the test's four properties gives the values arg, file_child, file_root, env_var |
| Prop.InsertSorted | src/prop.rs:153 | inserting into a sorted list keeps it sorted |
| Prop.SortedUnique | src/prop.rs:153 | two sorted permutations of properties with distinct sources are equal, so any sort gives the same result |
| PropTests.SortOrderShape | src/prop.rs:145-158 | any sorted arrangement of the four test properties is Arg, File(1), File(0), EnvVar |
| PropTests.SortOrderScenario | src/prop.rs:145-161 | sorting the test's four properties gives the values arg, file_child, file_root, env_var |
| Template.Lookup | src/template.rs:31-35 | a key has a value exactly when some map defines it |
| Template.MergedCons | src/template.rs:31-36 | a map in front of a list overrides every map after it |
| Template.Merge | src/template.rs:30-38 | the reversed in-place fold yields exactly the first-wins merge of the list |
| Template.MergedEmpty | src/template.rs:37 | merging no maps gives the empty map |
| Template.MergedSingle | src/template.rs:31-37 | merging one map gives that map |
| Template.MergedKeys | src/template.rs:31-35 | the merged keys are the union of the maps' keys |
| Template.MergedFirstWins | src/template.rs:31-35 | a key takes its value from the earliest map that defines it |
| Template.BuildMap | src/template.rs:40-54 | always Ok; the keys are exactly the requested keys that the values define, each with its value |
| Template.BuildMapAllKeys | src/template.rs:44-53 | restricting a map to all its own keys gives it back |
| Headers.Defaulted | src/headers.rs:16-23 | a present key leaves the map unchanged; an absent key is added with the value; nothing else is added, removed or altered |
| Headers.DefaultedTwice | src/headers.rs:17 | a second put of the same key, with any value, changes nothing |
| Headers.HeaderMap.PutIfAbsent | src/headers.rs:16-23 | the map object's new entries are the put-if-absent of the old ones |
| Headers.DefaultedAll | http/src/lib.rs:78-80 | `entry(key).or_insert(value)` for each default in turn; `Headers.DefaultedAllKeeps` and `Headers.DefaultedAllValue` state its outcome |
| Headers.DefaultedAllKeeps | http/src/lib.rs:78-80 | putting a list of defaults keeps every explicit entry and adds exactly the default names |
| Headers.DefaultedAllValue | http/src/lib.rs:78-80 | with distinct names, a default whose name is not explicit gets its own value |
| Headers.DefaultHeaders | http/src/lib.rs:65-76 | one to three defaults, `user-agent: fire/0.1.0` last |
| Headers.DefaultsApplied | http/src/lib.rs:58-83 | after defaulting: explicit headers are untouched; user-agent is present and defaults to `fire/0.1.0`; content-length is added exactly with a body, as the decimal size; host exactly with a host; no other name |
| Headers.DefaultNames | http/src/lib.rs:65-76 | the defaults name `user-agent`, plus `content-length` exactly with a body and `host` exactly with a host |
| Headers.DefaultValues | http/src/lib.rs:65-80 | each default whose name is not explicit ends up with its own value: `fire/0.1.0`, the decimal size, the host |
| Headers.DistinctDefaultNames | httpx/src/lib.rs:59-70 | the default names are pairwise distinct |
| Http.BodyOf | src/http.rs:106-120 | Trace is Forbidden; Post, Put and Patch are Permitted; the others are Discouraged; the `http` crate repeats this at http/src/lib.rs:126-140 |
| Http.Name | src/http.rs:122-138 | `Display for Verb`; `Http.NamesUpperAndDistinct` shows each name is a non-empty upper-case word, distinct per verb |
| Http.ParsedUrl | src/http.rs:27-33 | `url()`: the URL parser applied to the prefixed text of `Http.UrlInput` |
| Http.NamesUpperAndDistinct | src/http.rs:122-138 | every verb displays as a non-empty upper-case word, and distinct verbs display differently; the `http` crate repeats this at http/src/lib.rs:142-158 |
| Http.UrlInput | src/http.rs:27-33 | the string handed to the parser is the URL itself when it starts with `http://` or `https://`, otherwise `https://` ++ URL; the same rule serves http/src/lib.rs:34-40 and httpx/src/lib.rs:35-41 |
| Http.UrlInputIdempotent | src/http.rs:27-33 | applying the prefix rule twice is applying it once |
| Http.UrlInputAddsHttps | src/http.rs:30-31 | a URL without a scheme keeps its text after the added `https://` |
| Http.BodySize | src/http.rs:73-81 | the body's UTF-8 length for Post, Put, Delete and Patch with a body; 0 otherwise |
| Http.HasBody | src/http.rs:65-67 | holds exactly when the size is not 0 |
| Http.HasBodyIff | src/http.rs:65-81 | a body exists exactly for a counting verb with a present, non-empty body |
| Http.BodyIgnored | src/http.rs:73-81 | Get, Head, Connect, Options and Trace never count the body |
| Http.Header | src/http.rs:48-63 | None for a rejected name or no explicit headers; otherwise exactly the explicit value, never a default |
| Http.RequestHeaders | src/http.rs:35-46 | explicit headers keep their values; the keys are exactly the explicit ones plus user-agent and content-length, plus host when the URL has one; the defaults are `fire/0.1.0`, the decimal body size (also "0") and the host |
| HttpCrate.FirstRefusal | http/src/lib.rs:67-76 | None exactly when the helper accepts every default |
| HttpCrate.FirstRefusalAfterAccepted | http/src/lib.rs:67-76 | accepted defaults in front do not change which refusal comes first |
| HttpCrate.HttpRequest.BodySize | http/src/lib.rs:93-101 | the verb rule of the binary: only Post, Put, Delete and Patch count the body |
| HttpCrate.HttpRequest.HasBody | http/src/lib.rs:85-87 | holds exactly when the size is not 0 |
| HttpCrate.HttpRequest.Header | http/src/lib.rs:46-56 | None for a rejected name; otherwise the stored value if any |
| HttpCrate.HttpRequest.SetDefaultHeaders | http/src/lib.rs:58-83 | Ok exactly when the helper accepts every default; on Err, the first refusal is returned and the headers are unchanged; on Ok, the headers are the explicit ones with each default put if absent |
| HttpCrate.HttpRequest.InsertDefaults | http/src/lib.rs:78-80 | the loop puts each default in turn, if absent |
| HttpCrate.SetDefaultsOutcome | http/src/lib.rs:58-83 | after success, explicit headers are untouched; user-agent is present, `fire/0.1.0` unless explicit; content-length only with a body, as the decimal size; host only with a host; no other name |
| HttpCrate.FirstNamed | http/src/lib.rs:202 | the position of the first header with that name, or the length when none has it |
| HttpCrate.ResponseHeader | http/src/lib.rs:200-203 | Some exactly when a stored name equals the ASCII-lower-cased query; the value is that of the first such header |
| HttpCrate.ResponseHeaderIgnoresCase | http/src/lib.rs:201 | queries equal up to ASCII case give the same answer |
| HttpCrate.UpperCaseStoredNameNeverMatches | http/src/lib.rs:201-202 | a stored name holding an upper-case letter is never found, since only the query is lower-cased |
| Httpx.BodySize | httpx/src/lib.rs:87-95 | the body's UTF-8 length for PUT, POST, DELETE and PATCH with a body; 0 otherwise, also for extension methods |
| Httpx.HasBody | httpx/src/lib.rs:79-81 | holds exactly when the size is not 0 |
| Httpx.HasBodyIff | httpx/src/lib.rs:79-95 | a body exists exactly for a counting method with a present, non-empty body |
| Httpx.ExtensionIgnoresBody | httpx/src/lib.rs:87-95 | an extension method never counts the body |
| Httpx.MakeHeader | httpx/src/lib.rs:100-106 | Ok exactly when both name and value are valid; `Key(name)` for a bad name; `Value(value)` only when the name is valid |
| Httpx.FirstInvalid | httpx/src/lib.rs:61-70 | None exactly when every default passes the helper |
| Httpx.FirstInvalidAfterValid | httpx/src/lib.rs:61-70 | valid defaults in front do not change which error comes first |
| Httpx.HttpRequest.SetDefaultHeaders | httpx/src/lib.rs:58-77 | Ok exactly when every default is valid; on Err, the first `InvalidHeader` and `self.headers` unchanged; on Ok, the explicit headers with each default put if absent |
| Httpx.HttpRequest.InsertDefaults | httpx/src/lib.rs:72-74 | the loop puts each default in turn, if absent |
| Httpx.SetDefaultsOutcome | httpx/src/lib.rs:52-77 | after success, explicit headers are untouched; user-agent is present, `fire/0.1.0` unless explicit; content-length only with a body; host only with a host; no other name |
| Httpx.RefusedUserAgentName | httpx/src/lib.rs:61-70 | when only the `user-agent` name is refused, defaulting fails with `Key("user-agent")` |
| Args.ParseColors | src/args.rs:52-61 | any refusal is `Err("Invalid color choice")` |
| Args.ParseColorsIff | src/args.rs:53-58 | an input parses to a choice exactly when its lower-cased form is that choice's word: always, ansi, auto, never |
| Args.ParseColorsRejects | src/args.rs:59 | an input that is none of the words in any casing is rejected with `Invalid color choice` |
| Args.ParseColorsIgnoresCase | src/args.rs:53 | inputs equal up to case parse alike |
| Args.WordRoundTrip | src/args.rs:53-58 | every casing of a choice's word parses back to that choice |
| Args.UseColors | src/args.rs:30-38 | no option gives Auto; Always, AlwaysAnsi, Auto and Never map to the `ColorChoice` of the same name |
| Args.UseColorsOneToOne | src/args.rs:33-36 | distinct choices map to distinct `ColorChoice`s, and every `ColorChoice` is reached |
| FireErrors.Report | src/error.rs:45-57 | no error exits with code 0; every code fits in a byte |
| FireErrors.ReportDistinguishesVariants | src/error.rs:47-56 | two errors share a code exactly when they are the same variant, so the eight codes are distinct |
| FireErrors.ReportCodes | src/error.rs:48-55 | Timeout 3, Connection 4, FileNotFound 5, NoReadPermission 6, NotAFile 7, GenericIO 8, Template 9, Other 1 |
| FireErrors.Exit | src/error.rs:60-63 | `exit` returns exactly the error's report code |
| Text.SplitOnce | src/prop.rs:118 | None exactly without the delimiter; otherwise the text is before ++ delimiter ++ after, with no delimiter before |
| Text.SplitOnceAtFirst | src/prop.rs:118 | the split is at the first delimiter |
| Text.Lines | src/prop.rs:73 | no line contains `\n` |
| Text.LinesCrLf | src/prop.rs:73 | a `\r\n` ending is removed whole |
| Text.LinesOfTerminated | src/prop.rs:73 | `lines` reads back `\n`-terminated lines unchanged |
| Text.Decimal | src/http.rs:42 | `usize::to_string`: non-empty, digits only, no leading zero except for 0 |
| Text.DecimalRoundTrip | http/src/lib.rs:72 | reading the decimal text back gives the number |
| Text.Trim | src/prop.rs:127 | `str::trim`: `Text.TrimMatches` with Unicode White_Space, so its result has no whitespace at either end |
| Text.AsciiLowercase | http/src/lib.rs:201 | same length, each character ASCII-lower-cased |
| Text.Utf8Len | src/http.rs:76 | `String::len`, the byte count; `Text.Utf8LenBounds` bounds it and makes it 0 exactly for the empty string |
| Text.FirstIndex | src/prop.rs:118 | None exactly when the character is absent; otherwise its first position |
| Text.TrimMatches | src/prop.rs:127 | what is kept is one contiguous piece of the input whose two ends fail the pattern, and every character cut before or after it matches the pattern |
| Text.TrimBothPiece | src/prop.rs:127 | trimming the start and then the end keeps a contiguous piece of the input, with only pattern characters cut on either side |
| Text.Utf8LenBounds | src/http.rs:76 | the byte length lies between the character count and four times it, and is 0 exactly for the empty string |

## Left out

- Reading files, the VCS root lookup, the directory walk, the resolver, rendering with Handlebars (`substitution`), prompting, the network, printing and terminal colours: I/O and foreign libraries, outside the modelled files.
- `serde` deserialisation of `HttpRequest` (`FromStr for HttpRequest`) and the `ureq`/`reqwest` conversions: foreign libraries.
- `Url::parse`: a parameter. Only `host_str` of its result is modelled, and the `unwrap` of `url()` becomes a precondition that the URL parses.
- `HeaderName`/`HeaderValue` validation and their lower-casing of names: parameters, or left out. Header names are taken as given; every name the defaulting code inserts is already lower-case.
- `Headers.HeaderMap.PutIfAbsent`: the `unwrap`s of the `header` helper in src/headers.rs:5-9 are not modelled; the key and value are assumed valid.
- `HttpCrate.HttpRequest.SetDefaultHeaders`: the crate's `headers::header` helper (http/src/headers.rs) is not part of this model. It is the `check` parameter, assumed to keep an accepted pair as given.
- The `HashMap<HeaderKey, HeaderValue>` that `HttpRequest::headers` builds in src/http.rs is modelled with the same `HeaderMap` object as src/headers.rs. Its own `Appendable` implementation is not part of this model.
- `http::Method` conversions and `Verb` to `reqwest::Method`: foreign types. The `http` crate's `Verb`, `BodyStatus`, `url`, `body_size`, `Verb::body` and `Display` are those of module Http, which its source repeats word for word.
- Accessors (`verb()`, `body()`, `headers()`, `key()`, `value()`, the response's `version()`, `status()` and `body()`): plain field reads. The response's `body_len()` is the byte length of its body, `Text.Utf8Len` of the body text.
- `httpx`'s `header(key)` getters and its `HttpResponse` (httpx/src/lib.rs:47-50, 136-168): they read a foreign `HeaderMap` through `HeaderName` and `to_str`. The core rules of that file are its defaults and body size.
- `HttpCrate.HttpResponse`: `status` is an `int`; the `u16` range is not enforced, since nothing here computes with it.
- `Http.BodySize` and `Httpx.BodySize`: sizes are unbounded naturals; `usize` overflow cannot arise for a string held in memory.
- `Args.ParseColors`: `to_lowercase` is modelled as ASCII lower-casing. The one non-ASCII character that Unicode lower-cases into ASCII is the Kelvin sign, which becomes `k`, and no accepted word contains `k`, so the accepted inputs are the same.
- `Prop.Sort`: `slice::sort` itself is not modelled, and neither sort's stability is stated. A reference insertion sort stands in, and `Prop.SortedUnique` shows that every sort gives the same result on the test's properties.
- `ParsePropertyError`'s `Key` and `Value` variants are never constructed by the code. `Display` for it, and for `FireError`, depends on `Url`/`PathBuf`/`io::Error` formatting.
- `exit`'s `eprintln!` is I/O; only its return value is modelled.
- The commented-out parser sketches and the unused `Error` enum of src/templ.rs, and the `#[test]` in src/http.rs that expects `header("host")` to see defaults, which `header` does not provide (`Http.Header`).
