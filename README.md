# OSV entity model and event codec, in Dafny

This project models the core of the Kotlin OSV client (`clients/osv`): the entity model of the Open Source
Vulnerability format, schema 1.3.0, and the hand-written codec for events. It proves properties of both.

- `model.dfy` (module `Model`) holds the immutable value types `Vulnerability`, `Affected`, `Credit`, `Event`,
  `Package`, `Range`, `Reference` and `Severity`, with their documented defaults as default values of the
  datatype constructors. Each Kotlin `Type` enum is a closed datatype. Kotlin's `type` is a Dafny keyword, so
  those fields are named `kind`. `Range` carries the two construction invariants as `Valid()`. `CheckedRange` is
  the subset type of valid ranges, and only checked ranges can sit inside an `Affected`. `NewRange` is the
  checked constructor. It returns a `Result`, where the Kotlin `init` block throws.
- `serializers.dfy` (module `Serializers`) holds `EventSerializer`. `DecodeEvent` reads one event from a JSON
  tree and `EncodeEvent` writes it as a single-member object such as `{"introduced": "1.0.0"}`.
- `json.dfy` holds the JSON tree (RFC 8259, with numbers kept as literal text) and the text content of a
  primitive. `text.dfy` holds the Kotlin string operations the core calls: `isWhitespace`, `isBlank`,
  `isNullOrBlank`, `uppercase` and `lowercase`. `lists.dfy` holds `Iterable.find`, and `wrappers.dfy` holds
  `Option` (a Kotlin nullable) and `Result` (a thrown exception).

Two points where the code is looser or more specific than the OSV schema, and the model follows the code:

- The OSV schema types an event's value as a string. The code takes the text content of any JSON primitive
  (Serializers.kt:55). So `{"limit": 5}` decodes to value `"5"`, `true` decodes to `"true"`, and `null` decodes
  to the text `"null"`.
- The code throws `IllegalArgumentException` from each `require`, from `enumValueOf` and from `jsonPrimitive`.
  The model gives each failing check its own error constructor, in the order the code runs them.

Upper-casing follows `String.uppercase()`, which is the locale-independent Java upper-casing with special
casing. It therefore also maps the sharp s, the dotless i, the long s and the Latin ligatures U+FB00-U+FB06 to
ASCII letters, so the member name `"\u{FB01}xed"` decodes as FIXED (`DecodeMixedCaseNames`).

## Model

| member | source | states |
|---|---|---|
| `Model.NewRange` | clients/osv/src/main/kotlin/Model.kt:113-121 | Construction succeeds exactly when (a git range has a repo with a non-whitespace character) and (some event is INTRODUCED). A git range without such a repo fails with `GitRangeWithoutRepo`, which is checked first. Otherwise a missing INTRODUCED event fails with `NoIntroducedEvent`. On success the range holds exactly the given fields. |
| `Model.NonGitRepoIrrelevant` | clients/osv/src/main/kotlin/Model.kt:114 | For ECOSYSTEM and SEMVER ranges, `repo` (absent, blank or not) never changes the outcome. |
| `Model.EmptyEventsRejected` | clients/osv/src/main/kotlin/Model.kt:118-120 | A range with an empty event list never constructs. |
| `Model.EventOrderIrrelevant` | clients/osv/src/main/kotlin/Model.kt:118 | The event check is existential over the whole list. Any list holding at least the same events (in any order, with any extra ones) also passes it. |
| `Model.ExtraEventsAccepted` | clients/osv/src/main/kotlin/Model.kt:118 | FIXED, LAST_AFFECTED and LIMIT events are not checked for count or order. Adding events before or after keeps a range valid. |
| `Model.DatabaseSpecificIrrelevant` | clients/osv/src/main/kotlin/Model.kt:100-121 | `databaseSpecific` plays no part in whether a range constructs. |
| `Model.GitRangeExamples` | clients/osv/src/main/kotlin/Model.kt:113-116 | A git range with no repo, an empty repo or an all-whitespace repo fails. A git range with a URL succeeds. SEMVER and ECOSYSTEM ranges succeed without a repo or with a blank one. |
| `Model.IntroducedExamples` | clients/osv/src/main/kotlin/Model.kt:118-120 | `[FIXED]` alone fails. An INTRODUCED event after a FIXED one succeeds, and so do two INTRODUCED events after a LIMIT. |
| `Model.VulnerabilityDefaults` | clients/osv/src/main/kotlin/Model.kt:37-58 | A vulnerability given only `id` and `modified` has schema version "1.0.0", no published/withdrawn/summary/details/databaseSpecific, and empty aliases, related, severity, affected, references and credits. |
| `Model.NestedDefaults` | clients/osv/src/main/kotlin/Model.kt:60-104 | `Affected` keeps the ranges it is given and defaults to no versions and no payloads. A package has no purl and a credit has no contacts by default. A SEMVER range built with only an INTRODUCED event constructs, with no repo and no payload. |
| `Model.Range.Valid` | clients/osv/src/main/kotlin/Model.kt:113-121 | A valid range has at least one event, and a valid git range has a non-empty repo. |
| `Model.ValidIffConstructible` | clients/osv/src/main/kotlin/Model.kt:100-121 | A range satisfies the invariant exactly when constructing it from its own fields succeeds and returns it unchanged. |
| `Model.AffectedRangesConstructible` | clients/osv/src/main/kotlin/Model.kt:64 | Every range held by an `Affected` passes both construction checks: it has an INTRODUCED event and, if git, a non-blank repo. |
| `Model.EventTypeName` | clients/osv/src/main/kotlin/Model.kt:84-89 | Every event type name is a non-empty string of upper-case ASCII letters and underscores. |
| `Model.EventTypeValueOf` | clients/osv/src/main/kotlin/Serializers.kt:53 | `enumValueOf`: it yields the type whose name is exactly the text, and nothing when no type has that name. |
| `Lists.Find` | clients/osv/src/main/kotlin/Model.kt:118 | `find` yields nothing exactly when no element satisfies the predicate. Otherwise it yields the first element that satisfies it. |
| `Text.WhitespaceCases` | clients/osv/src/main/kotlin/Model.kt:114 | `IsWhitespace` models `Char.isWhitespace` (`Character.isWhitespace` or `isSpaceChar`): tab, line feed, carriage return, space, U+001F, the no-break spaces U+00A0, U+2007 and U+202F, U+2028 and U+3000 are whitespace. NEL, the zero-width space, the BOM, NUL and every printable ASCII character are not. |
| `Text.IsBlank` | clients/osv/src/main/kotlin/Model.kt:114 | A string is blank exactly when every character is whitespace, so the empty string is blank. |
| `Text.IsNullOrBlank` | clients/osv/src/main/kotlin/Model.kt:114 | A nullable string is not null-or-blank exactly when it is present and holds a non-whitespace character. |
| `Text.Lower` | clients/osv/src/main/kotlin/Serializers.kt:62 | Lower-casing keeps the length and lowers exactly the upper-case ASCII letters. |
| `Text.UpperChar` | clients/osv/src/main/kotlin/Serializers.kt:53 | An ASCII character upper-cases to exactly one character that is not a lower-case letter and that lower-cases to the same character as the original, so upper- and lower-casing agree up to case. |
| `Text.UpperAppend` | clients/osv/src/main/kotlin/Serializers.kt:53 | Upper-casing a concatenation gives the concatenation of the upper cases. |
| `Text.UpperNoLowerAscii` | clients/osv/src/main/kotlin/Serializers.kt:53 | Upper-casing never shortens a string and leaves no lower-case ASCII letter. |
| `Text.UpperSpecialCases` | clients/osv/src/main/kotlin/Serializers.kt:53 | The special cases: sharp s becomes "SS", dotless i "I", long s "S", and the ligatures U+FB00-U+FB06 become "FF", "FI", "FL", "FFI", "FFL", "ST" and "ST". |
| `Text.UpperAscii` | clients/osv/src/main/kotlin/Serializers.kt:53 | On ASCII text, upper-casing works character by character and keeps the length. |
| `Text.LowerThenUpper` | clients/osv/src/main/kotlin/Serializers.kt:53-62 | Lower-casing an enum name gives lower-case ASCII that upper-cases back to the name. |
| `Text.UpperThenLower` | clients/osv/src/main/kotlin/Serializers.kt:53-62 | A lower-case ASCII key that upper-cases to an enum name is that name lower-cased, so the canonical key is unique. |
| `Json.PrimitiveContent` | clients/osv/src/main/kotlin/Serializers.kt:55 | Objects and arrays have no primitive content, and every other value has one. A string's content is its text, a number's is its literal, a boolean's is "true" or "false", and null's is the text "null". |
| `Serializers.SingleKey` | clients/osv/src/main/kotlin/Serializers.kt:52 | The entry of a one-member object is its only member name. |
| `Serializers.DecodeEvent` | clients/osv/src/main/kotlin/Serializers.kt:45-56 | A non-object fails with `NotAnObject`. An object with 0 or 2+ members fails with `NotSingleEntry`. Otherwise: a name whose upper case is no type name fails with `UnknownEventType`; a nested value fails with `NotAPrimitive`; else the event's type name is the upper-cased name and its value is the primitive's text. |
| `Serializers.EncodeEvent` | clients/osv/src/main/kotlin/Serializers.kt:58-65 | Encoding never fails and gives an object with exactly one member. Its name is lower-case ASCII that upper-cases to the type name, and its value is a JSON string holding the value unchanged. |
| `Serializers.DecodeEncode` | clients/osv/src/main/kotlin/Serializers.kt:53-62 | Round trip: decoding the encoding of any event gives `Success` of that event. |
| `Serializers.EncodeDecode` | clients/osv/src/main/kotlin/Serializers.kt:53-62 | Encoding is the canonical form. Re-encoding a decoded event reproduces the input exactly when its member name is lower-case ASCII and its value is a JSON string. |
| `Serializers.EncodeInjective` | clients/osv/src/main/kotlin/Serializers.kt:62 | Different events have different encodings. |
| `Serializers.DecodeNormalises` | clients/osv/src/main/kotlin/Serializers.kt:45-62 | Decoding the re-encoding of a decoded event gives the same result as decoding the original. |
| `Serializers.DecodeSingleMember` | clients/osv/src/main/kotlin/Serializers.kt:51-55 | For a one-member object, the outcome depends only on the name's upper case and on the value's primitive content, checked in that order. |
| `Serializers.DecodeIgnoresCase` | clients/osv/src/main/kotlin/Serializers.kt:53 | Member names with the same upper case decode alike. |
| `Serializers.DecodeRejectsShape` | clients/osv/src/main/kotlin/Serializers.kt:48-51 | A string, an array, null, `{}` and `{"introduced": "1.0", "fixed": "2.0"}` fail with the shape errors. |
| `Serializers.DecodeRejectsUnknownName` | clients/osv/src/main/kotlin/Serializers.kt:53 | `{"bogus": v}` fails as an unknown type whatever `v` is, because the name is looked up before the value is read. |
| `Serializers.DecodeAnyPrimitive` | clients/osv/src/main/kotlin/Serializers.kt:55 | A number decodes to its literal text and a boolean decodes to "true" or "false". |
| `Serializers.DecodeNullAsText` | clients/osv/src/main/kotlin/Serializers.kt:55 | A null value decodes to the text "null". |
| `Serializers.DecodeRejectsNestedValue` | clients/osv/src/main/kotlin/Serializers.kt:55 | A nested object or array as the value fails with `NotAPrimitive`. |
| `Serializers.DecodeMixedCaseNames` | clients/osv/src/main/kotlin/Serializers.kt:53 | `"Fixed"` and the ligature spelling `"\u{FB01}xed"` both decode as FIXED. |

## Left out

- `InstantSerializer` (Serializers.kt:71-81) is not modelled. It delegates to `Instant.toString()` and
  `DateTimeFormatter.ISO_ZONED_DATE_TIME`, and those library parsers and formatters are not part of this model.
  `Instant` is a plain datatype of epoch seconds and nanoseconds, and no timestamp round trip is stated.
- The serial descriptors and the `JsonDecoder`/`JsonEncoder` checks and casts (Serializers.kt:42-46, 59-60) are
  left out. They are framework plumbing, and the codec works directly on a `Json` argument or result.
- The generated structural (de)serializers of the `@Serializable` classes are left out. So are the wire field
  names (`@SerialName`), which are metadata and not logic. Note that `Range.databaseSpecific` has no
  `database_specific` rename (Model.kt:104), unlike the same field in `Vulnerability` and `Affected`.
- The extension payloads (`databaseSpecific`, `ecosystemSpecific`) are carried as uninterpreted JSON objects.
  Nothing is stated about them beyond being carried.
- `Text.Upper`: characters outside ASCII are upper-cased exactly only where the upper case is all ASCII (sharp
  s, dotless i, long s, the ligatures U+FB00-U+FB06). Every other non-ASCII character is kept as it is. Its
  true upper case still contains a non-ASCII character, so decoding succeeds or fails exactly as in the code.
  Only the text of an error could differ, and `UnknownEventType` carries the original name, not its upper case.
- `Text.Lower` lowers only ASCII letters. It is applied only to enum names, which are ASCII.
- `Serializers.DecodeEncode` and `Serializers.EncodeDecode` hold for well-formed Unicode text only. A Kotlin
  `String` is UTF-16 and may hold an unpaired surrogate (the JSON escape `"\ud800"` decodes to one), while a
  Dafny `string` holds Unicode scalar values only, so event values and member names with unpaired surrogates
  are outside the model.
- No HTTP client or fetching code is modelled; that is I/O outside the core.
