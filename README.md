# paste-app core in Dafny

This project models the library core of paste-app, an end-to-end encrypted pastebin. The browser
encrypts a paste with AES-GCM before upload. The key travels only in the URL fragment. The
server stores the ciphertext with a language label and an expiry.

The model has one Dafny module for each library file, plus two support modules:

- `Wrappers` (`wrappers.dfy`): `Option` and `Result`.
- `Text` (`text.dfy`): the JavaScript string operations the core relies on. It covers
  `trim` with the ECMAScript white-space set, `startsWith`, `endsWith`, `includes`, `split` on one
  character, `join`, `' '.repeat(n)` and decimal rendering of naturals. Each comes with the
  lemmas the other modules need: `split` and `join` are inverse, and `trim` is idempotent.
- `Crypto` (`crypto.dfy`), for `lib/crypto.ts`.
  - The base64 conversions are methods with their loops.
  - Encryption, decryption, key export and import are modelled, and so is the
    `iv:encrypted` envelope.
  - `btoa`, `atob`, `TextEncoder`, `TextDecoder` and Web Crypto's `encrypt`, `decrypt`, `exportKey`
    and `importKey` are foreign. They are the fields of a `Primitives` value. Where a caller relies
    on what those primitives guarantee, a ghost predicate states it as a premise. `Base64Sound`
    says base64 round-trips. `TextSound` says decoding the UTF-8 encoding of a text gives the
    text back, less a leading byte order mark, which `new TextDecoder()` drops. `AeadSound` says
    opening a sealed message gives the message back, and `KeySound` that a raw export imports back.
- `LanguageDetector` (`language_detector.dfy`), for `lib/language-detector.ts`. It models the
  ordered cascade of tests of `detectLanguage`. Five regular expressions are plain prefix or
  substring tests, and the model computes them exactly: the `#!/bin/bash` and `#!/bin/sh`
  shebangs, the `<?xml` prefix, the `#!` prefix with `ruby`, and the `<?php` and `<?=` tags. Every
  other regular expression is a named `Pattern`. An `Engine` answers whether a pattern matches and
  whether `JSON.parse` accepts the content.
- `Expiration` (`expiration.dfy`), for `lib/expiration.ts`. Dates are millisecond timestamps,
  and the clock reading `now` is a parameter.
- `RateLimit` (`rate_limit.dfy`), for `lib/rate-limit.ts`.
  - The module-level `Map` is the `windows` field of the class `RateLimiter`.
  - `checkRateLimit` and `cleanupExpiredEntries` are its methods.
  - The one-in-a-hundred random sweep is the parameter `sweepAt`: `None` when the coin says
    no, and `Some(t)` with the clock reading of the sweep when it says yes.
- `PasteActions` (`paste_actions.dfy`), for `lib/actions/paste-actions.ts`.
  - Identifier generation is a method with its loop, over the random bytes it is given.
  - The hosted `pastes` table is the `rows` field of the class `PasteTable`.
  - Each database call's outcome is a `StoreOutcome` parameter: a reply, an error reply, or a
    thrown exception.
- `Formatter` (`formatter.dfy`), for `lib/formatter.ts`. `formatCode` and its line loop are methods
  with the running `indentLevel`. `JSON.parse` followed by `JSON.stringify` is one function
  parameter that yields `None` where the parse throws.

Every method is proved against a function of its inputs or old state. The lemmas state the
properties of those functions. Among them:

- decrypting what was encrypted gives the plaintext back, less a leading byte order mark;
- splitting a combined envelope gives back its parts;
- the classifier is the first match of its ordered rule list;
- the expiry text and `isExpired` agree on "Expired";
- the rate limiter never lets a window count past the limit;
- a paste just created is returned by `getPaste`, and an expired one never is;
- formatting is idempotent.

## Model

| member | source | states |
|---|---|---|
| Crypto.BinaryString | lib/crypto.ts:10-14 | the binary string has one character per byte, whose code is that byte, so every code is below 256 |
| Crypto.ByteCodesOfBinaryString | lib/crypto.ts:10-26 | reading the character codes of the binary string built from bytes gives the bytes back |
| Crypto.BinaryStringOfByteCodes | lib/crypto.ts:10-26 | for a string of codes below 256, building a binary string from its codes gives the string back |
| Crypto.ArrayBufferToBase64 | lib/crypto.ts:9-16 | the loop builds the binary string of the bytes, and the result is `btoa` of it |
| Crypto.Base64ToArrayBuffer | lib/crypto.ts:21-28 | the loop yields the byte codes of `atob`'s output, and nothing where `atob` throws |
| Crypto.DecodeEncodedBase64 | lib/crypto.ts:9-28 | decoding the base64 text of any bytes gives exactly those bytes |
| Crypto.EncryptContent | lib/crypto.ts:45-66 | the ciphertext is the base64 of sealing the UTF-8 bytes of the content under the key and the 12-byte IV, and the IV field is the base64 of the IV |
| Crypto.EncryptedIvIsTwelveBytes | lib/crypto.ts:50-64 | the IV field is 16 base64 characters and decodes to the 12 IV bytes |
| Crypto.Decrypted | lib/crypto.ts:71-90 | decryption succeeds exactly when both fields decode and the authenticated open succeeds; the plaintext is then the UTF-8 decoding of what was opened, and every failure is the one `Failed to decrypt content` error |
| Crypto.DecryptContent | lib/crypto.ts:71-90 | the method yields the result `Decrypted` describes |
| Crypto.DecryptEncrypted | lib/crypto.ts:45-90 | decrypting the two fields `encryptContent` produced, under the same key, gives the content back without a leading byte order mark |
| Crypto.BomFreeContentComesBack | lib/crypto.ts:45-90 | content that does not start with U+FEFF comes back unchanged |
| Crypto.LeadingBomIsLost | lib/crypto.ts:86 | content `"\uFEFFhi"` decrypts to `"hi"`: the decoder drops the byte order mark |
| Crypto.ExportKey | lib/crypto.ts:95-98 | the exported key is the base64 of the key's raw bytes |
| Crypto.ImportKey | lib/crypto.ts:103-112 | importing decodes the text and hands the bytes to the raw-key import; it fails where either step fails |
| Crypto.ImportExportedKey | lib/crypto.ts:95-112 | importing an exported key gives the same key back |
| Crypto.CombineEncryptedData | lib/crypto.ts:117-119 | the envelope is the IV, a colon, then the ciphertext: it starts with `iv:`, ends with the ciphertext and is one character longer than both together |
| Crypto.SplitEncryptedData | lib/crypto.ts:124-130 | a success has a non-empty IV and ciphertext, neither holding `:`, and the input starts with `iv:encrypted`; every failure is the `Invalid encrypted data format` error |
| Crypto.SplitCombined | lib/crypto.ts:117-130 | splitting `combineEncryptedData(encrypted, iv)` gives back the same ciphertext and IV when both are non-empty and free of `:` |
| Crypto.SplitWithoutSeparator | lib/crypto.ts:125-128 | text without `:` is rejected |
| Crypto.SplitOneSeparator | lib/crypto.ts:125-128 | `iv:encrypted` is accepted exactly when both parts are non-empty |
| Crypto.SplitDropsRest | lib/crypto.ts:125 | everything after a second `:` is ignored |
| Crypto.Base64FieldIsWellFormed | lib/crypto.ts:62-65 | base64 text of a non-empty buffer is non-empty and has no `:`, so it is a valid envelope field |
| Crypto.EnvelopeRoundTrip | lib/crypto.ts:45-130 | encrypt, combine, split, then decrypt gives the content back, less a leading byte order mark |
| LanguageDetector.DetectLanguage | lib/language-detector.ts:6-25 | blank content is plain text, and the label is JSON exactly when the content is bracketed and `JSON.parse` accepts it |
| LanguageDetector.DetectIsFirstMatch | lib/language-detector.ts:28-201 | past the blank check, the label is that of the first of the 27 ordered tests that holds, and plain text when none does |
| LanguageDetector.YamlIsGuarded | lib/language-detector.ts:38-40 | a YAML label means the YAML test held and the content has neither `{` nor `;` |
| LanguageDetector.BashIsShell | lib/language-detector.ts:48-56 | a Bash label means the shell test held and no PowerShell cmdlet appears |
| LanguageDetector.ShellDisambiguated | lib/language-detector.ts:48-56 | shell content that reaches the shell test is PowerShell when a cmdlet appears and Bash otherwise |
| LanguageDetector.TypeScriptLabels | lib/language-detector.ts:71-84 | TSX means TypeScript syntax with JSX elements; TypeScript means the syntax without elements |
| LanguageDetector.TypeScriptDisambiguated | lib/language-detector.ts:71-84 | typed content that reaches the TypeScript test is TSX or TypeScript according to its JSX elements |
| LanguageDetector.JsxHasNoTypes | lib/language-detector.ts:86-89 | a JSX label means the JSX test held and no TypeScript syntax appears |
| LanguageDetector.StylesheetLabels | lib/language-detector.ts:192-198 | SCSS means the stylesheet test held with an SCSS feature; CSS means it held without one |
| LanguageDetector.StylesheetIsLabelled | lib/language-detector.ts:192-201 | non-blank content that passes the stylesheet test is never labelled plain text |
| Expiration.FixedOffset | lib/expiration.ts:27-35 | the fixed options last one hour, one day, seven days and thirty days, in milliseconds |
| Expiration.CalculateExpirationDate | lib/expiration.ts:21-39 | `never` has no expiry, `custom` passes the caller's date through, and a fixed option expires its offset after now |
| Expiration.UnitMs | lib/expiration.ts:46-53 | the custom units are a minute, an hour, a day, a week, 30 days and 365 days, in milliseconds |
| Expiration.CalculateCustomExpiration | lib/expiration.ts:44-55 | the result is now plus amount times the unit's length, and an Invalid Date exactly when that sum leaves the `Date` range of ±8.64e15 ms; for a positive amount a valid result is strictly after now |
| Expiration.CustomDurationsAdd | lib/expiration.ts:44-55 | b units after the date of a units from now is the date of a + b units from now |
| Expiration.CustomBeyondDateRange | lib/expiration.ts:44-55 | 300000 years from any instant after the epoch is already an Invalid Date |
| Expiration.CustomUnitsMatchFixedOptions | lib/expiration.ts:27-53 | while now plus thirty days stays in the `Date` range, one hour, day, week or month of custom duration gives the date of the matching fixed option |
| Expiration.IsExpired | lib/expiration.ts:89-92 | a paste without expiry never expires, and one is not expired at the very instant of its expiry |
| Expiration.FixedOptionLifetime | lib/expiration.ts:21-92 | a paste with a fixed option is expired at a later instant exactly when that instant is past now plus the option's offset |
| Expiration.NeverOptionNeverExpires | lib/expiration.ts:22 | a paste with the `never` option is never expired |
| Expiration.Phrase | lib/expiration.ts:77-82 | every countdown text starts with `Expires in `, and ends in `s` exactly when the count is above one |
| Expiration.PhraseShowsCount | lib/expiration.ts:77-82 | two countdown texts of one unit are equal only when their counts are |
| Expiration.FormatExpirationTime | lib/expiration.ts:61-62 | no expiry reads `Never expires` |
| Expiration.FlooredChain | lib/expiration.ts:70-75 | the chain of floored divisions equals one division by the unit's span, and a unit's count is positive exactly when the span fits |
| Expiration.CountdownIsLargestUnit | lib/expiration.ts:70-83 | the countdown counts in the largest unit whose span fits in the remaining time |
| Expiration.FormatNamesLargestUnit | lib/expiration.ts:70-82 | the text gives the floored count of the largest fitting unit |
| Expiration.FormatUnderOneSecond | lib/expiration.ts:83 | under one second left reads `Expires soon` |
| Expiration.FormatAgreesWithIsExpired | lib/expiration.ts:61-92 | the text is `Expired` exactly when `isExpired` holds |
| Expiration.FreshCountdowns | lib/expiration.ts:21-83 | right after creation the fixed options read `Expires in 1 hour`, `1 day`, `7 days` and `1 month` |
| Expiration.FreshPhrases | lib/expiration.ts:77-82 | the phrases for one hour, one day, seven days and one month read as written |
| Expiration.FreshCountdown | lib/expiration.ts:21-82 | a fresh fixed-option paste reads the phrase of the largest unit that fits in its offset |
| RateLimit.RateLimiter.constructor | lib/rate-limit.ts:6 | the limiter starts with no windows |
| RateLimit.Swept | lib/rate-limit.ts:48-55 | the sweep keeps exactly the windows still open, unchanged |
| RateLimit.RateLimiter.CleanupExpiredEntries | lib/rate-limit.ts:48-55 | the loop leaves the windows of the sweep |
| RateLimit.RateLimiter.CheckRateLimit | lib/rate-limit.ts:15-43 | the decision and the new windows are those of `Admit` on the old windows |
| RateLimit.DeniedIffLimitReached | lib/rate-limit.ts:28-39 | a request is refused exactly when the caller's window is open and has counted `limit` requests |
| RateLimit.SweepKeepsDecision | lib/rate-limit.ts:21-26 | the random sweep never changes the decision, since the record is read first |
| RateLimit.AdmitTouchesOnlyCaller | lib/rate-limit.ts:21-42 | another client's window is untouched, save for its removal by the sweep |
| RateLimit.ResetOpensFreshWindow | lib/rate-limit.ts:28-35 | a caller with no open window is allowed and gets a fresh window counting this one request, closing `windowMs` after now |
| RateLimit.RefusalKeepsTable | lib/rate-limit.ts:37-39 | a refused request changes no window; only the sweep, if it runs, drops windows that are over |
| RateLimit.AdmitKeepsWithinLimit | lib/rate-limit.ts:28-42 | no window ever counts more than `limit` requests |
| RateLimit.AllowedIsCounted | lib/rate-limit.ts:37-42 | an allowed request in an open window raises that window's count by one |
| RateLimit.LostIncrementIsHarmless | lib/rate-limit.ts:21-42 | when a sweep drops the very window it is about to count, the lost count could not have refused any later request |
| RateLimit.OpenWindowRun | lib/rate-limit.ts:28-42 | in a run of calls inside a window that has counted c requests, call i is allowed exactly when c + i is below the limit |
| RateLimit.BurstWithinWindow | lib/rate-limit.ts:15-43 | a burst from a caller without an open window, all within `windowMs` of its first call, has its first call allowed and call i allowed exactly when i is below the limit |
| RateLimit.TenPerMinute | lib/rate-limit.ts:15-19 | with the default arguments, a burst within one minute has exactly its first ten calls allowed |
| RateLimit.ThreePerSecond | lib/rate-limit.ts:28-42 | with limit 3 and a one-second window, requests at 0, 10, 20, 30, 1000 and 1001 ms are allowed, allowed, allowed, refused, refused and allowed |
| RateLimit.ThreePerSecondSteps | lib/rate-limit.ts:28-42 | each of those six requests gives that decision and window |
| RateLimit.GetClientIdentifier | lib/rate-limit.ts:60-67 | the identifier is never empty: the first hop of `x-forwarded-for`, else `x-real-ip`, else `cf-connecting-ip`, else `unknown`, each when it is non-empty |
| RateLimit.ForwardedChainNamesClient | lib/rate-limit.ts:62 | behind a proxy chain the client is the first address |
| PasteActions.CharsetSpelledOut | lib/actions/paste-actions.ts:21 | the alphabet is the capitals, then the small letters, then the digits |
| PasteActions.Symbol | lib/actions/paste-actions.ts:21 | every symbol of the alphabet is a base62 character |
| PasteActions.CharsetSymbols | lib/actions/paste-actions.ts:21 | the alphabet has 62 characters, the k-th being symbol k |
| PasteActions.SymbolInjective | lib/actions/paste-actions.ts:21 | distinct positions of the alphabet hold distinct characters |
| PasteActions.IdOf | lib/actions/paste-actions.ts:29-32 | identifier character i is the alphabet character at random byte i modulo 62 |
| PasteActions.GenerateId | lib/actions/paste-actions.ts:20-35 | the loop builds that identifier: ten base62 characters |
| PasteActions.SameIdIffCongruent | lib/actions/paste-actions.ts:31 | two byte draws give the same identifier exactly when they agree modulo 62 byte by byte |
| PasteActions.Utf8Length | lib/actions/paste-actions.ts:47 | the UTF-8 size is between one and four bytes per character |
| PasteActions.AsciiByteLength | lib/actions/paste-actions.ts:47 | ASCII text, base64 included, takes one byte per character |
| PasteActions.PasteTable.constructor | lib/actions/paste-actions.ts:58-59 | the table starts with the given rows, each stored under its own identifier |
| PasteActions.CreatePaste | lib/actions/paste-actions.ts:40-86 | the result and the new rows are those of `Create` on the old rows, and every row stays under its own identifier |
| PasteActions.OversizedIsRefusedFirst | lib/actions/paste-actions.ts:47-53 | content over 1 MiB is refused with `Content exceeds maximum size of 1MB` and the table unchanged, whatever the store would say |
| PasteActions.OneMebibyteIsAccepted | lib/actions/paste-actions.ts:48 | content of exactly 1 MiB passes the size check |
| PasteActions.CreateOutcome | lib/actions/paste-actions.ts:45-86 | a create succeeds exactly when the content fits, the insert replies and the identifier is free; it then stores the data under that identifier, and otherwise fails with one of the three messages and leaves the table alone |
| PasteActions.GetPaste | lib/actions/paste-actions.ts:91-138 | the result and the new rows are those of `Get` on the old rows, and every row stays under its own identifier |
| PasteActions.CreateGetKeepKeyed | lib/actions/paste-actions.ts:58-119 | creating and looking up pastes keep every row under its own identifier, the primary key |
| PasteActions.FoundHasAskedId | lib/actions/paste-actions.ts:95-130 | a paste that is found carries the identifier that was asked for, as the `eq('id', id)` select returns |
| PasteActions.MissingIsNotFound | lib/actions/paste-actions.ts:101-107 | an unknown identifier is `Paste not found` |
| PasteActions.ExpiredIsNeverReturned | lib/actions/paste-actions.ts:110-119 | an expired paste is never returned, and at most its own row is deleted |
| PasteActions.LivePasteIsReturned | lib/actions/paste-actions.ts:121-130 | a live paste is returned as stored, and the table is unchanged |
| PasteActions.GetTouchesOnlyItsRow | lib/actions/paste-actions.ts:91-138 | a get changes no row other than its own |
| PasteActions.CreateThenGet | lib/actions/paste-actions.ts:40-130 | a paste just created, and not yet expired, is returned by a get of its identifier |
| PasteActions.ExpiredThenNotFound | lib/actions/paste-actions.ts:101-119 | once an expired paste's row is deleted, later gets say `Paste not found` |
| Formatter.BracketTests | lib/formatter.ts:32-41 | the close and open tests are the `startsWith` and `endsWith` tests on `}`, `]`, `)` and `{`, `[`, `(` |
| Formatter.Formatted | lib/formatter.ts:6-19 | blank content comes back unchanged, and so does JSON the parser rejects |
| Formatter.FormatCode | lib/formatter.ts:6-51 | the method returns what `Formatted` describes |
| Formatter.IndentLines | lib/formatter.ts:24-44 | the loop carrying `indentLevel` yields `FormatLines` of the lines |
| Formatter.LineStep | lib/formatter.ts:32-41 | a closing line is emitted one level lower, never below zero, and an opening line raises the next line's level by one |
| Formatter.LevelAtMostOpenings | lib/formatter.ts:39-41 | the level never exceeds the number of earlier lines that opened a bracket |
| Formatter.OutputLineTrims | lib/formatter.ts:29-36 | trimming an output line gives the trimmed input line |
| Formatter.FormatLinesDependOnTrimsOnly | lib/formatter.ts:28-44 | lines that trim alike are formatted alike |
| Formatter.OutputLines | lib/formatter.ts:24-46 | the output has as many lines as the input, line i being two spaces per level followed by input line i trimmed |
| Formatter.FormattedIsNotBlank | lib/formatter.ts:7-46 | non-blank content is still non-blank once formatted |
| Formatter.FormatIdempotent | lib/formatter.ts:6-46 | formatting non-JSON content a second time changes nothing |

## Left out

- `generateEncryptionKey` (`lib/crypto.ts:33-39`) only calls Web Crypto's key generation. Keys are an abstract type, so nothing about it can be stated.
- Web Crypto, `btoa`, `atob`, `TextEncoder` and `TextDecoder` are foreign. They are fields of `Crypto.Primitives`, and the ghost predicates `Crypto.Base64Sound`, `Crypto.TextSound`, `Crypto.AeadSound` and `Crypto.KeySound` state as premises the guarantees the core relies on.
- AES-GCM itself, key lengths and the algorithm parameters of `importKey` are left to Web Crypto. A key Web Crypto refuses is an import failure.
- `crypto.getRandomValues` is an input: the IV bytes for `encryptContent` and the ten bytes for `generateId`.
- `Math.random() < 0.01` in `checkRateLimit` is the `sweepAt` parameter.
- The clock is a parameter: `Date.now()` and `new Date()` are `now`, and the sweep's own clock reading is the value inside `sweepAt`.
- The regular-expression engine and `JSON.parse` are foreign. Each regular expression of `lib/language-detector.ts` is a named pattern that a given `Engine` matches or not. The five that are plain prefix or substring tests are the exception: the `#!/bin/bash` and `#!/bin/sh` shebangs, `<?xml`, `#!` with `ruby`, and `<?php` or `<?=`, which the model computes exactly.
- Formatter.Formatted: `JSON.parse` followed by `JSON.stringify(…, null, 2)` is one function parameter, so nothing is proved about the shape of re-indented JSON.
- Crypto.DecryptEncrypted: strings are sequences of Unicode scalar values, so lone surrogates are not represented. A JavaScript string can hold them, `TextEncoder` turns each into U+FFFD, and on such content the source's round trip does not return the content.
- Crypto.EnvelopeRoundTrip: holds for content of Unicode scalar values only, for the same reason. On such content the round trip is exact except for a leading U+FEFF, which `new TextDecoder()` drops; `Crypto.LeadingBomIsLost` shows the loss.
- Expiration.CalculateExpirationDate: a fixed option adds its offset to `now` without the `Date` range check. The sum leaves the range only for a clock within thirty days of its end.
- Date parsing and ISO-8601 text are not modelled. Expiry dates are integer millisecond timestamps, so an unparsable date, for which the source yields `NaN` and neither expires nor counts down, cannot arise.
- Expiration.CalculateExpirationDate: `customDate || null` turns an invalid `Date` into the date itself, not `null`. The model passes the caller's optional date through, since an invalid date cannot be represented.
- The `LanguageValue` type of the formatter's parameter is defined in `lib/languages.ts`, which is not part of this model. The detector's `Language` stands for it, and only its `json` value matters.
- The formatter's `try`/`catch` around the line loop is left out. Nothing inside it can throw on a string.
- `async`, promises and the interleaving of concurrent calls on the shared rate-limit map are not modelled. Each call is one atomic step.
- `Headers` lookup is modelled as a map from lower-case names to the joined header value. Case-insensitive lookup and the joining of repeated headers are left to the runtime.
- PasteActions.Utf8Length counts bytes per code point. A lone surrogate, which `Blob` encodes as three bytes of U+FFFD, is not distinguished.
- The hosted database is the `rows` map of `PasteTable`. Row-level security, network failures other than an error reply or a thrown exception, and the `created_at` default are left out; `created_at` is a parameter of `CreatePaste`.
- `console.error` logging is left out.
- The React pages and components are outside the library core.
